/** The author's dashboard: the excerpt, the per-status counts, the
    publish/unpublish requests, the local removal after a delete, and the
    three-dot menu. */
module MyBlogs {
  import opened Common
  import opened BlogModel
  import BlogController
  import Seqs
  import ApiResponse
  import opened BlogCard

  const ListExcerptLength: nat := 100
  const Published := "published"
  const Draft := "draft"
  const PublishFailed := "Failed to publish blog"
  const UnpublishFailed := "Failed to unpublish blog"
  const DeleteFailed := "Failed to delete blog"

  /** The multipart body of a publish or unpublish: the blog's own title and
      content again, and the wanted status. */
  datatype StatusUpdate = StatusUpdate(blogId: ObjectId, title: string, content: string, status: string)

  /** The excerpt a dashboard row shows. */
  function RowExcerpt(content: string): (r: string)
    ensures |content| <= ListExcerptLength ==> r == content
    ensures |content| > ListExcerptLength ==> |r| == ListExcerptLength + 3 && r[..ListExcerptLength] == content[..ListExcerptLength]
  {
    Truncate(content, ListExcerptLength)
  }

  /** The update endpoint reads only title, content and a file, so a status
      update (same title, same content, no file) by the author saves the
      stored blog unchanged: the status is not kept. */
  lemma StatusUpdateChangesNothing(b: Blog, now: int)
    requires StoredBlogValid(b)
    ensures BlogController.Edit(b, Some(b.title), Some(b.content), None, None, now)
              == BlogController.Step(BlogController.Respond(ApiResponse.Success(200, BlogController.BlogUpdated, Some(b))), [], Some(b))
  {
    assert |b.title| >= TitleMinLength && |b.content| >= ContentMinLength;
    BlogController.SaveEditSpec(b, Some(b.title), Some(b.content), b.coverImage, now);
  }

  class Dashboard {
    var blogs: seq<ClientBlog>
    var publishedCount: nat
    var draftCount: nat
    var openMenuId: Option<ObjectId>
    var sent: seq<StatusUpdate>
    var deleted: seq<ObjectId>
    var alerts: seq<string>

    constructor ()
      ensures blogs == [] && publishedCount == 0 && draftCount == 0 && openMenuId == None
      ensures sent == [] && deleted == [] && alerts == []
    {
      blogs := [];
      publishedCount := 0;
      draftCount := 0;
      openMenuId := None;
      sent := [];
      deleted := [];
      alerts := [];
    }

    /** `fetchCounts`: each tab's count is the `pagination.total` of its
        one-item query; a failed fetch keeps the counts. */
    method FetchCounts(totals: Option<(nat, nat)>)
      modifies this
      ensures totals.Some? ==> publishedCount == totals.value.0 && draftCount == totals.value.1
      ensures totals.None? ==> publishedCount == old(publishedCount) && draftCount == old(draftCount)
      ensures blogs == old(blogs) && openMenuId == old(openMenuId) && sent == old(sent)
      ensures deleted == old(deleted) && alerts == old(alerts)
    {
      if totals.Some? {
        publishedCount := totals.value.0;
        draftCount := totals.value.1;
      }
    }

    /** `handlePublish` / `handleUnpublish`: resend the row's title and
        content with the wanted status; on success the menu closes, on
        failure the server's message or the default is alerted. */
    method SetStatus(b: ClientBlog, publish: bool, failure: Option<Option<string>>)
      modifies this
      ensures sent == old(sent) + [StatusUpdate(b.id, b.title, b.content, if publish then Published else Draft)]
      ensures failure.None? ==> openMenuId == None && alerts == old(alerts)
      ensures failure.Some? ==>
                && openMenuId == old(openMenuId)
                && alerts == old(alerts) + [OrElse(failure.value, if publish then PublishFailed else UnpublishFailed)]
      ensures blogs == old(blogs) && deleted == old(deleted)
      ensures publishedCount == old(publishedCount) && draftCount == old(draftCount)
    {
      sent := sent + [StatusUpdate(b.id, b.title, b.content, if publish then Published else Draft)];
      if failure.None? {
        openMenuId := None;
      } else {
        alerts := alerts + [OrElse(failure.value, if publish then PublishFailed else UnpublishFailed)];
      }
    }

    /** `handleDeleteConfirm`: after a successful delete exactly the rows with
        that id leave the list, the others keep their order. */
    method DeleteConfirm(target: ObjectId, failure: Option<Option<string>>)
      modifies this
      ensures deleted == old(deleted) + [target]
      ensures failure.Some? ==> blogs == old(blogs) && alerts == old(alerts) + [OrElse(failure.value, DeleteFailed)]
      ensures failure.None? ==>
                && blogs == Seqs.Filter(old(blogs), (b: ClientBlog) => b.id != target)
                && (forall b :: b in blogs <==> b in old(blogs) && b.id != target)
                && alerts == old(alerts)
      ensures openMenuId == old(openMenuId) && sent == old(sent)
      ensures publishedCount == old(publishedCount) && draftCount == old(draftCount)
    {
      deleted := deleted + [target];
      if failure.Some? {
        alerts := alerts + [OrElse(failure.value, DeleteFailed)];
        return;
      }
      var before := blogs;
      blogs := Seqs.Filter(blogs, (b: ClientBlog) => b.id != target);
      forall b ensures b in blogs <==> b in before && b.id != target {
        Seqs.FilterMember(before, (b: ClientBlog) => b.id != target, b);
      }
    }

    /** The three-dot button: closes the menu if it is this row's, otherwise
        opens this row's (closing any other), so at most one menu is open. */
    method ToggleMenu(id: ObjectId)
      modifies this
      ensures openMenuId == if old(openMenuId) == Some(id) then None else Some(id)
      ensures openMenuId.Some? ==> openMenuId.value == id
      ensures blogs == old(blogs) && sent == old(sent) && deleted == old(deleted) && alerts == old(alerts)
      ensures publishedCount == old(publishedCount) && draftCount == old(draftCount)
    {
      openMenuId := if openMenuId == Some(id) then None else Some(id);
    }
  }
}
