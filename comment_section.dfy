/** The comment thread under a blog: the listed comments, the new-comment
    box and the single comment being edited. */
module CommentSection {
  import opened Common
  import opened Strings
  import Seqs

  /** A comment as the client lists it; `author` is the populated author's
      `_id`, `None` when the author is missing. */
  datatype ClientComment = ClientComment(id: ObjectId, content: string, author: Option<ObjectId>)

  /** `navigate(path, { state: { from, message } })`. */
  datatype Navigation = Navigation(path: string, from: string, message: string)

  datatype Request =
    | AddComment(blogId: ObjectId, content: string)
    | UpdateComment(commentId: ObjectId, content: string)
    | DeleteComment(commentId: ObjectId)

  /** The answer to an add or edit: the server's comment, or a failure with
      the server's message, if any. */
  datatype Reply = Done(comment: ClientComment) | Failed(message: Option<string>)

  const LoginPath := "/login"
  const LoginToComment := "Please login to comment"
  const AddFailed := "Failed to add comment"
  const UpdateFailed := "Failed to update comment"
  const DeleteFailed := "Failed to delete comment"

  /** The route of a blog page, `/blog/${id}`. */
  function BlogPath(routeId: string): string
  {
    "/blog/" + routeId
  }

  /** `comments.map(c => c._id === id ? updated : c)`. */
  function ReplaceById(comments: seq<ClientComment>, id: ObjectId, updated: ClientComment): (r: seq<ClientComment>)
    ensures |r| == |comments|
    ensures forall k :: 0 <= k < |r| ==> r[k] == if comments[k].id == id then updated else comments[k]
  {
    if comments == [] then []
    else [if comments[0].id == id then updated else comments[0]] + ReplaceById(comments[1..], id, updated)
  }

  /** `comments.filter(c => c._id !== id)`. */
  function RemoveById(comments: seq<ClientComment>, id: ObjectId): seq<ClientComment>
  {
    Seqs.Filter(comments, (c: ClientComment) => c.id != id)
  }

  /** Deleting drops exactly the comments with that id and keeps the others
      in their relative order (it distributes over any split of the list). */
  lemma RemoveByIdSpec(comments: seq<ClientComment>, id: ObjectId)
    ensures forall c :: c in RemoveById(comments, id) <==> c in comments && c.id != id
    ensures forall a, b :: comments == a + b ==> RemoveById(comments, id) == RemoveById(a, id) + RemoveById(b, id)
  {
    forall c ensures c in RemoveById(comments, id) <==> c in comments && c.id != id {
      Seqs.FilterMember(comments, (c: ClientComment) => c.id != id, c);
    }
    forall a, b | comments == a + b ensures RemoveById(comments, id) == RemoveById(a, id) + RemoveById(b, id) {
      Seqs.FilterAppend(a, b, (c: ClientComment) => c.id != id);
    }
  }

  /** Adding a comment with a new id and then deleting it gives back the list. */
  lemma AddThenDeleteRestores(comments: seq<ClientComment>, c: ClientComment)
    requires forall k :: 0 <= k < |comments| ==> comments[k].id != c.id
    ensures RemoveById([c] + comments, c.id) == comments
  {
    Seqs.FilterAppend([c], comments, (x: ClientComment) => x.id != c.id);
    Seqs.FilterKeepsAll(comments, (x: ClientComment) => x.id != c.id);
  }

  /** Editing then deleting the same comment is the same as deleting it. */
  lemma {:induction false} EditThenDelete(comments: seq<ClientComment>, updated: ClientComment)
    ensures RemoveById(ReplaceById(comments, updated.id, updated), updated.id) == RemoveById(comments, updated.id)
  {
    if comments != [] {
      EditThenDelete(comments[1..], updated);
      var r := ReplaceById(comments, updated.id, updated);
      assert r == [r[0]] + ReplaceById(comments[1..], updated.id, updated);
      assert comments == [comments[0]] + comments[1..];
      Seqs.FilterAppend([r[0]], ReplaceById(comments[1..], updated.id, updated), (x: ClientComment) => x.id != updated.id);
      Seqs.FilterAppend([comments[0]], comments[1..], (x: ClientComment) => x.id != updated.id);
    }
  }

  /** `user?._id === comment.author?._id`, as written: two absent ids compare
      equal, so a signed-out viewer gets the controls on a comment whose
      author is missing. */
  predicate ShowsControls(user: Option<ObjectId>, author: Option<ObjectId>)
  {
    user == author
  }

  /** The owner test the controls evidently intend: a signed-in user who
      wrote the comment. */
  predicate OwnsComment(user: Option<ObjectId>, author: Option<ObjectId>)
  {
    user.Some? && author.Some? && user.value == author.value
  }

  /** The as-written test shows the controls to a signed-out viewer on a
      comment with no author. */
  lemma ControlsShownToSignedOutViewer()
    ensures ShowsControls(None, None) && !OwnsComment(None, None)
  {
  }

  /** The intended test holds exactly for the signed-in author, and agrees
      with the as-written one whenever a user is signed in. */
  lemma OwnsCommentSpec(user: Option<ObjectId>, author: Option<ObjectId>)
    ensures OwnsComment(user, author) <==> exists id: ObjectId :: user == Some(id) && author == Some(id)
    ensures user.Some? ==> (OwnsComment(user, author) <==> ShowsControls(user, author))
  {
    if OwnsComment(user, author) {
      assert user == Some(user.value) && author == Some(user.value);
    }
  }

  class Thread {
    var comments: seq<ClientComment>
    var newComment: string
    var editingId: Option<ObjectId>
    var editContent: string
    /** The requests sent to the server, in order. */
    var requests: seq<Request>
    var navigations: seq<Navigation>
    var alerts: seq<string>

    constructor (comments: seq<ClientComment>)
      ensures this.comments == comments && newComment == "" && editingId == None && editContent == ""
      ensures requests == [] && navigations == [] && alerts == []
    {
      this.comments := comments;
      newComment := "";
      editingId := None;
      editContent := "";
      requests := [];
      navigations := [];
      alerts := [];
    }

    /** `handleAddComment`: a signed-out user is sent to the login page with
        the way back; a blank comment does nothing; otherwise the untrimmed
        text is sent and the returned comment goes first in the list. */
    method HandleAddComment(isAuthenticated: bool, routeId: string, blogId: ObjectId, reply: Reply)
      modifies this
      ensures editingId == old(editingId) && editContent == old(editContent)
      ensures !isAuthenticated ==>
                && navigations == old(navigations) + [Navigation(LoginPath, BlogPath(routeId), LoginToComment)]
                && requests == old(requests) && comments == old(comments) && newComment == old(newComment)
                && alerts == old(alerts)
      ensures isAuthenticated ==> navigations == old(navigations)
      ensures isAuthenticated && AllSpace(old(newComment)) ==>
                requests == old(requests) && comments == old(comments) && newComment == old(newComment) && alerts == old(alerts)
      ensures isAuthenticated && !AllSpace(old(newComment)) ==>
                && requests == old(requests) + [AddComment(blogId, old(newComment))]
                && (reply.Done? ==> comments == [reply.comment] + old(comments) && newComment == "" && alerts == old(alerts))
                && (reply.Failed? ==> comments == old(comments) && newComment == old(newComment)
                                      && alerts == old(alerts) + [OrElse(reply.message, AddFailed)])
    {
      if !isAuthenticated {
        navigations := navigations + [Navigation(LoginPath, BlogPath(routeId), LoginToComment)];
        return;
      }
      TrimEmptyIffAllSpace(newComment);
      if Trim(newComment) == "" {
        return;
      }
      requests := requests + [AddComment(blogId, newComment)];
      match reply
      case Done(c) =>
        comments := [c] + comments;
        newComment := "";
      case Failed(m) =>
        alerts := alerts + [OrElse(m, AddFailed)];
    }

    /** `handleEditComment`: a blank edit does nothing; a successful one
        replaces the comment with that id in place and leaves edit mode. */
    method HandleEditComment(commentId: ObjectId, reply: Reply)
      modifies this
      ensures newComment == old(newComment) && navigations == old(navigations)
      ensures AllSpace(old(editContent)) ==>
                requests == old(requests) && comments == old(comments) && alerts == old(alerts)
                && editingId == old(editingId) && editContent == old(editContent)
      ensures !AllSpace(old(editContent)) ==>
                && requests == old(requests) + [UpdateComment(commentId, old(editContent))]
                && (reply.Done? ==> comments == ReplaceById(old(comments), commentId, reply.comment)
                                    && editingId == None && editContent == "" && alerts == old(alerts))
                && (reply.Failed? ==> comments == old(comments) && editingId == old(editingId)
                                      && editContent == old(editContent)
                                      && alerts == old(alerts) + [OrElse(reply.message, UpdateFailed)])
    {
      TrimEmptyIffAllSpace(editContent);
      if Trim(editContent) == "" {
        return;
      }
      requests := requests + [UpdateComment(commentId, editContent)];
      match reply
      case Done(c) =>
        comments := ReplaceById(comments, commentId, c);
        editingId := None;
        editContent := "";
      case Failed(m) =>
        alerts := alerts + [OrElse(m, UpdateFailed)];
    }

    /** `handleDeleteComment`: nothing unless confirmed; on success the
        comments with that id leave the list. `failure` is the server's
        refusal, if it refused. */
    method HandleDeleteComment(commentId: ObjectId, confirmed: bool, failure: Option<Option<string>>)
      modifies this
      ensures newComment == old(newComment) && navigations == old(navigations)
      ensures editingId == old(editingId) && editContent == old(editContent)
      ensures !confirmed ==> requests == old(requests) && comments == old(comments) && alerts == old(alerts)
      ensures confirmed ==>
                && requests == old(requests) + [DeleteComment(commentId)]
                && (failure.None? ==> comments == RemoveById(old(comments), commentId) && alerts == old(alerts))
                && (failure.Some? ==> comments == old(comments)
                                      && alerts == old(alerts) + [OrElse(failure.value, DeleteFailed)])
    {
      if !confirmed {
        return;
      }
      requests := requests + [DeleteComment(commentId)];
      if failure.None? {
        comments := RemoveById(comments, commentId);
      } else {
        alerts := alerts + [OrElse(failure.value, DeleteFailed)];
      }
    }

    method StartEditing(c: ClientComment)
      modifies this
      ensures editingId == Some(c.id) && editContent == c.content
      ensures comments == old(comments) && newComment == old(newComment) && requests == old(requests)
      ensures navigations == old(navigations) && alerts == old(alerts)
    {
      editingId := Some(c.id);
      editContent := c.content;
    }

    method CancelEditing()
      modifies this
      ensures editingId == None && editContent == ""
      ensures comments == old(comments) && newComment == old(newComment) && requests == old(requests)
      ensures navigations == old(navigations) && alerts == old(alerts)
    {
      editingId := None;
      editContent := "";
    }
  }
}
