/** The in-memory stand-in for the document store the controllers talk to:
    the `blogs` and `comments` collections, plus the ordered record of the
    calls made to the image host, the local disk and the deletions. */
module Store {
  import opened Common
  import opened BlogModel

  /** One outside call or deletion, in the order the controller made it. */
  datatype Effect =
    | UploadImage(path: string, folder: string)   // uploadToCloudinary(path, folder)
    | DestroyImage(publicId: string)              // deleteFromCloudinary(publicId)
    | RemoveTempFile(path: string)                // fs.unlinkSync(path)
    | DeleteCommentsOf(blogId: ObjectId)          // Comment.deleteMany({ blog })
    | DeleteBlogDocument(blogId: ObjectId)        // blog.deleteOne()

  /** Blog ids are unique in the collection. */
  predicate UniqueIds(blogs: seq<Blog>)
  {
    forall i, j :: 0 <= i < j < |blogs| ==> blogs[i].id != blogs[j].id
  }

  /** `Blog.findById(id)`: the position of the blog with that id, if any. */
  function FindBlog(blogs: seq<Blog>, id: ObjectId): (r: Option<nat>)
    ensures r.Some? ==> r.value < |blogs| && blogs[r.value].id == id
    ensures r.Some? ==> forall k :: 0 <= k < r.value ==> blogs[k].id != id
    ensures r.None? ==> forall k :: 0 <= k < |blogs| ==> blogs[k].id != id
  {
    if blogs == [] then None
    else if blogs[0].id == id then Some(0)
    else match FindBlog(blogs[1..], id)
      case None => None
      case Some(k) => Some(k + 1)
  }

  /** Every stored blog passed the schema when it was last saved, and ids are unique. */
  predicate ValidBlogs(blogs: seq<Blog>)
  {
    UniqueIds(blogs) && forall k :: 0 <= k < |blogs| ==> StoredBlogValid(blogs[k])
  }

  /** Saving a valid document over a blog with the same id keeps the collection valid. */
  lemma ReplaceKeepsValid(blogs: seq<Blog>, i: nat, b: Blog)
    requires ValidBlogs(blogs) && i < |blogs|
    requires b.id == blogs[i].id && StoredBlogValid(b)
    ensures ValidBlogs(blogs[i := b])
  {
    var r := blogs[i := b];
    forall p, q | 0 <= p < q < |r| ensures r[p].id != r[q].id {
      assert r[p].id == blogs[p].id && r[q].id == blogs[q].id;
    }
  }

  /** Inserting a valid document under a fresh id keeps the collection valid. */
  lemma AppendKeepsValid(blogs: seq<Blog>, b: Blog)
    requires ValidBlogs(blogs) && FindBlog(blogs, b.id).None? && StoredBlogValid(b)
    ensures ValidBlogs(blogs + [b])
  {
    var r := blogs + [b];
    forall p, q | 0 <= p < q < |r| ensures r[p].id != r[q].id {
      if q < |blogs| {
        assert r[p] == blogs[p] && r[q] == blogs[q];
      } else {
        assert r[p] == blogs[p];
      }
    }
    forall k | 0 <= k < |r| ensures StoredBlogValid(r[k]) {
      if k < |blogs| { assert r[k] == blogs[k]; }
    }
  }

  class Db {
    var blogs: seq<Blog>
    var comments: seq<Comment>
    var effects: seq<Effect>

    ghost predicate Valid()
      reads this
    {
      ValidBlogs(blogs)
    }

    constructor (blogs: seq<Blog>, comments: seq<Comment>)
      requires ValidBlogs(blogs)
      ensures Valid()
      ensures this.blogs == blogs && this.comments == comments && this.effects == []
    {
      this.blogs := blogs;
      this.comments := comments;
      this.effects := [];
    }
  }
}
