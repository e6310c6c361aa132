/** The `Blog` and `Comment` document schemas: field rules, the setters that
    run before validation (`trim`), the defaults and timestamps filled in on
    creation, and the `comments` virtual relation of a blog. */
module BlogModel {
  import opened Common
  import opened Strings
  import Sorting
  import Seqs

  /** A stored blog document (`timestamps: true` adds the two time fields,
      in milliseconds). */
  datatype Blog = Blog(
    id: ObjectId,
    title: string,
    content: string,
    coverImage: string,
    author: ObjectId,
    likes: seq<ObjectId>,
    likesCount: int,
    commentsCount: int,
    createdAt: int,
    updatedAt: int)

  /** A stored comment document. */
  datatype Comment = Comment(
    id: ObjectId,
    content: string,
    author: ObjectId,
    blog: ObjectId,
    createdAt: int,
    updatedAt: int)

  const TitleMinLength := 5
  const TitleMaxLength := 200
  const ContentMinLength := 20
  const CommentMinLength := 1
  const CommentMaxLength := 500

  /** The schema paths a `ValidationError` can name. */
  datatype Path = TitlePath | ContentPath | CoverImagePath | AuthorPath | BlogPath

  /** The fields handed to `Blog.create`; a field the caller left out is `None`. */
  datatype BlogFields = BlogFields(
    title: Option<string>,
    content: Option<string>,
    coverImage: Option<string>,
    author: Option<ObjectId>)

  /** The fields handed to `Comment.create`. */
  datatype CommentFields = CommentFields(
    content: Option<string>,
    author: Option<ObjectId>,
    blog: Option<ObjectId>)

  /** `title`: required, trimmed by its setter, then 5..200 characters. */
  predicate TitleAccepted(title: Option<string>)
  {
    title.Some? && TitleMinLength <= |Trim(title.value)| <= TitleMaxLength
  }

  /** `content`: required and at least 20 characters, with no trimming. */
  predicate ContentAccepted(content: Option<string>)
  {
    content.Some? && |content.value| >= ContentMinLength
  }

  /** A required string path: present and non-empty. */
  predicate RequiredString(s: Option<string>)
  {
    s.Some? && s.value != ""
  }

  /** The paths whose validators fail, as in the `errors` of a Mongoose
      `ValidationError` (every failing path is reported, not just the first). */
  function BlogSchemaErrors(f: BlogFields): set<Path>
  {
    (if TitleAccepted(f.title) then {} else {TitlePath})
    + (if ContentAccepted(f.content) then {} else {ContentPath})
    + (if RequiredString(f.coverImage) then {} else {CoverImagePath})
    + (if f.author.Some? then {} else {AuthorPath})
  }

  /** What a stored blog satisfies: a trimmed title of 5..200 characters,
      content of at least 20, a cover image and (by construction) an author. */
  predicate StoredBlogValid(b: Blog)
  {
    && Trim(b.title) == b.title
    && TitleMinLength <= |b.title| <= TitleMaxLength
    && |b.content| >= ContentMinLength
    && b.coverImage != ""
  }

  /** The like counter mirrors the like list and nobody likes a blog twice. */
  predicate LikesConsistent(b: Blog)
  {
    b.likesCount == |b.likes| && Seqs.NoDuplicates(b.likes)
  }

  /** `Blog.create(fields)`: the title setter trims, the validators run, and on
      success the document starts with no likes, both counters at their
      default 0 and both timestamps at `now`. */
  function CreateBlog(f: BlogFields, id: ObjectId, now: int): (r: Result<Blog, set<Path>>)
    ensures r.Ok? <==> BlogSchemaErrors(f) == {}
    ensures r.Err? ==> r.error == BlogSchemaErrors(f)
  {
    if TitleAccepted(f.title) && ContentAccepted(f.content) && RequiredString(f.coverImage) && f.author.Some? then
      Ok(Blog(id, Trim(f.title.value), f.content.value, f.coverImage.value, f.author.value,
              [], 0, 0, now, now))
    else Err(BlogSchemaErrors(f))
  }

  /** A created blog stores its inputs (the title trimmed), satisfies the
      stored-blog rules, belongs to the given author, starts with consistent
      likes and both counters at 0. */
  lemma CreatedBlogValid(f: BlogFields, id: ObjectId, now: int, b: Blog)
    requires CreateBlog(f, id, now) == Ok(b)
    ensures StoredBlogValid(b) && LikesConsistent(b)
    ensures b.likesCount == 0 && b.commentsCount == 0
    ensures b.id == id && b.author == f.author.value
    ensures b.title == Trim(f.title.value) && b.content == f.content.value && b.coverImage == f.coverImage.value
    ensures b.createdAt == now && b.updatedAt == now
  {
    TrimIdempotent(f.title.value);
  }

  /** `comment.content`: required, trimmed by its setter, then 1..500 characters. */
  predicate CommentContentAccepted(content: Option<string>)
  {
    content.Some? && CommentMinLength <= |Trim(content.value)| <= CommentMaxLength
  }

  function CommentSchemaErrors(f: CommentFields): set<Path>
  {
    (if CommentContentAccepted(f.content) then {} else {ContentPath})
    + (if f.author.Some? then {} else {AuthorPath})
    + (if f.blog.Some? then {} else {BlogPath})
  }

  /** What a stored comment satisfies: trimmed content of 1..500 characters. */
  predicate StoredCommentValid(c: Comment)
  {
    Trim(c.content) == c.content && CommentMinLength <= |c.content| <= CommentMaxLength
  }

  /** `Comment.create(fields)`: trim, validate, stamp both timestamps. */
  function CreateComment(f: CommentFields, id: ObjectId, now: int): (r: Result<Comment, set<Path>>)
    ensures r.Ok? <==> CommentSchemaErrors(f) == {}
    ensures r.Err? ==> r.error == CommentSchemaErrors(f)
  {
    if CommentContentAccepted(f.content) && f.author.Some? && f.blog.Some? then
      Ok(Comment(id, Trim(f.content.value), f.author.value, f.blog.value, now, now))
    else Err(CommentSchemaErrors(f))
  }

  /** A created comment stores its input content trimmed and within bounds,
      both references and both timestamps. */
  lemma CreatedCommentValid(f: CommentFields, id: ObjectId, now: int, c: Comment)
    requires CreateComment(f, id, now) == Ok(c)
    ensures StoredCommentValid(c) && c.id == id
    ensures c.author == f.author.value && c.blog == f.blog.value
    ensures c.content == Trim(f.content.value)
    ensures c.createdAt == now && c.updatedAt == now
  {
    TrimIdempotent(f.content.value);
  }

  /** A comment made only of white space is refused: trimming runs before the
      minimum-length check, so it is measured as empty. */
  lemma WhitespaceCommentRejected(content: string, author: Option<ObjectId>, blog: Option<ObjectId>)
    requires AllSpace(content)
    ensures ContentPath in CommentSchemaErrors(CommentFields(Some(content), author, blog))
    ensures CreateComment(CommentFields(Some(content), author, blog), 0, 0).Err?
  {
    TrimEmptyIffAllSpace(content);
  }

  /** The schema puts no uniqueness rule on `likes`: a stored blog whose like
      list repeats an id is valid as far as the schema is concerned. */
  lemma SchemaAllowsRepeatedLikes(b: Blog, u: ObjectId, d: Blog)
    requires StoredBlogValid(b)
    requires d == b.(likes := [u, u], likesCount := 2)
    ensures StoredBlogValid(d)
    ensures !LikesConsistent(d)
  {
    assert d.title == b.title && d.content == b.content && d.coverImage == b.coverImage;
    assert d.likes[0] == d.likes[1];
  }

  /** The comments that point at a blog, in store order. */
  function CommentsReferencing(comments: seq<Comment>, blogId: ObjectId): seq<Comment>
  {
    Seqs.Filter(comments, (c: Comment) => c.blog == blogId)
  }

  /** The `comments` virtual of a blog: the Comment documents whose `blog`
      equals the blog's `_id`, sorted by `createdAt` descending. */
  function CommentsOf(comments: seq<Comment>, blogId: ObjectId): seq<Comment>
  {
    Sorting.SortBy(CommentsReferencing(comments, blogId), (c: Comment) => c.createdAt, false)
  }

  /** The virtual holds exactly the comments referencing the blog (each as
      often as in the store), newest first. */
  lemma CommentsOfSpec(comments: seq<Comment>, blogId: ObjectId)
    ensures forall c :: c in CommentsOf(comments, blogId) <==> c in comments && c.blog == blogId
    ensures multiset(CommentsOf(comments, blogId)) == multiset(CommentsReferencing(comments, blogId))
    ensures forall i, j :: 0 <= i < j < |CommentsOf(comments, blogId)| ==>
              CommentsOf(comments, blogId)[i].createdAt >= CommentsOf(comments, blogId)[j].createdAt
  {
    var r := CommentsOf(comments, blogId);
    var f := CommentsReferencing(comments, blogId);
    forall c ensures c in r <==> c in comments && c.blog == blogId {
      Seqs.FilterMember(comments, (c: Comment) => c.blog == blogId, c);
      assert c in r <==> c in multiset(r);
      assert c in f <==> c in multiset(f);
    }
    forall i, j | 0 <= i < j < |r| ensures r[i].createdAt >= r[j].createdAt {
      assert Sorting.InOrder(r[i].createdAt, r[j].createdAt, false);
    }
  }
}
