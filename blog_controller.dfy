/** The blog routes: paginated listings, one blog with its comments, and the
    author-only create / update / delete that also drive the image host. */
module BlogController {
  import opened Common
  import opened Strings
  import opened Numbers
  import opened Sorting
  import opened ApiResponse
  import opened BlogModel
  import opened Store
  import Seqs

  const NotFound := "Blog not found"
  const BlogsRetrieved := "Blogs retrieved successfully"
  const UserBlogsRetrieved := "User blogs retrieved successfully"
  const BlogRetrieved := "Blog retrieved successfully"
  const ProvideTitleAndContent := "Please provide title and content"
  const ProvideCover := "Please upload a cover image"
  const BlogCreated := "Blog created successfully"
  const BlogUpdated := "Blog updated successfully"
  const BlogDeleted := "Blog deleted successfully"
  const NotAuthorizedUpdate := "Not authorized to update this blog"
  const NotAuthorizedDelete := "Not authorized to delete this blog"
  /** The image host folder cover images are uploaded to. */
  const CoverFolder := "blog-covers"
  const DefaultPage := 1
  const DefaultLimit := 10

  /** An exception passed to `next(error)`; the application's error handler
      that turns it into a response is not part of this model. */
  datatype Fault =
    | NegativeSkip                      // the store refuses `skip` below zero
    | UploadFailed                      // the image host upload threw
    | ValidationFailed(paths: set<Path>)  // `save`/`create` raised a ValidationError

  datatype Outcome<+D> = Respond(envelope: Envelope<D>) | Forward(fault: Fault)

  /** The query string of a listing request; every key may be absent. */
  datatype ListQuery = ListQuery(
    page: Option<string>,
    limit: Option<string>,
    search: Option<string>,
    sortBy: Option<string>,
    order: Option<string>)

  datatype Pagination = Pagination(page: int, limit: int, total: nat, pages: int)

  datatype Listing = Listing(blogs: seq<Blog>, pagination: Pagination)

  function Abs(x: int): nat
  {
    if x < 0 then -x else x
  }

  /** `.skip(skip).limit(limit)`: a negative limit is read as its absolute value. */
  function Window<T>(s: seq<T>, skip: nat, limit: int): (r: seq<T>)
    requires limit != 0
    ensures |r| == if skip >= |s| then 0 else if Abs(limit) < |s| - skip then Abs(limit) else |s| - skip
    ensures forall k :: 0 <= k < |r| ==> r[k] == s[skip + k]
  {
    var to := if skip + Abs(limit) < |s| then skip + Abs(limit) else |s|;
    if skip >= |s| then [] else s[skip..to]
  }

  /** The sort key `.sort({ [sortBy]: order })` uses, for the numeric fields. */
  function SortKey(field: string): Blog -> int
  {
    if field == "createdAt" then (b: Blog) => b.createdAt
    else if field == "updatedAt" then (b: Blog) => b.updatedAt
    else if field == "likesCount" then (b: Blog) => b.likesCount
    else if field == "commentsCount" then (b: Blog) => b.commentsCount
    else (b: Blog) => 0
  }

  /** Count, sort, skip `(page - 1) * limit` and take `limit`; the store
      rejects a negative skip. */
  function Paginate(selected: seq<Blog>, key: Blog -> int, ascending: bool, page: int, limit: int): (r: Result<Listing, Fault>)
    requires limit != 0
    ensures r.Err? <==> (page - 1) * limit < 0
    ensures r.Err? ==> r.error == NegativeSkip
  {
    var skip := (page - 1) * limit;
    if skip < 0 then Err(NegativeSkip)
    else
      Ok(Listing(Window(SortBy(selected, key, ascending), skip, limit),
                 Pagination(page, limit, |selected|, CeilDiv(|selected|, limit))))
  }

  lemma MulMonotone(a: int, b: int, c: int)
    requires a <= b && c >= 0
    ensures a * c <= b * c
  {
  }

  /** A page is the window from position `skip = (page - 1) * limit` of the
      selected blogs in sort order, at most `|limit|` of them; the pagination
      reports the query's page and limit, the total under the same filter and
      `ceil(total / limit)` pages; with a positive limit, page `p >= 1` is
      non-empty exactly when `p <= pages`. */
  lemma PaginateSpec(selected: seq<Blog>, key: Blog -> int, ascending: bool, page: int, limit: int, l: Listing)
    requires limit != 0 && Paginate(selected, key, ascending, page, limit) == Ok(l)
    ensures (page - 1) * limit >= 0 && l.blogs == Window(SortBy(selected, key, ascending), (page - 1) * limit, limit)
    ensures l.pagination == Pagination(page, limit, |selected|, CeilDiv(|selected|, limit))
    ensures var skip := (page - 1) * limit;
            |l.blogs| == if skip >= |selected| then 0 else if Abs(limit) < |selected| - skip then Abs(limit) else |selected| - skip
    ensures forall k :: 0 <= k < |l.blogs| ==> l.blogs[k] in selected
    ensures SortedBy(l.blogs, key, ascending)
    ensures limit > 0 && page >= 1 ==> (|l.blogs| > 0 <==> page <= l.pagination.pages)
  {
    var sorted := SortBy(selected, key, ascending);
    var skip := (page - 1) * limit;
    assert skip >= 0;
    assert l.blogs == Window(sorted, skip, limit);
    WindowOfSorted(sorted, skip, limit, key, ascending);
    forall k | 0 <= k < |l.blogs| ensures l.blogs[k] in selected {
      assert l.blogs[k] in multiset(sorted);
    }
    if limit > 0 && page >= 1 {
      PageStartsBeforeTotal(|selected|, page, limit);
    }
  }

  /** A window of a sorted sequence is sorted and holds only its elements. */
  lemma WindowOfSorted<T>(s: seq<T>, skip: nat, limit: int, key: T -> int, ascending: bool)
    requires limit != 0 && SortedBy(s, key, ascending)
    ensures SortedBy(Window(s, skip, limit), key, ascending)
    ensures forall k :: 0 <= k < |Window(s, skip, limit)| ==> Window(s, skip, limit)[k] in s
  {
    var w := Window(s, skip, limit);
    forall i, j | 0 <= i < j < |w| ensures InOrder(key(w[i]), key(w[j]), ascending) {
      assert w[i] == s[skip + i] && w[j] == s[skip + j];
    }
    forall k | 0 <= k < |w| ensures w[k] in s {
      assert w[k] == s[skip + k];
    }
  }

  /** With a positive limit, page `p >= 1` starts before the end of `total`
      items exactly when `p <= ceil(total / limit)`. */
  lemma PageStartsBeforeTotal(total: nat, page: int, limit: int)
    requires limit > 0 && page >= 1
    ensures (page - 1) * limit >= 0
    ensures (page - 1) * limit < total <==> page <= CeilDiv(total, limit)
  {
    var p := CeilDiv(total, limit);
    CeilDivBounds(total, limit);
    MulMonotone(0, page - 1, limit);
    if page <= p {
      MulMonotone(page - 1, p - 1, limit);
    } else {
      MulMonotone(p, page - 1, limit);
    }
  }

  /** The blogs a listing draws from: those matching the search text, or all
      of them when the query has no (or an empty) `search`. */
  function Selected(blogs: seq<Blog>, q: ListQuery, matches: Blog -> bool): seq<Blog>
  {
    if OrElse(q.search, "") != "" then Seqs.Filter(blogs, matches) else blogs
  }

  /** `GET /api/blogs`: `matches` says whether a blog matches the text search
      on title and content for the query's `search` text. */
  function GetBlogs(blogs: seq<Blog>, q: ListQuery, matches: Blog -> bool): Outcome<Listing>
  {
    var page := IntParamOr(q.page, DefaultPage);
    var limit := IntParamOr(q.limit, DefaultLimit);
    var sortBy := OrElse(q.sortBy, "createdAt");
    var ascending := q.order == Some("asc");
    match Paginate(Selected(blogs, q, matches), SortKey(sortBy), ascending, page, limit)
    case Err(f) => Forward(f)
    case Ok(l) => Respond(Success(200, BlogsRetrieved, Some(l)))
  }

  /** What a listing answers: the parsed page and limit, the total of blogs
      matching the search (all blogs when there is none), and as blogs the
      window from `(page - 1) * limit` of those blogs sorted by the requested
      field and direction: only such blogs, in that order, at most `|limit|`. */
  lemma GetBlogsSpec(blogs: seq<Blog>, q: ListQuery, matches: Blog -> bool, l: Listing)
    requires GetBlogs(blogs, q, matches) == Respond(Success(200, BlogsRetrieved, Some(l)))
    ensures l.pagination.page == IntParamOr(q.page, DefaultPage) && l.pagination.limit == IntParamOr(q.limit, DefaultLimit)
    ensures var page, limit := l.pagination.page, l.pagination.limit;
            && limit != 0 && (page - 1) * limit >= 0
            && l.blogs == Window(SortBy(Selected(blogs, q, matches), SortKey(OrElse(q.sortBy, "createdAt")), q.order == Some("asc")),
                                 (page - 1) * limit, limit)
    ensures Truthy(q.search) ==> l.pagination.total == |Seqs.Filter(blogs, matches)|
    ensures !Truthy(q.search) ==> l.pagination.total == |blogs|
    ensures forall k :: 0 <= k < |l.blogs| ==> l.blogs[k] in blogs && (Truthy(q.search) ==> matches(l.blogs[k]))
    ensures SortedBy(l.blogs, SortKey(OrElse(q.sortBy, "createdAt")), q.order == Some("asc"))
    ensures |l.blogs| <= Abs(l.pagination.limit)
  {
    var page := IntParamOr(q.page, DefaultPage);
    var limit := IntParamOr(q.limit, DefaultLimit);
    var selected := Selected(blogs, q, matches);
    PaginateSpec(selected, SortKey(OrElse(q.sortBy, "createdAt")), q.order == Some("asc"), page, limit, l);
    forall k | 0 <= k < |l.blogs| ensures l.blogs[k] in blogs && (Truthy(q.search) ==> matches(l.blogs[k])) {
      if Truthy(q.search) {
        Seqs.FilterMember(blogs, matches, l.blogs[k]);
      }
    }
  }

  /** A listing fails (is passed to the error handler) exactly when the parsed
      page and limit give a negative skip, e.g. `page=-1` or `limit=-5&page=3`. */
  lemma GetBlogsForwardsIffNegativeSkip(blogs: seq<Blog>, q: ListQuery, matches: Blog -> bool)
    ensures GetBlogs(blogs, q, matches).Forward? <==>
              (IntParamOr(q.page, DefaultPage) - 1) * IntParamOr(q.limit, DefaultLimit) < 0
  {
  }

  /** For a parsed page and limit of at least 1 the listing answers, echoes
      both, and holds blogs exactly when the page is within the page count. */
  lemma GetBlogsAnswersPage(blogs: seq<Blog>, q: ListQuery, matches: Blog -> bool)
    requires IntParamOr(q.page, DefaultPage) >= 1 && IntParamOr(q.limit, DefaultLimit) >= 1
    ensures var reply := GetBlogs(blogs, q, matches);
            && reply.Respond? && reply.envelope.data.Some?
            && var l := reply.envelope.data.value;
            && l.pagination.page == IntParamOr(q.page, DefaultPage)
            && l.pagination.limit == IntParamOr(q.limit, DefaultLimit)
            && (|l.blogs| > 0 <==> l.pagination.page <= l.pagination.pages)
  {
    var page := IntParamOr(q.page, DefaultPage);
    var limit := IntParamOr(q.limit, DefaultLimit);
    var selected := Selected(blogs, q, matches);
    var key := SortKey(OrElse(q.sortBy, "createdAt"));
    var ascending := q.order == Some("asc");
    PageStartsBeforeTotal(|selected|, page, limit);
    var p := Paginate(selected, key, ascending, page, limit);
    var l := p.value;
    PaginateSpec(selected, key, ascending, page, limit, l);
    assert l.pagination.page == page && l.pagination.limit == limit;
    assert GetBlogs(blogs, q, matches) == Respond(Success(200, BlogsRetrieved, Some(l)));
  }

  /** With no query at all: page 1 of 10, all blogs counted, and the ten
      newest blogs (all of them when there are fewer), newest first: no blog
      left out is newer than a listed one. */
  lemma GetBlogsDefaults(blogs: seq<Blog>, matches: Blog -> bool)
    ensures var r := GetBlogs(blogs, ListQuery(None, None, None, None, None), matches);
            && r.Respond? && r.envelope.data.Some?
            && r.envelope.data.value.pagination == Pagination(1, 10, |blogs|, CeilDiv(|blogs|, 10))
            && |r.envelope.data.value.blogs| == (if |blogs| < 10 then |blogs| else 10)
            && SortedBy(r.envelope.data.value.blogs, (b: Blog) => b.createdAt, false)
            && LeadsAll(r.envelope.data.value.blogs, blogs, (b: Blog) => b.createdAt, false)
  {
    var r := GetBlogs(blogs, ListQuery(None, None, None, None, None), matches);
    var l := r.envelope.data.value;
    PaginateSpec(blogs, SortKey("createdAt"), false, 1, 10, l);
    NewestFirstPage(blogs, l.blogs);
  }

  /** The first page of ten, newest first, leads all of `blogs` by creation time. */
  lemma NewestFirstPage(blogs: seq<Blog>, page: seq<Blog>)
    requires page == Window(SortBy(blogs, SortKey("createdAt"), false), 0, 10)
    ensures LeadsAll(page, blogs, (b: Blog) => b.createdAt, false)
  {
    var sorted := SortBy(blogs, SortKey("createdAt"), false);
    var n := if |sorted| < 10 then |sorted| else 10;
    assert page == sorted[..n];
    SortedPrefixLeads(blogs, sorted, n, SortKey("createdAt"), false);
  }

  /** `GET /api/blogs/user/:userId`: the author's blogs, newest first, paginated. */
  function GetBlogsByUser(blogs: seq<Blog>, userId: ObjectId, q: ListQuery): Outcome<Listing>
  {
    var page := IntParamOr(q.page, DefaultPage);
    var limit := IntParamOr(q.limit, DefaultLimit);
    var selected := Seqs.Filter(blogs, (b: Blog) => b.author == userId);
    match Paginate(selected, SortKey("createdAt"), false, page, limit)
    case Err(f) => Forward(f)
    case Ok(l) => Respond(Success(200, UserBlogsRetrieved, Some(l)))
  }

  /** The page is the window from `(page - 1) * limit` of the user's blogs
      newest first: every listed blog is the user's, newest first; the total
      counts all of the user's blogs and nobody else's. */
  lemma GetBlogsByUserSpec(blogs: seq<Blog>, userId: ObjectId, q: ListQuery, l: Listing)
    requires GetBlogsByUser(blogs, userId, q) == Respond(Success(200, UserBlogsRetrieved, Some(l)))
    ensures l.pagination.page == IntParamOr(q.page, DefaultPage) && l.pagination.limit == IntParamOr(q.limit, DefaultLimit)
    ensures var page, limit := l.pagination.page, l.pagination.limit;
            && limit != 0 && (page - 1) * limit >= 0
            && l.blogs == Window(SortBy(Seqs.Filter(blogs, (b: Blog) => b.author == userId), SortKey("createdAt"), false),
                                 (page - 1) * limit, limit)
    ensures l.pagination.total == |Seqs.Filter(blogs, (b: Blog) => b.author == userId)|
    ensures forall k :: 0 <= k < |l.blogs| ==> l.blogs[k] in blogs && l.blogs[k].author == userId
    ensures forall i, j :: 0 <= i < j < |l.blogs| ==> l.blogs[i].createdAt >= l.blogs[j].createdAt
    ensures |l.blogs| <= Abs(l.pagination.limit)
  {
    var selected := Seqs.Filter(blogs, (b: Blog) => b.author == userId);
    PaginateSpec(selected, SortKey("createdAt"), false, IntParamOr(q.page, DefaultPage), IntParamOr(q.limit, DefaultLimit), l);
    forall k | 0 <= k < |l.blogs| ensures l.blogs[k] in blogs && l.blogs[k].author == userId {
      Seqs.FilterMember(blogs, (b: Blog) => b.author == userId, l.blogs[k]);
    }
  }

  /** A blog together with its populated `comments` virtual. */
  datatype BlogView = BlogView(blog: Blog, comments: seq<Comment>)

  /** `GET /api/blogs/:id`. */
  function GetBlogById(blogs: seq<Blog>, comments: seq<Comment>, id: ObjectId): Envelope<BlogView>
  {
    match FindBlog(blogs, id)
    case None => Error(404, NotFound)
    case Some(i) => Success(200, BlogRetrieved, Some(BlogView(blogs[i], CommentsOf(comments, id))))
  }

  /** 404 exactly when no blog has the id; otherwise that blog with exactly
      the comments that reference it, newest first. */
  lemma GetBlogByIdSpec(blogs: seq<Blog>, comments: seq<Comment>, id: ObjectId)
    ensures GetBlogById(blogs, comments, id).success <==> exists k :: 0 <= k < |blogs| && blogs[k].id == id
    ensures !GetBlogById(blogs, comments, id).success ==> GetBlogById(blogs, comments, id) == Error(404, NotFound)
    ensures GetBlogById(blogs, comments, id).success ==>
              var v := GetBlogById(blogs, comments, id).data.value;
              && v.blog in blogs && v.blog.id == id
              && (forall c :: c in v.comments <==> c in comments && c.blog == id)
              && (forall i, j :: 0 <= i < j < |v.comments| ==> v.comments[i].createdAt >= v.comments[j].createdAt)
  {
    CommentsOfSpec(comments, id);
  }

  /** `url.split("/").slice(-2).join("/").split(".")[0]`: the image host's
      public id, taken from the last two path segments without the extension. */
  function PublicId(url: string): (id: string)
    ensures '.' !in id
  {
    var parts := Split(url, '/');
    var lastTwo := if |parts| >= 2 then parts[|parts| - 2..] else parts;
    Split(Join(lastTwo, '/'), '.')[0]
  }

  /** For a hosted image `<prefix>/<folder>/<name>.<ext>` the public id is
      `<folder>/<name>`. */
  lemma PublicIdOfHostedUrl(prefix: string, folder: string, name: string, ext: string)
    requires '/' !in folder && '/' !in name && '/' !in ext
    requires '.' !in folder && '.' !in name
    ensures PublicId(prefix + "/" + folder + "/" + name + "." + ext) == folder + "/" + name
  {
    var file := name + "." + ext;
    assert '/' !in file;
    var url := prefix + "/" + folder + "/" + name + "." + ext;
    assert url == prefix + ['/'] + (folder + ['/'] + file);
    LastTwoSegments(prefix, folder, file);
    var parts := Split(url, '/');
    var lastTwo := parts[|parts| - 2..];
    assert lastTwo == [folder, file];
    assert lastTwo[1..] == [file];
    assert Join(lastTwo[1..], '/') == file;
    var joined := Join(lastTwo, '/');
    assert joined == folder + ['/'] + file;
    var base := folder + ['/'] + name;
    assert joined == base + ['.'] + ext;
    FirstDotPiece(base, ext);
    assert PublicId(url) == Split(joined, '.')[0];
  }

  /** The last two `/`-pieces of `prefix/folder/file`, when neither of the
      last two holds a `/`. */
  lemma LastTwoSegments(prefix: string, folder: string, file: string)
    requires '/' !in folder && '/' !in file
    ensures var parts := Split(prefix + ['/'] + (folder + ['/'] + file), '/');
            |parts| >= 2 && parts[|parts| - 2..] == [folder, file]
  {
    SplitAround(prefix, '/', folder + ['/'] + file);
    SplitAround(folder, '/', file);
    SplitNoSep(folder, '/');
    SplitNoSep(file, '/');
  }

  /** The text before the first `.` of `base.ext`, when `base` has none. */
  lemma FirstDotPiece(base: string, ext: string)
    requires '.' !in base
    ensures Split(base + ['.'] + ext, '.')[0] == base
  {
    SplitAround(base, '.', ext);
    SplitNoSep(base, '.');
  }

  /** What a create or update did: the reply, the outside calls in order, and
      the document written, if any. */
  datatype Step = Step(reply: Outcome<Blog>, effects: seq<Effect>, saved: Option<Blog>)

  /** `createBlog` for the authenticated `caller`: `file` is the temporary path
      of the uploaded cover and `upload` the image host's URL for it (`None`
      when the upload throws). */
  function Create(caller: ObjectId, title: Option<string>, content: Option<string>,
                  file: Option<string>, upload: Option<string>, newId: ObjectId, now: int): Step
  {
    if !Truthy(title) || !Truthy(content) then Step(Respond(Error(400, ProvideTitleAndContent)), [], None)
    else if file.None? then Step(Respond(Error(400, ProvideCover)), [], None)
    else
      var calls := [UploadImage(file.value, CoverFolder), RemoveTempFile(file.value)];
      match upload
      case None => Step(Forward(UploadFailed), calls, None)
      case Some(url) =>
        match BlogModel.CreateBlog(BlogFields(title, content, Some(url), Some(caller)), newId, now)
        case Err(paths) => Step(Forward(ValidationFailed(paths)), calls, None)
        case Ok(b) => Step(Respond(Success(201, BlogCreated, Some(b))), calls, Some(b))
  }

  /** A blog is stored exactly when the reply is 201; it belongs to the caller,
      carries the trimmed title, the content and the uploaded URL, and starts
      valid with no likes. Missing title, content or file stop the request
      before any outside call; once the upload is attempted the temporary file
      is removed exactly once, whatever happens next. */
  lemma CreateSpec(caller: ObjectId, title: Option<string>, content: Option<string>,
                   file: Option<string>, upload: Option<string>, newId: ObjectId, now: int)
    ensures var s := Create(caller, title, content, file, upload, newId, now);
            && (s.saved.Some? <==> s.reply.Respond? && s.reply.envelope.statusCode == 201)
            && (s.saved.Some? ==>
                  && s.reply.envelope.data == s.saved
                  && s.saved.value.author == caller && s.saved.value.id == newId
                  && s.saved.value.title == Trim(title.value) && s.saved.value.content == content.value
                  && s.saved.value.coverImage == upload.value
                  && StoredBlogValid(s.saved.value) && LikesConsistent(s.saved.value) && s.saved.value.likes == [])
            && ((!Truthy(title) || !Truthy(content) || file.None?) ==>
                  s.effects == [] && s.reply.Respond? && s.reply.envelope.statusCode == 400)
            && ((Truthy(title) && Truthy(content) && file.Some?) ==>
                  s.effects == [UploadImage(file.value, CoverFolder), RemoveTempFile(file.value)])
  {
    var s := Create(caller, title, content, file, upload, newId, now);
    if Truthy(title) && Truthy(content) && file.Some? && upload.Some? {
      var f := BlogFields(title, content, upload, Some(caller));
      if BlogModel.CreateBlog(f, newId, now).Ok? {
        CreatedBlogValid(f, newId, now, BlogModel.CreateBlog(f, newId, now).value);
      }
    }
  }

  /** The document as `blog.save()` writes it after `title || blog.title`,
      `content || blog.content` and the new cover URL are assigned: the title
      setter trims, all validators run, and `updatedAt` moves only when some
      path actually changed. */
  function SaveEdit(b: Blog, title: Option<string>, content: Option<string>, cover: string, now: int): Result<Blog, set<Path>>
  {
    var f := BlogFields(Some(OrElse(title, b.title)), Some(OrElse(content, b.content)), Some(cover), Some(b.author));
    if BlogSchemaErrors(f) != {} then Err(BlogSchemaErrors(f))
    else
      var edited := b.(title := Trim(f.title.value), content := f.content.value, coverImage := cover);
      Ok(if edited == b then b else edited.(updatedAt := now))
  }

  /** The edited blog keeps its identity, author, likes, counters and
      creation time, takes the trimmed new title or keeps the old one, takes
      the new content or keeps the old one, and is valid again. An edit with
      no title, no content and the same cover saves the document unchanged. */
  lemma SaveEditSpec(b: Blog, title: Option<string>, content: Option<string>, cover: string, now: int)
    requires StoredBlogValid(b)
    ensures SaveEdit(b, title, content, cover, now).Ok? ==>
              var nb := SaveEdit(b, title, content, cover, now).value;
              && StoredBlogValid(nb)
              && nb.id == b.id && nb.author == b.author && nb.likes == b.likes
              && nb.likesCount == b.likesCount && nb.commentsCount == b.commentsCount
              && nb.createdAt == b.createdAt
              && nb.title == (if Truthy(title) then Trim(title.value) else b.title)
              && nb.content == (if Truthy(content) then content.value else b.content)
              && nb.coverImage == cover
    ensures !Truthy(title) && !Truthy(content) && cover == b.coverImage ==>
              SaveEdit(b, title, content, cover, now) == Ok(b)
    ensures Truthy(title) && |Trim(title.value)| < TitleMinLength ==>
              SaveEdit(b, title, content, cover, now).Err? && TitlePath in SaveEdit(b, title, content, cover, now).error
  {
    TrimIdempotent(OrElse(title, b.title));
  }

  /** Saving the edit as one step of the handler. */
  function Save(b: Blog, title: Option<string>, content: Option<string>, cover: string, now: int, calls: seq<Effect>): Step
  {
    match SaveEdit(b, title, content, cover, now)
    case Err(paths) => Step(Forward(ValidationFailed(paths)), calls, None)
    case Ok(nb) => Step(Respond(Success(200, BlogUpdated, Some(nb))), calls, Some(nb))
  }

  /** `updateBlog` once the blog is found and the caller is its author: with a
      new file the old image is destroyed and the new one uploaded before the
      document is validated and saved. */
  function Edit(b: Blog, title: Option<string>, content: Option<string>,
                file: Option<string>, upload: Option<string>, now: int): Step
  {
    if file.None? then Save(b, title, content, b.coverImage, now, [])
    else
      var calls := [DestroyImage(PublicId(b.coverImage)), UploadImage(file.value, CoverFolder), RemoveTempFile(file.value)];
      match upload
      case None => Step(Forward(UploadFailed), calls, None)
      case Some(url) => Save(b, title, content, url, now, calls)
  }

  /** `PUT /api/blogs/:id`. */
  function Update(blogs: seq<Blog>, caller: ObjectId, blogId: ObjectId, title: Option<string>, content: Option<string>,
                  file: Option<string>, upload: Option<string>, now: int): Step
  {
    match FindBlog(blogs, blogId)
    case None => Step(Respond(Error(404, NotFound)), [], None)
    case Some(i) =>
      if blogs[i].author != caller then Step(Respond(Error(403, NotAuthorizedUpdate)), [], None)
      else Edit(blogs[i], title, content, file, upload, now)
  }

  /** Only the author can change a blog; a stored edit is 200 and valid, keeps
      the blog's id, and the cover changes only when a file was uploaded. */
  lemma UpdateSpec(blogs: seq<Blog>, caller: ObjectId, blogId: ObjectId, title: Option<string>, content: Option<string>,
                   file: Option<string>, upload: Option<string>, now: int)
    requires forall k :: 0 <= k < |blogs| ==> StoredBlogValid(blogs[k])
    ensures var s := Update(blogs, caller, blogId, title, content, file, upload, now);
            && (FindBlog(blogs, blogId).None? ==> s == Step(Respond(Error(404, NotFound)), [], None))
            && (FindBlog(blogs, blogId).Some? && blogs[FindBlog(blogs, blogId).value].author != caller ==>
                  s == Step(Respond(Error(403, NotAuthorizedUpdate)), [], None))
            && (s.saved.Some? ==>
                  var old_ := blogs[FindBlog(blogs, blogId).value];
                  && old_.author == caller
                  && s.reply == Respond(Success(200, BlogUpdated, s.saved))
                  && StoredBlogValid(s.saved.value) && s.saved.value.id == blogId
                  && (file.None? ==> s.saved.value.coverImage == old_.coverImage)
                  && (file.Some? ==> s.saved.value.coverImage == upload.value))
  {
    match FindBlog(blogs, blogId)
    case None =>
    case Some(i) =>
      var b := blogs[i];
      var cover := if file.Some? && upload.Some? then upload.value else b.coverImage;
      SaveEditSpec(b, title, content, cover, now);
  }

  /** The cover a blog has in the store after an edit step: the saved
      document's, or the old one when nothing was saved. */
  function CoverAfter(b: Blog, s: Step): string
  {
    if s.saved.Some? then s.saved.value.coverImage else b.coverImage
  }

  /** No image destroyed by the step is the one the stored blog still shows. */
  predicate CoverSurvives(b: Blog, s: Step)
  {
    forall k :: 0 <= k < |s.effects| && s.effects[k].DestroyImage? ==>
      s.effects[k].publicId != PublicId(CoverAfter(b, s))
  }

  /** As written, a new file whose edit then fails validation (here a title
      shorter than 5 characters) has already destroyed the old cover: nothing
      is saved, so the stored blog keeps pointing at the destroyed image. */
  lemma EditLosesCoverOnRejectedTitle(b: Blog, file: string, url: string, now: int)
    requires StoredBlogValid(b)
    ensures var s := Edit(b, Some("abc"), None, Some(file), Some(url), now);
            && s.saved.None? && s.reply.Forward? && s.reply.fault.ValidationFailed?
            && DestroyImage(PublicId(b.coverImage)) in s.effects
            && !CoverSurvives(b, s)
  {
    SaveEditSpec(b, Some("abc"), None, url, now);
    var s := Edit(b, Some("abc"), None, Some(file), Some(url), now);
    assert s.effects[0] == DestroyImage(PublicId(b.coverImage));
  }

  /** The edit with the old image destroyed only once the new document is
      saved; a rejected edit destroys the new upload instead. */
  function EditKeepingCover(b: Blog, title: Option<string>, content: Option<string>,
                            file: Option<string>, upload: Option<string>, now: int): Step
  {
    if file.None? then Save(b, title, content, b.coverImage, now, [])
    else
      var calls := [UploadImage(file.value, CoverFolder), RemoveTempFile(file.value)];
      match upload
      case None => Step(Forward(UploadFailed), calls, None)
      case Some(url) =>
        match SaveEdit(b, title, content, url, now)
        case Err(paths) => Step(Forward(ValidationFailed(paths)), calls + [DestroyImage(PublicId(url))], None)
        case Ok(nb) => Step(Respond(Success(200, BlogUpdated, Some(nb))), calls + [DestroyImage(PublicId(b.coverImage))], Some(nb))
  }

  /** The corrected edit answers and saves exactly as the original does, and
      never destroys the image the stored blog points at, provided the host
      gives the new upload a public id of its own; a successful edit makes
      the same outside calls, only in a safer order. */
  lemma EditKeepingCoverSpec(b: Blog, title: Option<string>, content: Option<string>,
                             file: Option<string>, upload: Option<string>, now: int)
    requires upload.Some? ==> PublicId(upload.value) != PublicId(b.coverImage)
    ensures var fixed := EditKeepingCover(b, title, content, file, upload, now);
            var orig := Edit(b, title, content, file, upload, now);
            && fixed.reply == orig.reply && fixed.saved == orig.saved
            && (orig.saved.Some? ==> multiset(fixed.effects) == multiset(orig.effects))
            && CoverSurvives(b, fixed)
  {
    if file.Some? && upload.Some? {
      var url := upload.value;
      SaveEditCover(b, title, content, url, now);
      var r := SaveEdit(b, title, content, url, now);
      var calls := [UploadImage(file.value, CoverFolder), RemoveTempFile(file.value)];
      if r.Ok? {
        KeepingCoverOnSuccess(b, title, content, file.value, url, now, r.value, calls);
      } else {
        KeepingCoverOnRejection(b, title, content, file.value, url, now, calls);
      }
    }
  }

  /** Whatever it saves carries the cover it was given. */
  lemma SaveEditCover(b: Blog, title: Option<string>, content: Option<string>, cover: string, now: int)
    ensures SaveEdit(b, title, content, cover, now).Ok? ==> SaveEdit(b, title, content, cover, now).value.coverImage == cover
  {
  }

  lemma KeepingCoverOnSuccess(b: Blog, title: Option<string>, content: Option<string>, file: string, url: string,
                              now: int, nb: Blog, calls: seq<Effect>)
    requires SaveEdit(b, title, content, url, now) == Ok(nb) && nb.coverImage == url
    requires PublicId(url) != PublicId(b.coverImage)
    requires calls == [UploadImage(file, CoverFolder), RemoveTempFile(file)]
    ensures var fixed := EditKeepingCover(b, title, content, Some(file), Some(url), now);
            var orig := Edit(b, title, content, Some(file), Some(url), now);
            && fixed == Step(Respond(Success(200, BlogUpdated, Some(nb))), calls + [DestroyImage(PublicId(b.coverImage))], Some(nb))
            && orig == Step(Respond(Success(200, BlogUpdated, Some(nb))), [DestroyImage(PublicId(b.coverImage))] + calls, Some(nb))
            && multiset(fixed.effects) == multiset(orig.effects)
            && CoverSurvives(b, fixed)
  {
    var d := DestroyImage(PublicId(b.coverImage));
    assert multiset(calls + [d]) == multiset(calls) + multiset{d} == multiset([d] + calls);
    var effects := calls + [d];
    forall k | 0 <= k < |effects| && effects[k].DestroyImage?
      ensures effects[k].publicId != PublicId(url)
    {
      assert k == 2;
    }
  }

  lemma KeepingCoverOnRejection(b: Blog, title: Option<string>, content: Option<string>, file: string, url: string,
                                now: int, calls: seq<Effect>)
    requires SaveEdit(b, title, content, url, now).Err?
    requires PublicId(url) != PublicId(b.coverImage)
    requires calls == [UploadImage(file, CoverFolder), RemoveTempFile(file)]
    ensures var fixed := EditKeepingCover(b, title, content, Some(file), Some(url), now);
            var orig := Edit(b, title, content, Some(file), Some(url), now);
            && fixed.reply == orig.reply && fixed.saved == orig.saved == None
            && fixed.effects == calls + [DestroyImage(PublicId(url))]
            && CoverSurvives(b, fixed)
  {
    var fixed := EditKeepingCover(b, title, content, Some(file), Some(url), now);
    assert fixed.effects[2] == DestroyImage(PublicId(url));
  }

  /** The comments that survive `Comment.deleteMany({ blog: blogId })`. */
  function CommentsNotOf(comments: seq<Comment>, blogId: ObjectId): seq<Comment>
  {
    Seqs.Filter(comments, (c: Comment) => c.blog != blogId)
  }

  function RemoveAt<T>(s: seq<T>, i: nat): (r: seq<T>)
    requires i < |s|
    ensures |r| == |s| - 1
    ensures forall k :: 0 <= k < i ==> r[k] == s[k]
    ensures forall k :: i <= k < |r| ==> r[k] == s[k + 1]
  {
    s[..i] + s[i + 1..]
  }

  /** After a delete the blog is gone, the others stay, no remaining comment
      references it, every comment on another blog stays, and the blog's
      comment thread reads back empty. */
  lemma DeleteSpec(blogs: seq<Blog>, comments: seq<Comment>, i: nat)
    requires UniqueIds(blogs) && i < |blogs|
    ensures FindBlog(RemoveAt(blogs, i), blogs[i].id).None?
    ensures UniqueIds(RemoveAt(blogs, i))
    ensures forall k :: 0 <= k < |blogs| && k != i ==> blogs[k] in RemoveAt(blogs, i)
    ensures forall c :: c in CommentsNotOf(comments, blogs[i].id) <==> c in comments && c.blog != blogs[i].id
    ensures CommentsOf(CommentsNotOf(comments, blogs[i].id), blogs[i].id) == []
  {
    var id := blogs[i].id;
    var r := RemoveAt(blogs, i);
    forall k | 0 <= k < |blogs| && k != i ensures blogs[k] in r {
      if k < i { assert r[k] == blogs[k]; } else { assert r[k - 1] == blogs[k]; }
    }
    forall c ensures c in CommentsNotOf(comments, id) <==> c in comments && c.blog != id {
      Seqs.FilterMember(comments, (c: Comment) => c.blog != id, c);
    }
    CommentsOfSpec(CommentsNotOf(comments, id), id);
  }

  /** Removing a blog keeps the collection valid. */
  lemma RemoveKeepsValid(blogs: seq<Blog>, i: nat)
    requires ValidBlogs(blogs) && i < |blogs|
    ensures ValidBlogs(RemoveAt(blogs, i))
  {
    var r := RemoveAt(blogs, i);
    forall p, q | 0 <= p < q < |r| ensures r[p].id != r[q].id {
      var p' := if p < i then p else p + 1;
      var q' := if q < i then q else q + 1;
      assert r[p] == blogs[p'] && r[q] == blogs[q'];
    }
    forall k | 0 <= k < |r| ensures StoredBlogValid(r[k]) {
      if k < i { assert r[k] == blogs[k]; } else { assert r[k] == blogs[k + 1]; }
    }
  }

  /** `POST /api/blogs`. */
  method CreateBlog(db: Db, caller: ObjectId, title: Option<string>, content: Option<string>,
                    file: Option<string>, upload: Option<string>, newId: ObjectId, now: int)
    returns (r: Outcome<Blog>)
    requires db.Valid() && FindBlog(db.blogs, newId).None?
    modifies db
    ensures db.Valid() && db.comments == old(db.comments)
    ensures var s := Create(caller, title, content, file, upload, newId, now);
            && r == s.reply
            && db.effects == old(db.effects) + s.effects
            && db.blogs == old(db.blogs) + (if s.saved.Some? then [s.saved.value] else [])
  {
    if title.None? || title.value == "" || content.None? || content.value == "" {
      return Respond(Error(400, ProvideTitleAndContent));
    }
    if file.None? {
      return Respond(Error(400, ProvideCover));
    }
    var path := file.value;
    db.effects := db.effects + [UploadImage(path, CoverFolder)];
    if upload.None? {
      // the catch block still finds the temporary file and removes it
      db.effects := db.effects + [RemoveTempFile(path)];
      return Forward(UploadFailed);
    }
    db.effects := db.effects + [RemoveTempFile(path)];
    var fields := BlogFields(title, content, upload, Some(caller));
    var created := BlogModel.CreateBlog(fields, newId, now);
    if created.Err? {
      return Forward(ValidationFailed(created.error));
    }
    CreatedBlogValid(fields, newId, now, created.value);
    AppendKeepsValid(db.blogs, created.value);
    db.blogs := db.blogs + [created.value];
    r := Respond(Success(201, BlogCreated, Some(created.value)));
  }

  /** `PUT /api/blogs/:id` on the store. */
  method UpdateBlog(db: Db, caller: ObjectId, blogId: ObjectId, title: Option<string>, content: Option<string>,
                    file: Option<string>, upload: Option<string>, now: int)
    returns (r: Outcome<Blog>)
    requires db.Valid()
    modifies db
    ensures db.Valid() && db.comments == old(db.comments)
    ensures var s := Update(old(db.blogs), caller, blogId, title, content, file, upload, now);
            && r == s.reply
            && db.effects == old(db.effects) + s.effects
            && db.blogs == if s.saved.Some? then old(db.blogs)[FindBlog(old(db.blogs), blogId).value := s.saved.value]
                           else old(db.blogs)
  {
    var found := FindBlog(db.blogs, blogId);
    if found.None? {
      return Respond(Error(404, NotFound));
    }
    var i := found.value;
    if db.blogs[i].author != caller {
      return Respond(Error(403, NotAuthorizedUpdate));
    }
    r := EditBlog(db, i, title, content, file, upload, now);
  }

  /** The part of `updateBlog` after the author check, on the blog at `i`. */
  method EditBlog(db: Db, i: nat, title: Option<string>, content: Option<string>,
                  file: Option<string>, upload: Option<string>, now: int)
    returns (r: Outcome<Blog>)
    requires db.Valid() && i < |db.blogs|
    modifies db
    ensures db.Valid() && db.comments == old(db.comments)
    ensures var s := Edit(old(db.blogs)[i], title, content, file, upload, now);
            && r == s.reply
            && db.effects == old(db.effects) + s.effects
            && db.blogs == if s.saved.Some? then old(db.blogs)[i := s.saved.value] else old(db.blogs)
  {
    var blog := db.blogs[i];
    var cover := blog.coverImage;
    ghost var calls: seq<Effect> := [];
    if file.Some? {
      calls := [DestroyImage(PublicId(blog.coverImage)), UploadImage(file.value, CoverFolder), RemoveTempFile(file.value)];
      db.effects := db.effects + [DestroyImage(PublicId(blog.coverImage))];
      db.effects := db.effects + [UploadImage(file.value, CoverFolder)];
      if upload.None? {
        // the catch block removes the temporary file
        db.effects := db.effects + [RemoveTempFile(file.value)];
        assert db.effects == old(db.effects) + calls;
        return Forward(UploadFailed);
      }
      cover := upload.value;
      db.effects := db.effects + [RemoveTempFile(file.value)];
    }
    assert db.effects == old(db.effects) + calls;
    assert Edit(blog, title, content, file, upload, now) == Save(blog, title, content, cover, now, calls);
    var saved := SaveEdit(blog, title, content, cover, now);
    if saved.Err? {
      return Forward(ValidationFailed(saved.error));
    }
    SaveEditSpec(blog, title, content, cover, now);
    ReplaceKeepsValid(db.blogs, i, saved.value);
    db.blogs := db.blogs[i := saved.value];
    r := Respond(Success(200, BlogUpdated, Some(saved.value)));
  }

  /** `DELETE /api/blogs/:id`: only the author; the cover image is destroyed,
      then the blog's comments, then the blog. */
  method DeleteBlog(db: Db, caller: ObjectId, blogId: ObjectId) returns (r: Outcome<Blog>)
    requires db.Valid()
    modifies db
    ensures db.Valid()
    ensures var found := FindBlog(old(db.blogs), blogId);
            && (found.None? ==> r == Respond(Error(404, NotFound)) && unchanged(db))
            && (found.Some? && old(db.blogs)[found.value].author != caller ==>
                  r == Respond(Error(403, NotAuthorizedDelete)) && unchanged(db))
            && (found.Some? && old(db.blogs)[found.value].author == caller ==>
                  && r == Respond(Success(200, BlogDeleted, None))
                  && db.effects == old(db.effects) + [DestroyImage(PublicId(old(db.blogs)[found.value].coverImage)),
                                                      DeleteCommentsOf(blogId), DeleteBlogDocument(blogId)]
                  && db.comments == CommentsNotOf(old(db.comments), blogId)
                  && db.blogs == RemoveAt(old(db.blogs), found.value))
  {
    var found := FindBlog(db.blogs, blogId);
    if found.None? {
      return Respond(Error(404, NotFound));
    }
    var i := found.value;
    var blog := db.blogs[i];
    if blog.author != caller {
      return Respond(Error(403, NotAuthorizedDelete));
    }
    db.effects := db.effects + [DestroyImage(PublicId(blog.coverImage))];
    db.effects := db.effects + [DeleteCommentsOf(blogId)];
    db.comments := CommentsNotOf(db.comments, blogId);
    db.effects := db.effects + [DeleteBlogDocument(blogId)];
    RemoveKeepsValid(db.blogs, i);
    db.blogs := RemoveAt(db.blogs, i);
    r := Respond(Success(200, BlogDeleted, None));
  }
}
