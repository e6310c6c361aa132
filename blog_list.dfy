/** The public blog list: the pagination state it keeps, the requests it
    sends, and the Previous/Next controls. */
module BlogList {
  import opened Common
  import opened Numbers
  import opened BlogModel
  import opened BlogController
  import ApiResponse

  /** The query a fetch sends (`page`, `limit`, `search`). */
  datatype PageRequest = PageRequest(page: int, limit: int, search: string)

  /** The listing's answer, or a failure with the server's message, if any. */
  datatype ListReply = Loaded(listing: Listing) | LoadFailed(message: Option<string>)

  const LoadFailedMessage := "Failed to load blogs"

  /** The list query as the browser sends it: numbers are written in decimal. */
  function AsQuery(r: PageRequest): ListQuery
    requires r.page >= 0 && r.limit >= 0
  {
    ListQuery(Some(NatToString(r.page)), Some(NatToString(r.limit)), Some(r.search), None, None)
  }

  /** A page and limit written in decimal are read back as sent. */
  lemma QueryReadsBack(r: PageRequest)
    requires r.page >= 1 && r.limit >= 1
    ensures IntParamOr(AsQuery(r).page, DefaultPage) == r.page
    ensures IntParamOr(AsQuery(r).limit, DefaultLimit) == r.limit
  {
    assert NatToString(r.page) + [] == NatToString(r.page);
    assert NatToString(r.limit) + [] == NatToString(r.limit);
    ParseIntOfNatToString(r.page, []);
    ParseIntOfNatToString(r.limit, []);
  }

  /** For a page and limit of at least 1, the server answers with exactly the
      requested page and limit, and the page holds blogs exactly when it is
      within the reported page count. */
  lemma RequestedPageIsAnswered(blogs: seq<Blog>, r: PageRequest, matches: Blog -> bool)
    requires r.page >= 1 && r.limit >= 1
    ensures var reply := GetBlogs(blogs, AsQuery(r), matches);
            && reply.Respond? && reply.envelope.data.Some?
            && var l := reply.envelope.data.value;
            && l.pagination.page == r.page && l.pagination.limit == r.limit
            && (|l.blogs| > 0 <==> r.page <= l.pagination.pages)
  {
    QueryReadsBack(r);
    GetBlogsAnswersPage(blogs, AsQuery(r), matches);
  }

  class ListPage {
    var page: int
    var limit: int
    var total: nat
    var pages: int
    var searchTerm: string
    var blogs: seq<Blog>
    var error: string
    var requests: seq<PageRequest>

    /** The state on mount: page 1, limit 10, nothing counted yet. */
    constructor ()
      ensures page == 1 && limit == 10 && total == 0 && pages == 0
      ensures searchTerm == "" && blogs == [] && error == "" && requests == []
      ensures !ShowsControls()
    {
      page := 1;
      limit := 10;
      total := 0;
      pages := 0;
      searchTerm := "";
      blogs := [];
      error := "";
      requests := [];
    }

    /** The pagination row is shown only when there is more than one page. */
    predicate ShowsControls()
      reads this
    {
      pages > 1
    }

    predicate PreviousEnabled()
      reads this
    {
      page != 1
    }

    predicate NextEnabled()
      reads this
    {
      page != pages
    }

    /** The current page is one of the reported pages. */
    predicate InRange()
      reads this
    {
      1 <= page <= pages
    }

    /** The search box's `onChange`. */
    method SetSearchTerm(term: string)
      modifies this
      ensures searchTerm == term
      ensures page == old(page) && limit == old(limit) && total == old(total) && pages == old(pages)
      ensures blogs == old(blogs) && error == old(error) && requests == old(requests)
    {
      searchTerm := term;
    }

    /** `fetchBlogs(search)` sending its request: the current page and limit. */
    method Fetch(search: string)
      modifies this
      ensures requests == old(requests) + [PageRequest(old(page), old(limit), search)]
      ensures page == old(page) && limit == old(limit) && total == old(total) && pages == old(pages)
      ensures searchTerm == old(searchTerm) && blogs == old(blogs) && error == old(error)
    {
      requests := requests + [PageRequest(page, limit, search)];
    }

    /** `fetchBlogs` receiving the answer: the list and the whole pagination
        record are replaced by the server's, or the error is shown and the
        state kept. */
    method Receive(reply: ListReply)
      modifies this
      ensures reply.Loaded? ==>
                && blogs == reply.listing.blogs && error == ""
                && page == reply.listing.pagination.page && limit == reply.listing.pagination.limit
                && total == reply.listing.pagination.total && pages == reply.listing.pagination.pages
      ensures reply.LoadFailed? ==>
                && error == OrElse(reply.message, LoadFailedMessage) && blogs == old(blogs)
                && page == old(page) && limit == old(limit) && total == old(total) && pages == old(pages)
      ensures searchTerm == old(searchTerm) && requests == old(requests)
    {
      match reply
      case Loaded(l) =>
        blogs := l.blogs;
        page := l.pagination.page;
        limit := l.pagination.limit;
        total := l.pagination.total;
        pages := l.pagination.pages;
        error := "";
      case LoadFailed(message) =>
        error := OrElse(message, LoadFailedMessage);
    }

    /** `handleSearch`: the page goes back to 1, but the request it sends
        immediately was built from the page shown before the reset. */
    method HandleSearch()
      modifies this
      ensures page == 1
      ensures requests == old(requests) + [PageRequest(old(page), old(limit), old(searchTerm))]
      ensures limit == old(limit) && total == old(total) && pages == old(pages)
      ensures searchTerm == old(searchTerm) && blogs == old(blogs) && error == old(error)
    {
      var shown := page;
      page := 1;
      requests := requests + [PageRequest(shown, limit, searchTerm)];
    }

    /** `handlePageChange`: only the page moves. */
    method HandlePageChange(newPage: int)
      modifies this
      ensures page == newPage
      ensures limit == old(limit) && total == old(total) && pages == old(pages)
      ensures searchTerm == old(searchTerm) && blogs == old(blogs) && error == old(error) && requests == old(requests)
    {
      page := newPage;
    }

    /** "Previous", clickable only when shown and not on page 1: it never
        leaves the reported pages. */
    method ClickPrevious()
      requires ShowsControls() && PreviousEnabled()
      modifies this
      ensures page == old(page) - 1 && pages == old(pages)
      ensures old(InRange()) ==> InRange()
      ensures limit == old(limit) && total == old(total) && requests == old(requests)
    {
      HandlePageChange(page - 1);
    }

    /** "Next", clickable only when shown and not on the last page: it never
        leaves the reported pages. */
    method ClickNext()
      requires ShowsControls() && NextEnabled()
      modifies this
      ensures page == old(page) + 1 && pages == old(pages)
      ensures old(InRange()) ==> InRange()
      ensures limit == old(limit) && total == old(total) && requests == old(requests)
    {
      HandlePageChange(page + 1);
    }
  }
}
