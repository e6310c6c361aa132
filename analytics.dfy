/** `getUserAnalytics`: totals over the blogs the user-blogs listing returns. */
module Analytics {
  import opened Common
  import opened BlogModel
  import opened BlogController
  import opened Sorting
  import Seqs

  datatype UserAnalytics = UserAnalytics(
    totalBlogs: nat,
    totalLikes: int,
    totalComments: int,
    totalViews: int,
    blogs: seq<Blog>)

  /** `blogs.reduce((sum, blog) => sum + blog.likesCount, 0)`. */
  function SumLikes(blogs: seq<Blog>): int
  {
    if blogs == [] then 0 else SumLikes(blogs[..|blogs| - 1]) + blogs[|blogs| - 1].likesCount
  }

  /** `blogs.reduce((sum, blog) => sum + blog.commentsCount, 0)`. */
  function SumComments(blogs: seq<Blog>): int
  {
    if blogs == [] then 0 else SumComments(blogs[..|blogs| - 1]) + blogs[|blogs| - 1].commentsCount
  }

  /** The totals for the blogs of one listing response: the number of blogs,
      the sums of their like and comment counters; views are approximated as
      three per like and two per comment. */
  function Compute(blogs: seq<Blog>): (a: UserAnalytics)
    ensures a.totalBlogs == |blogs| && a.blogs == blogs
    ensures a.totalLikes == SumLikes(blogs) && a.totalComments == SumComments(blogs)
    ensures a.totalViews == 3 * a.totalLikes + 2 * a.totalComments
  {
    var likes := SumLikes(blogs);
    var comments := SumComments(blogs);
    UserAnalytics(|blogs|, likes, comments, likes * 3 + comments * 2, blogs)
  }

  /** The sums split over a concatenation, so they do not depend on how the
      list is cut. */
  lemma {:induction false} SumsAppend(a: seq<Blog>, b: seq<Blog>)
    ensures SumLikes(a + b) == SumLikes(a) + SumLikes(b)
    ensures SumComments(a + b) == SumComments(a) + SumComments(b)
  {
    if b == [] {
      assert a + b == a;
    } else {
      var b' := b[..|b| - 1];
      assert (a + b)[..|a + b| - 1] == a + b';
      SumsAppend(a, b');
    }
  }

  /** An empty list gives all-zero totals; when every blog's counter mirrors
      its like list, the like total is the number of (blog, liker) pairs and
      is never negative. */
  lemma TotalsSpec(blogs: seq<Blog>)
    ensures blogs == [] ==> Compute(blogs) == UserAnalytics(0, 0, 0, 0, [])
    ensures (forall k :: 0 <= k < |blogs| ==> LikesConsistent(blogs[k])) ==>
              Compute(blogs).totalLikes == LikersTotal(blogs) >= 0
  {
    if forall k :: 0 <= k < |blogs| ==> LikesConsistent(blogs[k]) {
      LikesTotalIsLikers(blogs);
    }
  }

  /** The total length of the like lists. */
  function LikersTotal(blogs: seq<Blog>): nat
  {
    if blogs == [] then 0 else LikersTotal(blogs[..|blogs| - 1]) + |blogs[|blogs| - 1].likes|
  }

  lemma {:induction false} LikesTotalIsLikers(blogs: seq<Blog>)
    requires forall k :: 0 <= k < |blogs| ==> LikesConsistent(blogs[k])
    ensures SumLikes(blogs) == LikersTotal(blogs)
  {
    if blogs != [] {
      LikesTotalIsLikers(blogs[..|blogs| - 1]);
    }
  }

  /** The request sends no page or limit, so the totals cover the user's ten
      newest blogs at most (no blog of the user's left out is newer than a
      totalled one), not all of them. */
  lemma AnalyticsCoverFirstPageOnly(all: seq<Blog>, userId: ObjectId)
    ensures var r := GetBlogsByUser(all, userId, ListQuery(None, None, None, None, None));
            var mine := Seqs.Filter(all, (b: Blog) => b.author == userId);
            && r.Respond? && r.envelope.data.Some?
            && var totalled := Compute(r.envelope.data.value.blogs).blogs;
            && |totalled| == (if |mine| < 10 then |mine| else 10)
            && LeadsAll(totalled, mine, (b: Blog) => b.createdAt, false)
            && r.envelope.data.value.pagination.total == |mine|
  {
    var r := GetBlogsByUser(all, userId, ListQuery(None, None, None, None, None));
    var selected := Seqs.Filter(all, (b: Blog) => b.author == userId);
    var l := r.envelope.data.value;
    PaginateSpec(selected, SortKey("createdAt"), false, 1, 10, l);
    NewestFirstPage(selected, l.blogs);
  }
}
