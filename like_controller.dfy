/** `toggleLike` and `getLikeStatus`: a blog's `likes` list and its
    `likesCount` counter, updated on the loaded document and saved back. */
module LikeController {
  import opened Common
  import opened ApiResponse
  import opened BlogModel
  import opened Store
  import Seqs

  /** The `data` of a like response. */
  datatype LikeState = LikeState(isLiked: bool, likesCount: int)

  const NotFound := "Blog not found"
  const Liked := "Blog liked successfully"
  const Unliked := "Blog unliked successfully"
  const StatusRetrieved := "Like status retrieved"

  /** The document as `toggleLike` saves it: a caller already in `likes` is
      filtered out and the counter decremented with a floor at 0; otherwise the
      caller is pushed and the counter incremented. Saving a modified document
      stamps `updatedAt` (`timestamps: true`). */
  function Toggle(b: Blog, user: ObjectId, now: int): Blog
  {
    if user in b.likes then
      b.(likes := Seqs.RemoveAll(b.likes, user), likesCount := Max(0, b.likesCount - 1), updatedAt := now)
    else
      b.(likes := b.likes + [user], likesCount := b.likesCount + 1, updatedAt := now)
  }

  /** Every blog in the collection keeps `likesCount == |likes|` with no repeated liker. */
  predicate AllLikesConsistent(blogs: seq<Blog>)
  {
    forall k :: 0 <= k < |blogs| ==> LikesConsistent(blogs[k])
  }

  /** `POST /api/blogs/:id/like`. */
  method ToggleLike(db: Db, blogId: ObjectId, user: ObjectId, now: int) returns (reply: Envelope<LikeState>)
    requires db.Valid()
    modifies db
    ensures db.Valid()
    ensures db.comments == old(db.comments) && db.effects == old(db.effects)
    ensures FindBlog(old(db.blogs), blogId).None? ==>
              reply == Error(404, NotFound) && db.blogs == old(db.blogs)
    ensures FindBlog(old(db.blogs), blogId).Some? ==>
              var i := FindBlog(old(db.blogs), blogId).value;
              var saved := Toggle(old(db.blogs)[i], user, now);
              && db.blogs == old(db.blogs)[i := saved]
              && var wasLiked := user in old(db.blogs)[i].likes;
              reply == Success(200, if wasLiked then Unliked else Liked,
                               Some(LikeState(!wasLiked, saved.likesCount)))
    ensures AllLikesConsistent(old(db.blogs)) ==> AllLikesConsistent(db.blogs)
  {
    var found := FindBlog(db.blogs, blogId);
    if found.None? {
      return Error(404, NotFound);
    }
    var i := found.value;
    var blog := db.blogs[i];
    var isLiked := user in blog.likes;
    ToggleKeepsLikesConsistent(blog, user, now);
    if isLiked {
      blog := blog.(likes := Seqs.RemoveAll(blog.likes, user));
      blog := blog.(likesCount := Max(0, blog.likesCount - 1));
      blog := blog.(updatedAt := now);
      db.blogs := db.blogs[i := blog];
      reply := Success(200, Unliked, Some(LikeState(false, blog.likesCount)));
    } else {
      blog := blog.(likes := blog.likes + [user]);
      blog := blog.(likesCount := blog.likesCount + 1);
      blog := blog.(updatedAt := now);
      db.blogs := db.blogs[i := blog];
      reply := Success(200, Liked, Some(LikeState(true, blog.likesCount)));
    }
  }

  /** `GET /api/blogs/:id/like-status`: whether the caller is in `likes`, and
      the stored counter; nothing is written. */
  function LikeStatus(blogs: seq<Blog>, blogId: ObjectId, user: ObjectId): (r: Envelope<LikeState>)
    ensures FindBlog(blogs, blogId).None? ==> r == Error(404, NotFound)
    ensures FindBlog(blogs, blogId).Some? ==>
              var b := blogs[FindBlog(blogs, blogId).value];
              r == Success(200, StatusRetrieved, Some(LikeState(user in b.likes, b.likesCount)))
  {
    match FindBlog(blogs, blogId)
    case None => Error(404, NotFound)
    case Some(i) => Success(200, StatusRetrieved, Some(LikeState(user in blogs[i].likes, blogs[i].likesCount)))
  }

  /** Liking when absent appends the caller at the end and adds exactly one. */
  lemma ToggleWhenAbsent(b: Blog, user: ObjectId, now: int)
    requires user !in b.likes
    ensures Toggle(b, user, now).likes == b.likes + [user]
    ensures Toggle(b, user, now).likesCount == b.likesCount + 1
    ensures user in Toggle(b, user, now).likes
  {
  }

  /** Unliking removes every occurrence of the caller, keeps every other id
      and their order, and floors the counter at zero. */
  lemma ToggleWhenPresent(b: Blog, user: ObjectId, now: int)
    requires user in b.likes
    ensures user !in Toggle(b, user, now).likes
    ensures forall y :: y != user ==> (y in Toggle(b, user, now).likes <==> y in b.likes)
    ensures forall p, q :: b.likes == p + q ==>
              Toggle(b, user, now).likes == Seqs.RemoveAll(p, user) + Seqs.RemoveAll(q, user)
    ensures Toggle(b, user, now).likesCount == Max(0, b.likesCount - 1) >= 0
  {
    Seqs.RemoveAllSpec(b.likes, user);
  }

  /** A toggle writes only `likes`, `likesCount` and the `updatedAt` stamp. */
  lemma ToggleTouchesOnlyLikes(b: Blog, user: ObjectId, now: int)
    ensures Toggle(b, user, now).(likes := b.likes, likesCount := b.likesCount, updatedAt := b.updatedAt) == b
  {
  }

  /** The invariant: a counter that mirrors a duplicate-free like list still
      does so after a toggle. */
  lemma ToggleKeepsLikesConsistent(b: Blog, user: ObjectId, now: int)
    ensures LikesConsistent(b) ==> LikesConsistent(Toggle(b, user, now))
  {
    if LikesConsistent(b) {
      if user in b.likes {
        Seqs.RemoveAllOnce(b.likes, user);
      } else {
        var s := b.likes + [user];
        forall i, j | 0 <= i < j < |s| ensures s[i] != s[j] {
          if j == |s| - 1 { assert s[i] in b.likes; }
        }
      }
    }
  }

  /** Like then unlike by the same caller restores `likes` and `likesCount`
      (only the `updatedAt` stamp moves). */
  lemma LikeThenUnlikeRestores(b: Blog, user: ObjectId, t1: int, t2: int)
    requires user !in b.likes && b.likesCount >= 0
    ensures Toggle(Toggle(b, user, t1), user, t2) == b.(updatedAt := t2)
  {
    Seqs.RemoveAllAppended(b.likes, user);
  }

  /** After a toggle, the like status reports the opposite membership and the
      counter the toggle answered with. */
  lemma StatusAfterToggle(blogs: seq<Blog>, blogId: ObjectId, user: ObjectId, now: int)
    requires UniqueIds(blogs) && FindBlog(blogs, blogId).Some?
    ensures var i := FindBlog(blogs, blogId).value;
            var saved := Toggle(blogs[i], user, now);
            LikeStatus(blogs[i := saved], blogId, user)
              == Success(200, StatusRetrieved, Some(LikeState(user !in blogs[i].likes, saved.likesCount)))
  {
    var i := FindBlog(blogs, blogId).value;
    var saved := Toggle(blogs[i], user, now);
    var after := blogs[i := saved];
    assert FindBlog(after, blogId) == Some(i) by {
      FindUnchangedIds(blogs, after, blogId);
    }
    if user in blogs[i].likes {
      Seqs.RemoveAllSpec(blogs[i].likes, user);
    }
  }

  /** Lookup by id only depends on the ids. */
  lemma {:induction false} FindUnchangedIds(a: seq<Blog>, b: seq<Blog>, id: ObjectId)
    requires |a| == |b| && forall k :: 0 <= k < |a| ==> a[k].id == b[k].id
    ensures FindBlog(a, id) == FindBlog(b, id)
  {
    if a != [] {
      FindUnchangedIds(a[1..], b[1..], id);
    }
  }
}
