/** The blog preview card: the content excerpt and the display fallbacks. */
module BlogCard {
  import opened Common

  /** A blog as a listing returns it to the client: the populated author's
      name and the counters may be missing. */
  datatype ClientBlog = ClientBlog(
    id: ObjectId,
    title: string,
    content: string,
    coverImage: string,
    authorName: Option<string>,
    likesCount: Option<int>,
    commentsCount: Option<int>)

  const Ellipsis := "..."
  const CardExcerptLength: nat := 150
  const Anonymous := "Anonymous"

  /** `truncateContent(text, maxLength)`: text that fits is shown whole;
      longer text shows its first `maxLength` characters and an ellipsis. */
  function Truncate(text: string, maxLength: nat): (r: string)
    ensures |text| <= maxLength ==> r == text
    ensures |text| > maxLength ==>
              && |r| == maxLength + |Ellipsis|
              && r[..maxLength] == text[..maxLength]
              && r[maxLength..] == Ellipsis
    ensures |r| <= maxLength + |Ellipsis|
  {
    if |text| <= maxLength then text else text[..maxLength] + Ellipsis
  }

  /** The excerpt the card shows. */
  function Excerpt(content: string): string
  {
    Truncate(content, CardExcerptLength)
  }

  /** An excerpt is a prefix of the content followed, when cut, by the
      ellipsis; truncating an excerpt again changes nothing. */
  lemma TruncateStable(text: string, maxLength: nat)
    ensures Truncate(Truncate(text, maxLength), maxLength) == Truncate(text, maxLength)
    ensures exists n :: 0 <= n <= |text| && n <= |Truncate(text, maxLength)| && Truncate(text, maxLength)[..n] == text[..n]
                        && (Truncate(text, maxLength)[n..] == [] || Truncate(text, maxLength)[n..] == Ellipsis)
  {
    var r := Truncate(text, maxLength);
    if |text| > maxLength {
      assert r[..maxLength] + Ellipsis == r;
    } else {
      assert r[..|text|] == text[..|text|];
    }
  }

  /** `blog.author?.name || "Anonymous"`. */
  function AuthorLabel(b: ClientBlog): (name: string)
    ensures name != ""
    ensures Truthy(b.authorName) ==> name == b.authorName.value
  {
    OrElse(b.authorName, Anonymous)
  }

  /** `count || 0`: a missing counter shows 0 (a stored 0 is 0 either way). */
  function CountLabel(count: Option<int>): (shown: int)
    ensures count.None? ==> shown == 0
    ensures count.Some? ==> shown == count.value
  {
    if count.Some? && count.value != 0 then count.value else 0
  }
}
