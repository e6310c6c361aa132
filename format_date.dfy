/** `getRelativeTime`: the coarse "how long ago" label, as a function of the
    two instants in milliseconds. */
module FormatDate {
  import opened Common
  import opened Numbers

  datatype RelativeTime =
    | JustNow
    | MinutesAgo(minutes: nat)
    | HoursAgo(hours: nat)
    | DaysAgo(days: nat)
    | AbsoluteDate   // `formatDate(date)`, the locale date

  const Minute := 60
  const Hour := 3600
  const Day := 86400
  const Week := 604800

  /** `Math.floor((now - past) / 1000)`; `/` by a positive number in Dafny
      rounds toward minus infinity, as `Math.floor` does. */
  function DiffInSeconds(nowMs: int, pastMs: int): (d: int)
    ensures d * 1000 <= nowMs - pastMs < (d + 1) * 1000
  {
    (nowMs - pastMs) / 1000
  }

  function Bucket(diff: int): RelativeTime
  {
    if diff < Minute then JustNow
    else if diff < Hour then MinutesAgo(diff / Minute)
    else if diff < Day then HoursAgo(diff / Hour)
    else if diff < Week then DaysAgo(diff / Day)
    else AbsoluteDate
  }

  /** The label; `absolute` is what `formatDate(date)` gives. */
  function Render(t: RelativeTime, absolute: string): string
  {
    match t
    case JustNow => "just now"
    case MinutesAgo(n) => NatToString(n) + " minutes ago"
    case HoursAgo(n) => NatToString(n) + " hours ago"
    case DaysAgo(n) => NatToString(n) + " days ago"
    case AbsoluteDate => absolute
  }

  function GetRelativeTime(nowMs: int, pastMs: int, absolute: string): string
  {
    Render(Bucket(DiffInSeconds(nowMs, pastMs)), absolute)
  }

  /** Each bucket covers its range and the number shown is the whole count of
      units, from 1 up to one less than the next unit; future instants read as
      "just now". */
  lemma BucketSpec(diff: int)
    ensures diff < Minute <==> Bucket(diff) == JustNow
    ensures Minute <= diff < Hour <==> Bucket(diff).MinutesAgo?
    ensures Hour <= diff < Day <==> Bucket(diff).HoursAgo?
    ensures Day <= diff < Week <==> Bucket(diff).DaysAgo?
    ensures Week <= diff <==> Bucket(diff) == AbsoluteDate
    ensures Bucket(diff).MinutesAgo? ==>
              var n := Bucket(diff).minutes; 1 <= n <= 59 && n * Minute <= diff < (n + 1) * Minute
    ensures Bucket(diff).HoursAgo? ==>
              var n := Bucket(diff).hours; 1 <= n <= 23 && n * Hour <= diff < (n + 1) * Hour
    ensures Bucket(diff).DaysAgo? ==>
              var n := Bucket(diff).days; 1 <= n <= 6 && n * Day <= diff < (n + 1) * Day
  {
  }

  function Rank(t: RelativeTime): nat
  {
    match t
    case JustNow => 0
    case MinutesAgo(_) => 1
    case HoursAgo(_) => 2
    case DaysAgo(_) => 3
    case AbsoluteDate => 4
  }

  /** An older date never gets a finer bucket, nor a smaller number in the same one. */
  lemma BucketMonotone(d1: int, d2: int)
    requires d1 <= d2
    ensures Rank(Bucket(d1)) <= Rank(Bucket(d2))
    ensures Bucket(d1).MinutesAgo? && Bucket(d2).MinutesAgo? ==> Bucket(d1).minutes <= Bucket(d2).minutes
    ensures Bucket(d1).HoursAgo? && Bucket(d2).HoursAgo? ==> Bucket(d1).hours <= Bucket(d2).hours
    ensures Bucket(d1).DaysAgo? && Bucket(d2).DaysAgo? ==> Bucket(d1).days <= Bucket(d2).days
  {
  }

  /** The number in a label reads back with `parseInt` as the bucket's count. */
  lemma LabelReadsBack(nowMs: int, pastMs: int, absolute: string)
    ensures match Bucket(DiffInSeconds(nowMs, pastMs))
            case MinutesAgo(n) => ParseInt(GetRelativeTime(nowMs, pastMs, absolute)) == Some(n)
            case HoursAgo(n) => ParseInt(GetRelativeTime(nowMs, pastMs, absolute)) == Some(n)
            case DaysAgo(n) => ParseInt(GetRelativeTime(nowMs, pastMs, absolute)) == Some(n)
            case _ => true
  {
    match Bucket(DiffInSeconds(nowMs, pastMs))
    case MinutesAgo(n) => ParseIntOfNatToString(n, " minutes ago");
    case HoursAgo(n) => ParseIntOfNatToString(n, " hours ago");
    case DaysAgo(n) => ParseIntOfNatToString(n, " days ago");
    case _ =>
  }
}
