/**
 * A feed post and the logic of its card (internship/src/components/feed/PostCard.tsx):
 * the like toggle and the relative time shown under the author.
 */
module PostCard {
  import opened Optional
  import opened JsText

  /** The fields of a post the card and the feed use; `timestamp` is in milliseconds. */
  datatype Post = Post(id: string, category: string, likes: int, isLiked: Option<bool>, timestamp: int)

  /** The card's local like state. */
  datatype LikeState = LikeState(isLiked: bool, likesCount: int)

  /** `useState(post.isLiked || false)` and `useState(post.likes)`. */
  function InitialLikes(post: Post): LikeState
  {
    LikeState(post.isLiked.GetOr(false), post.likes)
  }

  /** The likes by other users: the count without the viewer's own like. */
  function OthersLikes(s: LikeState): int
  {
    s.likesCount - (if s.isLiked then 1 else 0)
  }

  /** `handleLike`: flip the flag; add the like if it was not there, remove it if it was. */
  function ToggleLike(s: LikeState): (r: LikeState)
    ensures r.isLiked != s.isLiked
    ensures r.isLiked ==> r.likesCount == s.likesCount + 1
    ensures !r.isLiked ==> r.likesCount == s.likesCount - 1
    ensures OthersLikes(r) == OthersLikes(s)
  {
    LikeState(!s.isLiked, if s.isLiked then s.likesCount - 1 else s.likesCount + 1)
  }

  /** Liking twice restores both the flag and the count. */
  lemma ToggleTwice(s: LikeState)
    ensures ToggleLike(ToggleLike(s)) == s
  {
  }

  function ToggleTimes(s: LikeState, n: nat): LikeState
    decreases n
  {
    if n == 0 then s else ToggleTimes(ToggleLike(s), n - 1)
  }

  /**
   * After any number of likes the others' count is what the post arrived with,
   * the flag reflects the parity of the clicks, and the count is one of two values.
   */
  lemma {:induction false} TogglesKeepOthersLikes(post: Post, n: nat)
    ensures OthersLikes(ToggleTimes(InitialLikes(post), n)) == OthersLikes(InitialLikes(post))
    ensures ToggleTimes(InitialLikes(post), n) ==
              if n % 2 == 0 then InitialLikes(post) else ToggleLike(InitialLikes(post))
  {
    TogglesFrom(InitialLikes(post), n);
  }

  lemma {:induction false} TogglesFrom(s: LikeState, n: nat)
    ensures OthersLikes(ToggleTimes(s, n)) == OthersLikes(s)
    ensures ToggleTimes(s, n) == if n % 2 == 0 then s else ToggleLike(s)
    decreases n
  {
    if n > 0 {
      TogglesFrom(ToggleLike(s), n - 1);
      ToggleTwice(s);
    }
  }

  const MinuteMs := 60000
  const HourMs := 3600000
  const DayMs := 86400000

  /** The bucket `formatTimeAgo` picks for an age. */
  datatype Ago = JustNow | MinutesAgo(n: nat) | HoursAgo(n: nat) | DaysAgo(n: nat)

  /**
   * Whole days, else whole hours, else whole minutes, each `Math.floor` of the
   * age over the unit; a negative age (a post from the future) is "just now".
   */
  function Bucket(diff: int): (r: Ago)
    ensures r == JustNow <==> diff < MinuteMs
    ensures r.MinutesAgo? <==> MinuteMs <= diff < HourMs
    ensures r.HoursAgo? <==> HourMs <= diff < DayMs
    ensures r.DaysAgo? <==> DayMs <= diff
    ensures r.MinutesAgo? ==> 1 <= r.n < 60 && r.n * MinuteMs <= diff < (r.n + 1) * MinuteMs
    ensures r.HoursAgo? ==> 1 <= r.n < 24 && r.n * HourMs <= diff < (r.n + 1) * HourMs
    ensures r.DaysAgo? ==> 1 <= r.n && r.n * DayMs <= diff < (r.n + 1) * DayMs
  {
    var days := diff / DayMs;
    var hours := diff / HourMs;
    var minutes := diff / MinuteMs;
    if days > 0 then DaysAgo(days)
    else if hours > 0 then HoursAgo(hours)
    else if minutes > 0 then MinutesAgo(minutes)
    else JustNow
  }

  function Render(a: Ago): string
  {
    match a
    case DaysAgo(n) => Decimal(n) + "d ago"
    case HoursAgo(n) => Decimal(n) + "h ago"
    case MinutesAgo(n) => Decimal(n) + "m ago"
    case JustNow => "Just now"
  }

  /** `formatTimeAgo`, with the clock reading passed in: the label of each age range. */
  function FormatTimeAgo(now: int, timestamp: int): (r: string)
    ensures var diff := now - timestamp;
            && (diff < MinuteMs <==> r == "Just now")
            && (MinuteMs <= diff < HourMs ==> r == Decimal(diff / MinuteMs) + "m ago")
            && (HourMs <= diff < DayMs ==> r == Decimal(diff / HourMs) + "h ago")
            && (DayMs <= diff ==> r == Decimal(diff / DayMs) + "d ago")
  {
    var a := Bucket(now - timestamp);
    assert a != JustNow ==> Render(a)[|Render(a)| - 1] == 'o';
    Render(a)
  }

  /** Different buckets never print the same: the label determines the unit and the count. */
  lemma RenderInjective(a: Ago, b: Ago)
    requires Render(a) == Render(b)
    ensures a == b
  {
    var s := Render(a);
    assert s[|s| - 5] == UnitChar(a) by { RenderShape(a); }
    assert s[|s| - 5] == UnitChar(b) by { RenderShape(b); }
    if !a.JustNow? {
      RenderShape(a);
      RenderShape(b);
      assert Decimal(a.n) == s[..|s| - 5] == Decimal(b.n);
      DecimalInjective(a.n, b.n);
    }
  }

  function UnitChar(a: Ago): char
  {
    match a
    case DaysAgo(_) => 'd'
    case HoursAgo(_) => 'h'
    case MinutesAgo(_) => 'm'
    case JustNow => 't'
  }

  lemma RenderShape(a: Ago)
    ensures |Render(a)| >= 6
    ensures Render(a)[|Render(a)| - 5] == UnitChar(a)
    ensures !a.JustNow? ==> Render(a)[..|Render(a)| - 5] == Decimal(a.n)
  {
  }
}
