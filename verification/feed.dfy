/** The category filter of the feed (internship/src/components/feed/Feed.tsx). */
module Feed {
  import opened PostCard

  /** The filter button that shows every post. */
  const AllFilter := "All"

  /** `activeFilter === 'All' || post.category === activeFilter` */
  predicate PassesFilter(post: Post, filter: string)
  {
    filter == AllFilter || post.category == filter
  }

  /** `posts.filter(...)`: the shown posts, in feed order. */
  function FilterPosts(posts: seq<Post>, filter: string): (r: seq<Post>)
    ensures |r| <= |posts|
    ensures forall k | 0 <= k < |r| :: r[k] in posts && PassesFilter(r[k], filter)
    ensures forall k | 0 <= k < |posts| && PassesFilter(posts[k], filter) :: posts[k] in r
    decreases |posts|
  {
    if |posts| == 0 then []
    else if PassesFilter(posts[0], filter) then [posts[0]] + FilterPosts(posts[1..], filter)
    else FilterPosts(posts[1..], filter)
  }

  /** `a` is `b` with some elements left out, the rest in their order. */
  predicate IsSubsequence<T(==)>(a: seq<T>, b: seq<T>)
    decreases |b|
  {
    if |a| == 0 then true
    else if |b| == 0 then false
    else if a[0] == b[0] then IsSubsequence(a[1..], b[1..])
    else IsSubsequence(a, b[1..])
  }

  /** The filter "All" leaves the feed as it is. */
  lemma {:induction false} FilterAllIsIdentity(posts: seq<Post>)
    ensures FilterPosts(posts, AllFilter) == posts
    decreases |posts|
  {
    if |posts| > 0 {
      FilterAllIsIdentity(posts[1..]);
    }
  }

  /** The filtered feed keeps the feed's order. */
  lemma {:induction false} FilterIsSubsequence(posts: seq<Post>, filter: string)
    ensures IsSubsequence(FilterPosts(posts, filter), posts)
    decreases |posts|
  {
    if |posts| > 0 {
      FilterIsSubsequence(posts[1..], filter);
      var rest := FilterPosts(posts[1..], filter);
      if !PassesFilter(posts[0], filter) && |rest| > 0 {
        SubsequenceSkipsHead(rest, posts);
      }
    }
  }

  /** A subsequence of the tail is a subsequence of the whole. */
  lemma {:induction false} SubsequenceSkipsHead<T>(a: seq<T>, b: seq<T>)
    requires |b| > 0 && IsSubsequence(a, b[1..])
    ensures IsSubsequence(a, b)
    decreases |b|, 1
  {
    if |a| > 0 && a[0] == b[0] {
      SubsequenceDropsFirst(a, b[1..]);
    }
  }

  /** Leaving out the first element of a subsequence keeps it a subsequence. */
  lemma {:induction false} SubsequenceDropsFirst<T>(a: seq<T>, c: seq<T>)
    requires |a| > 0 && IsSubsequence(a, c)
    ensures IsSubsequence(a[1..], c)
    decreases |c|, 2
  {
    if a[0] == c[0] {
      SubsequenceSkipsHead(a[1..], c);
    } else {
      SubsequenceDropsFirst(a, c[1..]);
      SubsequenceSkipsHead(a[1..], c);
    }
  }

  /** Filtering twice by the same category is filtering once. */
  lemma {:induction false} FilterIdempotent(posts: seq<Post>, filter: string)
    ensures FilterPosts(FilterPosts(posts, filter), filter) == FilterPosts(posts, filter)
    decreases |posts|
  {
    if |posts| > 0 {
      FilterIdempotent(posts[1..], filter);
    }
  }

  /** Each post is kept exactly as often as it occurs when its category is shown, and not at all otherwise. */
  lemma {:induction false} FilterMultiplicity(posts: seq<Post>, filter: string, p: Post)
    ensures multiset(FilterPosts(posts, filter))[p] == if PassesFilter(p, filter) then multiset(posts)[p] else 0
    decreases |posts|
  {
    if |posts| > 0 {
      FilterMultiplicity(posts[1..], filter, p);
      assert posts == [posts[0]] + posts[1..];
    }
  }
}
