/** The two-way key index: insertion and removal in both key orders, and LIKE
    search through exact, prefix, suffix and general routes. */
module LikeIndex {
  import opened Prelude

  // ----- what LIKE means ----------------------------------------------------------

  /** `%` stands for any run of characters, `_` for exactly one. */
  predicate Like(s: string, p: string)
    decreases |s| + |p|
  {
    if p == [] then s == []
    else if p[0] == '%' then Like(s, p[1..]) || (s != [] && Like(s[1..], p))
    else s != [] && (p[0] == '_' || p[0] == s[0]) && Like(s[1..], p[1..])
  }

  /** No `%` at positions `from` up to `to` of the pattern. */
  ghost predicate NoPercent(p: string, from: nat, to: nat) {
    from <= to <= |p| && forall i :: from <= i < to ==> p[i] != '%'
  }

  /** A leading `%` may swallow any prefix. */
  lemma {:induction false} PercentMatchesAnySuffix(s: string, p: string, k: nat)
    requires p != [] && p[0] == '%' && k <= |s| && Like(s[k..], p)
    ensures Like(s, p)
    decreases k
  {
    hide Like;
    LikePercent(s, p);
    if k > 0 {
      assert s[1..][k - 1..] == s[k..];
      PercentMatchesAnySuffix(s[1..], p, k - 1);
    } else {
      assert s[0..] == s;
    }
  }

  lemma LikePercent(s: string, p: string)
    requires p != [] && p[0] == '%'
    ensures Like(s, p) <==> Like(s, p[1..]) || (s != [] && Like(s[1..], p))
  {
  }

  /** The suffix a leading `%` leaves to the rest of the pattern. */
  lemma {:induction false} ChosenSuffix(s: string, p: string) returns (k: nat)
    requires p != [] && p[0] == '%' && Like(s, p)
    ensures k <= |s| && Like(s[k..], p[1..])
    decreases |s|
  {
    hide Like;
    LikePercent(s, p);
    if Like(s, p[1..]) {
      assert s[0..] == s;
      return 0;
    }
    var j := ChosenSuffix(s[1..], p);
    assert s[1..][j..] == s[j + 1..];
    return j + 1;
  }

  lemma PercentChoosesSuffix(s: string, p: string)
    requires p != [] && p[0] == '%'
    ensures Like(s, p) <==> exists k :: 0 <= k <= |s| && Like(s[k..], p[1..])
  {
    hide Like;
    if Like(s, p) {
      var k := ChosenSuffix(s, p);
    }
    if k :| 0 <= k <= |s| && Like(s[k..], p[1..]) {
      LikePercent(s[k..], p);
      PercentMatchesAnySuffix(s, p, k);
    }
  }

  /** Pattern characters before any `%` consume exactly as many characters. */
  lemma {:induction false} SegmentConsumes(s: string, seg: string, rest: string)
    requires NoPercent(seg, 0, |seg|) && Like(s, seg + rest)
    ensures |seg| <= |s| && Like(s[|seg|..], rest)
    decreases |seg|
  {
    if seg == [] {
      assert seg + rest == rest && s[0..] == s;
    } else {
      assert (seg + rest)[1..] == seg[1..] + rest;
      SegmentConsumes(s[1..], seg[1..], rest);
      assert s[1..][|seg| - 1..] == s[|seg|..];
    }
  }

  // ----- the greedy matcher -----------------------------------------------------------

  /** Some start after `retry` lets the pattern behind the last `%` match. */
  ghost predicate LaterStart(actual: string, pattern: string, percent: nat, retry: nat)
    requires percent < |pattern|
  {
    exists k :: retry < k <= |actual| && Like(actual[k..], pattern[percent + 1..])
  }

  /** A later start of the segment before a second `%` adds nothing. */
  lemma LaterStartIsCovered(actual: string, pattern: string, percent: nat, retry: nat, ai: nat, pi: nat)
    requires percent < pi < |pattern| && pattern[pi] == '%'
    requires retry <= ai <= |actual| && ai - retry == pi - percent - 1
    requires NoPercent(pattern, percent + 1, pi)
    requires LaterStart(actual, pattern, percent, retry)
    ensures Like(actual[ai..], pattern[pi..])
  {
    var k :| retry < k <= |actual| && Like(actual[k..], pattern[percent + 1..]);
    var seg := pattern[percent + 1..pi];
    assert pattern[percent + 1..] == seg + pattern[pi..];
    SegmentConsumes(actual[k..], seg, pattern[pi..]);
    assert actual[k..][|seg|..] == actual[ai..][k - retry..];
    PercentMatchesAnySuffix(actual[ai..], pattern[pi..], k - retry);
  }

  lemma NoLaterStartAtEnd(actual: string, pattern: string, percent: nat, retry: nat, pi: nat)
    requires percent < pi <= |pattern|
    requires retry <= |actual| && |actual| - retry == pi - percent - 1
    requires NoPercent(pattern, percent + 1, pi)
    ensures !LaterStart(actual, pattern, percent, retry)
  {
    forall k | retry < k <= |actual| ensures !Like(actual[k..], pattern[percent + 1..]) {
      var seg := pattern[percent + 1..pi];
      assert pattern[percent + 1..] == seg + pattern[pi..];
      if Like(actual[k..], seg + pattern[pi..]) {
        SegmentConsumes(actual[k..], seg, pattern[pi..]);
      }
    }
  }

  /** Backtracking moves the start of the current segment one character on. */
  lemma NextStart(actual: string, pattern: string, percent: nat, retry: nat)
    requires percent < |pattern| && retry < |actual|
    ensures LaterStart(actual, pattern, percent, retry) <==>
            Like(actual[retry + 1..], pattern[percent + 1..]) || LaterStart(actual, pattern, percent, retry + 1)
  {
  }

  lemma {:induction false} LikeOfEmpty(p: string)
    ensures Like("", p) <==> forall i :: 0 <= i < |p| ==> p[i] == '%'
  {
    if p != [] {
      LikeOfEmpty(p[1..]);
      if p[0] == '%' && Like("", p[1..]) {
        assert forall i :: 1 <= i < |p| ==> p[i] == p[1..][i - 1];
      }
    }
  }

  /** One character of pattern that is not `%` against one character of text. */
  lemma LikeStep(actual: string, pattern: string, ai: nat, pi: nat)
    requires ai < |actual| && pi <= |pattern|
    ensures pi == |pattern| ==> !Like(actual[ai..], pattern[pi..])
    ensures pi < |pattern| && pattern[pi] != '%' ==>
      (Like(actual[ai..], pattern[pi..]) <==>
       (pattern[pi] == '_' || pattern[pi] == actual[ai]) && Like(actual[ai + 1..], pattern[pi + 1..]))
  {
    assert pi < |pattern| ==> pattern[pi..][1..] == pattern[pi + 1..];
    assert actual[ai..][1..] == actual[ai + 1..];
  }

  /** `like_matches_chars`, which remembers only the last `%` it passed. */
  method LikeMatches(actual: string, pattern: string) returns (r: bool)
    ensures r <==> Like(actual, pattern)
  {
    hide Like, LaterStart;
    var ai, pi := 0, 0;
    var lastPercent: Option<nat> := None;
    var retry := 0;
    assert actual[0..] == actual && pattern[0..] == pattern;
    while ai < |actual|
      invariant 0 <= retry <= ai <= |actual| && 0 <= pi <= |pattern|
      invariant lastPercent.Some? ==>
        lastPercent.value < pi && ai - retry == pi - lastPercent.value - 1
        && NoPercent(pattern, lastPercent.value + 1, pi)
      invariant Like(actual, pattern) <==>
        Like(actual[ai..], pattern[pi..])
        || (lastPercent.Some? && LaterStart(actual, pattern, lastPercent.value, retry))
      decreases |pattern| - (if lastPercent.Some? then lastPercent.value + 1 else 0), |actual| - retry, |actual| - ai
    {
      LikeStep(actual, pattern, ai, pi);
      if pi < |pattern| {
        if pattern[pi] == '_' {
          ai, pi := ai + 1, pi + 1;
          continue;
        } else if pattern[pi] == '%' {
          TakePercent(actual, pattern, lastPercent, retry, ai, pi);
          lastPercent := Some(pi);
          pi := pi + 1;
          retry := ai;
          continue;
        } else if actual[ai] == pattern[pi] {
          ai, pi := ai + 1, pi + 1;
          continue;
        }
      }
      if lastPercent.Some? {
        NextStart(actual, pattern, lastPercent.value, retry);
        pi := lastPercent.value + 1;
        retry := retry + 1;
        ai := retry;
        continue;
      }
      return false;
    }
    assert actual[ai..] == "";
    if lastPercent.Some? { NoLaterStartAtEnd(actual, pattern, lastPercent.value, retry, pi); }
    LikeOfEmpty(pattern[pi..]);
    ghost var from := pi;
    while pi < |pattern| && pattern[pi] == '%'
      invariant from <= pi <= |pattern|
      invariant forall i :: from <= i < pi ==> pattern[i] == '%'
    {
      pi := pi + 1;
    }
    assert pi < |pattern| ==> pattern[from..][pi - from] == pattern[pi];
    return pi == |pattern|;
  }

  /** Meeting a `%` replaces every earlier choice by the starts from here on. */
  lemma TakePercent(actual: string, pattern: string, last: Option<nat>, retry: nat, ai: nat, pi: nat)
    requires retry <= ai <= |actual| && pi < |pattern| && pattern[pi] == '%'
    requires last.Some? ==>
      last.value < pi && ai - retry == pi - last.value - 1 && NoPercent(pattern, last.value + 1, pi)
    ensures Like(actual[ai..], pattern[pi..]) || (last.Some? && LaterStart(actual, pattern, last.value, retry))
      <==> Like(actual[ai..], pattern[pi + 1..]) || LaterStart(actual, pattern, pi, ai)
  {
    if last.Some? && LaterStart(actual, pattern, last.value, retry) {
      LaterStartIsCovered(actual, pattern, last.value, retry, ai, pi);
    }
    var s, p := actual[ai..], pattern[pi..];
    PercentChoosesSuffix(s, p);
    assert p[1..] == pattern[pi + 1..];
    assert forall k :: 0 <= k <= |s| ==> s[k..] == actual[ai + k..];
    if LaterStart(actual, pattern, pi, ai) {
      var k :| ai < k <= |actual| && Like(actual[k..], pattern[pi + 1..]);
      assert s[k - ai..] == actual[k..];
    }
    if Like(s, p) {
      var k :| 0 <= k <= |s| && Like(s[k..], p[1..]);
      assert k == 0 || ai < ai + k <= |actual|;
    }
  }

  // ----- routes that LIKE can take ----------------------------------------------------------

  predicate Plain(p: string) {
    '%' !in p && '_' !in p
  }

  predicate EndsWith(s: string, suffix: string) {
    |suffix| <= |s| && s[|s| - |suffix|..] == suffix
  }

  lemma {:induction false} LikePlain(s: string, p: string)
    requires Plain(p)
    ensures Like(s, p) <==> s == p
    decreases |p|
  {
    if p != [] && s != [] && p[0] == s[0] {
      LikePlain(s[1..], p[1..]);
      assert s == [s[0]] + s[1..] && p == [p[0]] + p[1..];
    }
  }

  lemma {:induction false} LikePrefix(s: string, prefix: string)
    requires Plain(prefix)
    ensures Like(s, prefix + "%") <==> prefix <= s
    decreases |prefix|
  {
    var p := prefix + "%";
    if prefix == [] {
      assert s[|s|..] == "" && Like("", p[1..]);
      PercentChoosesSuffix(s, p);
    } else {
      assert p[1..] == prefix[1..] + "%";
      if s != [] {
        LikePrefix(s[1..], prefix[1..]);
        assert s == [s[0]] + s[1..] && prefix == [prefix[0]] + prefix[1..];
      }
    }
  }

  lemma LikeSuffix(s: string, suffix: string)
    requires Plain(suffix)
    ensures Like(s, "%" + suffix) <==> EndsWith(s, suffix)
  {
    var p := "%" + suffix;
    assert p[1..] == suffix;
    PercentChoosesSuffix(s, p);
    forall k | 0 <= k <= |s| ensures Like(s[k..], suffix) <==> s[k..] == suffix {
      LikePlain(s[k..], suffix);
    }
    if EndsWith(s, suffix) { assert Like(s[|s| - |suffix|..], suffix); }
  }

  // ----- key order and range scans ------------------------------------------------------------

  const MAX_CHAR: char := '\U{10FFFF}'

  predicate Less(a: string, b: string) {
    b != [] && (a == [] || a[0] < b[0] || (a[0] == b[0] && Less(a[1..], b[1..])))
  }

  /** Keys from `prefix` up to but not including `prefix` followed by the largest character. */
  predicate InPrefixRange(key: string, prefix: string) {
    !Less(key, prefix) && Less(key, prefix + [MAX_CHAR])
  }

  /** Of the keys with the prefix, the range holds all but those that continue with the largest character. */
  lemma {:induction false} PrefixRange(key: string, prefix: string)
    requires prefix <= key
    ensures InPrefixRange(key, prefix) <==> !(prefix + [MAX_CHAR] <= key)
    decreases |prefix|
  {
    var upper := prefix + [MAX_CHAR];
    if prefix == [] {
      assert upper == [MAX_CHAR] && upper[1..] == [];
      assert key != [] ==> key[0] <= MAX_CHAR && !Less(key[1..], []);
      assert upper <= key <==> key != [] && key[0] == MAX_CHAR;
    } else {
      PrefixRange(key[1..], prefix[1..]);
      assert upper[1..] == prefix[1..] + [MAX_CHAR];
      assert upper <= key <==> upper[1..] <= key[1..];
    }
  }

  function Reversed(s: string): (r: string)
    ensures |r| == |s|
  {
    if s == [] then [] else Reversed(s[1..]) + [s[0]]
  }

  lemma {:induction false} ReversedConcat(a: string, b: string)
    ensures Reversed(a + b) == Reversed(b) + Reversed(a)
  {
    if a == [] {
      assert a + b == b;
    } else {
      ReversedConcat(a[1..], b);
      assert (a + b)[1..] == a[1..] + b;
    }
  }

  lemma {:induction false} ReversedTwice(s: string)
    ensures Reversed(Reversed(s)) == s
  {
    if s != [] {
      ReversedConcat(Reversed(s[1..]), [s[0]]);
      ReversedTwice(s[1..]);
      assert Reversed([s[0]]) == [s[0]];
    }
  }

  lemma SuffixIsReversedPrefix(s: string, suffix: string)
    ensures EndsWith(s, suffix) <==> Reversed(suffix) <= Reversed(s)
  {
    hide Reversed;
    if |suffix| <= |s| {
      var n := |s| - |suffix|;
      var tail, r := s[n..], Reversed(s);
      assert s == s[..n] + tail;
      ReversedConcat(s[..n], tail);
      assert r[..|suffix|] == Reversed(tail);
      assert Reversed(suffix) <= r <==> Reversed(suffix) == r[..|suffix|];
      ReversedTwice(suffix);
      ReversedTwice(tail);
      assert Reversed(suffix) == Reversed(tail) <==> suffix == tail;
    }
  }

  /** `_` stands for exactly one character: a pattern of them fits exactly the
      texts of its length. */
  lemma {:induction false} LikeUnderscores(s: string, p: string)
    requires forall i :: 0 <= i < |p| ==> p[i] == '_'
    ensures Like(s, p) <==> |s| == |p|
    decreases |p|
  {
    if p != [] && s != [] { LikeUnderscores(s[1..], p[1..]); }
  }

  // ----- the index ------------------------------------------------------------------------------

  /** The reverse map holds exactly the reversal of every key. */
  ghost predicate Mirrors<T>(items: map<string, T>, reverse: map<string, string>) {
    && (forall k :: k in items ==> Reversed(k) in reverse && reverse[Reversed(k)] == k)
    && (forall r :: r in reverse ==> reverse[r] in items && Reversed(reverse[r]) == r)
  }

  function SearchPrefix<T>(items: map<string, T>, prefix: string): (hits: map<string, T>) {
    map k | k in items && InPrefixRange(k, prefix) && prefix <= k :: items[k]
  }

  function SearchSuffix<T>(items: map<string, T>, reverse: map<string, string>, suffix: string):
    (hits: map<string, T>)
  {
    var rs := Reversed(suffix);
    var keys := set r | r in reverse && InPrefixRange(r, rs) && rs <= r :: reverse[r];
    map k | k in keys && k in items :: items[k]
  }

  /** Which of the four ways a non-empty pattern is searched. */
  datatype Route = Exact | Suffix(suffix: string) | Prefix(prefix: string) | General

  function RouteOf(p: string): (route: Route)
    requires p != []
  {
    if Plain(p) then Exact
    else if p[0] == '%' && Plain(p[1..]) then Suffix(p[1..])
    else if p[|p| - 1] == '%' && '%' !in p[..|p| - 1] && '_' !in p then Prefix(p[..|p| - 1])
    else General
  }

  function Found<T>(items: map<string, T>, reverse: map<string, string>, p: string): (hits: map<string, T>) {
    if p == [] then items
    else match RouteOf(p)
      case Exact => if p in items then map[p := items[p]] else map[]
      case Suffix(suffix) => SearchSuffix(items, reverse, suffix)
      case Prefix(prefix) => SearchPrefix(items, prefix)
      case General => LikeFilter(items, p)
  }

  function LikeFilter<T>(items: map<string, T>, p: string): (hits: map<string, T>) {
    map k | k in items && Like(k, p) :: items[k]
  }

  /** The keys the range scans leave out: those whose next character beyond the
      searched prefix (or, reversed, suffix) is U+10FFFF. */
  predicate OutOfRange(p: string, key: string)
    requires p != []
  {
    match RouteOf(p)
    case Suffix(suffix) => EndsWith(key, [MAX_CHAR] + suffix)
    case Prefix(prefix) => prefix + [MAX_CHAR] <= key
    case _ => false
  }

  lemma SuffixHits<T>(items: map<string, T>, reverse: map<string, string>, suffix: string, k: string)
    requires Mirrors(items, reverse) && k in items
    ensures k in SearchSuffix(items, reverse, suffix) <==>
            EndsWith(k, suffix) && !EndsWith(k, [MAX_CHAR] + suffix)
  {
    var rs, rk := Reversed(suffix), Reversed(k);
    ReversedTwice(k);
    SuffixIsReversedPrefix(k, suffix);
    SuffixIsReversedPrefix(k, [MAX_CHAR] + suffix);
    assert Reversed([MAX_CHAR] + suffix) == rs + [MAX_CHAR] by {
      assert ([MAX_CHAR] + suffix)[1..] == suffix;
    }
    if rs <= rk { PrefixRange(rk, rs); }
    if k in SearchSuffix(items, reverse, suffix) {
      var r :| r in reverse && InPrefixRange(r, rs) && rs <= r && reverse[r] == k;
      ReversedTwice(r);
    } else {
      assert reverse[rk] == k;
    }
    if EndsWith(k, [MAX_CHAR] + suffix) { EndsWithTail(k, MAX_CHAR, suffix); }
  }

  lemma EndsWithTail(k: string, c: char, suffix: string)
    requires EndsWith(k, [c] + suffix)
    ensures EndsWith(k, suffix) && c in k
  {
    var tail := k[|k| - |suffix| - 1..];
    assert tail == [c] + suffix && tail[1..] == k[|k| - |suffix|..];
    assert k[|k| - |suffix| - 1] == tail[0];
  }

  /** A key is found exactly when it matches and is not out of range of the scan taken. */
  lemma SearchLikeHits<T>(items: map<string, T>, reverse: map<string, string>, p: string, k: string)
    requires Mirrors(items, reverse) && p != [] && k in items
    ensures k in Found(items, reverse, p) <==> Like(k, p) && !OutOfRange(p, k)
    ensures OutOfRange(p, k) ==> Like(k, p)
  {
    hide Like, Less, InPrefixRange, Mirrors, SearchSuffix, EndsWith;
    match RouteOf(p)
    case Exact => LikePlain(k, p);
    case Suffix(suffix) =>
      assert p == "%" + suffix;
      LikeSuffix(k, suffix);
      SuffixHits(items, reverse, suffix, k);
      if EndsWith(k, [MAX_CHAR] + suffix) { EndsWithTail(k, MAX_CHAR, suffix); }
    case Prefix(prefix) =>
      assert p == prefix + "%";
      LikePrefix(k, prefix);
      if prefix <= k { PrefixRange(k, prefix); }
    case General =>
  }

  lemma SearchLikeSubset<T>(items: map<string, T>, reverse: map<string, string>, p: string)
    ensures var hits := Found(items, reverse, p); forall k :: k in hits ==> k in items && hits[k] == items[k]
  {
  }

  /** For every non-empty pattern the search gives exactly the keys LIKE accepts,
      with their values, if and only if no key is out of range of its scan. */
  lemma SearchLikeIsFilter<T>(items: map<string, T>, reverse: map<string, string>, p: string)
    requires Mirrors(items, reverse) && p != []
    ensures Found(items, reverse, p) == LikeFilter(items, p) <==>
            forall k :: k in items ==> !OutOfRange(p, k)
  {
    hide Like, Less, InPrefixRange, Mirrors, Found, OutOfRange;
    var hits, wanted := Found(items, reverse, p), LikeFilter(items, p);
    forall k | k in items
      ensures k in hits <==> Like(k, p) && !OutOfRange(p, k)
      ensures OutOfRange(p, k) ==> Like(k, p)
    {
      SearchLikeHits(items, reverse, p, k);
    }
    SearchLikeSubset(items, reverse, p);
    if k :| k in items && OutOfRange(p, k) {
      assert k in wanted && k !in hits;
    } else {
      assert forall k :: k in hits <==> k in wanted;
    }
  }

  /** A key without U+10FFFF is never out of range. */
  lemma OrdinaryKeysAreInRange(p: string, k: string)
    requires p != []
    ensures OutOfRange(p, k) ==> MAX_CHAR in k
  {
    if OutOfRange(p, k) {
      match RouteOf(p)
      case Suffix(suffix) => EndsWithTail(k, MAX_CHAR, suffix);
      case Prefix(prefix) => assert k[|prefix|] == (prefix + [MAX_CHAR])[|prefix|];
    }
  }

  /** A key that the filter accepts and the search misses. */
  lemma OutOfRangeKeyIsMissed()
    ensures var key := "a" + [MAX_CHAR];
      var items, reverse := map[key := 0], map[Reversed(key) := key];
      && Mirrors(items, reverse) && Like(key, "a%") && key !in Found(items, reverse, "a%")
  {
    var key := "a" + [MAX_CHAR];
    var items, reverse := map[key := 0], map[Reversed(key) := key];
    ReversedTwice(key);
    assert Plain("a") && "a" + "%" == "a%" && "a%"[..1] == "a";
    assert RouteOf("a%") == Prefix("a");
    SearchLikeHits(items, reverse, "a%", key);
  }

  class TPHashSet<T> {
    var items: map<string, T>
    var reverse: map<string, string>

    ghost predicate Valid() reads this { Mirrors(items, reverse) }

    constructor ()
      ensures Valid() && items == map[]
    {
      items, reverse := map[], map[];
    }

    method Insert(key: string, value: T) returns (previous: Option<T>)
      requires Valid()
      modifies this
      ensures Valid() && items == old(items)[key := value]
      ensures previous == if key in old(items) then Some(old(items)[key]) else None
    {
      ReversedTwice(key);
      ReverseIsInjective();
      reverse := reverse[Reversed(key) := key];
      previous := if key in items then Some(items[key]) else None;
      items := items[key := value];
    }

    method Remove(key: string) returns (removed: Option<T>)
      requires Valid()
      modifies this
      ensures Valid() && items == old(items) - {key}
      ensures removed == if key in old(items) then Some(old(items)[key]) else None
    {
      if key !in items { return None; }
      ReversedTwice(key);
      ReverseIsInjective();
      removed := Some(items[key]);
      items := items - {key};
      reverse := reverse - {Reversed(key)};
    }

    method Clear()
      modifies this
      ensures Valid() && items == map[]
    {
      items, reverse := map[], map[];
    }

    method GetByReverseKey(reverseKey: string) returns (value: Option<T>)
      requires Valid()
      ensures value == if Reversed(reverseKey) in items then Some(items[Reversed(reverseKey)]) else None
    {
      ReversedTwice(reverseKey);
      if reverseKey !in reverse { return None; }
      var key := reverse[reverseKey];
      ReversedTwice(key);
      return if key in items then Some(items[key]) else None;
    }

    /** `search_like`: exact lookup, one of the two range scans, or a match of every key. */
    method SearchLike(pattern: string) returns (hits: map<string, T>)
      requires Valid()
      ensures hits == Found(items, reverse, pattern)
      ensures pattern != [] && (forall k :: k in items ==> !OutOfRange(pattern, k)) ==>
        hits == LikeFilter(items, pattern)
    {
      hide Like, Mirrors, OutOfRange, SearchSuffix, SearchPrefix;
      if pattern == [] { return items; }
      SearchLikeIsFilter(items, reverse, pattern);
      match RouteOf(pattern) {
        case Exact => hits := if pattern in items then map[pattern := items[pattern]] else map[];
        case Suffix(suffix) => hits := SearchSuffix(items, reverse, suffix);
        case Prefix(prefix) => hits := SearchPrefix(items, prefix);
        case General => hits := MatchAll(pattern);
      }
    }

    /** Every key against the pattern, in any order. */
    method MatchAll(pattern: string) returns (hits: map<string, T>)
      ensures hits == LikeFilter(items, pattern)
    {
      hide Like;
      hits := map[];
      var rest := items.Keys;
      while rest != {}
        invariant rest <= items.Keys
        invariant hits == map k | k in items && k !in rest && Like(k, pattern) :: items[k]
        decreases rest
      {
        var key :| key in rest;
        var matches := LikeMatches(key, pattern);
        if matches { hits := hits[key := items[key]]; }
        rest := rest - {key};
      }
    }

    lemma ReverseIsInjective()
      ensures forall a: string, b: string :: Reversed(a) == Reversed(b) ==> a == b
    {
      forall a: string, b: string | Reversed(a) == Reversed(b) ensures a == b {
        ReversedTwice(a);
        ReversedTwice(b);
      }
    }
  }
}
