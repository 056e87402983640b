/** The in-memory log of one stream: in-order appends, merges of late and
    repeated records, batches, and the reads over the sorted vector. */
module WalLog {
  import opened Prelude
  import opened WalRecords

  // ----- what an append means ------------------------------------------------

  /** The number of leading records whose id does not exceed `key`. */
  function UpperBound(log: Log, key: nat): (n: nat)
    ensures n <= |log|
  {
    if log == [] || key < log[0].id then 0 else 1 + UpperBound(log[1..], key)
  }

  lemma {:induction false} UpperBoundSplits(log: Log, key: nat)
    requires Sorted(log)
    ensures SplitsAt(log, key, UpperBound(log, key))
  {
    if log != [] && log[0].id <= key {
      UpperBoundSplits(log[1..], key);
      var n := UpperBound(log[1..], key);
      forall j | 1 + n <= j < |log| ensures key < log[j].id {
        assert log[j] == log[1..][j - 1];
      }
      forall j | 0 <= j < 1 + n ensures log[j].id <= key {
        if j > 0 { assert log[j] == log[1..][j - 1]; }
      }
    }
  }

  function Inserted(log: Log, r: Record): (out: Log) {
    var n := UpperBound(log, r.id);
    log[..n] + [r] + log[n..]
  }

  /** The record's id is above the last one. */
  predicate InOrder(log: Log, r: Record) { log == [] || log[|log| - 1].id < r.id }

  /** The record occurs in the run of equal ids that starts at position `i`. */
  predicate DuplicateFrom(log: Log, r: Record, i: nat)
    requires i <= |log|
    decreases |log| - i
  {
    i < |log| && log[i].id == r.id && (log[i] == r || DuplicateFrom(log, r, i + 1))
  }

  /** The first position from `i` on whose id is above `key`. */
  function Walk(log: Log, key: nat, i: nat): (n: nat)
    requires i <= |log|
    ensures i <= n <= |log|
    decreases |log| - i
  {
    if i < |log| && log[i].id <= key then Walk(log, key, i + 1) else i
  }

  /** A record above the last id is pushed. Any other is looked for from the searched
      index on: an exact duplicate is dropped, and a new record put where the walk
      from there stops. The log need not be sorted. */
  ghost function AppendLog(e: Env, log: Log, r: Record): (out: Log)
    requires SearchLaw(e)
  {
    var base := e.search(log, r.id);
    if InOrder(log, r) then log + [r]
    else if DuplicateFrom(log, r, base) then log
    else var n := Walk(log, r.id, base); log[..n] + [r] + log[n..]
  }

  lemma {:induction false} DuplicateInLog(log: Log, r: Record, i: nat)
    requires i <= |log|
    ensures DuplicateFrom(log, r, i) ==> r in log[i..]
    ensures Sorted(log) && (forall j :: i <= j < |log| ==> r.id <= log[j].id) ==>
      (DuplicateFrom(log, r, i) <==> r in log[i..])
    decreases |log| - i
  {
    if i < |log| {
      assert log[i..] == [log[i]] + log[i + 1..];
      if log[i].id == r.id { DuplicateInLog(log, r, i + 1); }
    }
  }

  lemma {:induction false} WalkToUpperBound(log: Log, key: nat, i: nat)
    requires Sorted(log) && i <= UpperBound(log, key)
    ensures Walk(log, key, i) == UpperBound(log, key)
    decreases |log| - i
  {
    UpperBoundSplits(log, key);
    if i < UpperBound(log, key) { WalkToUpperBound(log, key, i + 1); }
  }

  /** On a sorted log a record already present at or after the searched index is
      dropped; any other is put behind every record whose id does not exceed its own. */
  lemma AppendOnSorted(e: Env, log: Log, r: Record)
    requires SearchLaw(e) && Sorted(log)
    ensures e.search(log, r.id) <= |log|
    ensures AppendLog(e, log, r) == if r in log[e.search(log, r.id)..] then log else Inserted(log, r)
  {
    var base := e.search(log, r.id);
    assert IsSearchResult(log, r.id, base);
    UpperBoundSplits(log, r.id);
    if InOrder(log, r) {
      assert UpperBound(log, r.id) == |log|;
      assert forall j :: 0 <= j < |log| ==> log[j].id < r.id;
    } else {
      SearchedBound(log, r.id, base);
      WalkToUpperBound(log, r.id, base);
      DuplicateInLog(log, r, base);
    }
  }

  /** The searched index lies at or before the upper bound, and no smaller id behind it. */
  lemma SearchedBound(log: Log, key: nat, i: nat)
    requires Sorted(log) && IsSearchResult(log, key, i)
    ensures i <= UpperBound(log, key) && forall j :: i <= j < |log| ==> key <= log[j].id
  {
    UpperBoundSplits(log, key);
    var n := UpperBound(log, key);
    if HasId(log, key) {
      assert !(key < log[i].id);
    } else if n < |log| {
      assert key < log[n].id;
    }
  }

  lemma InsertedContents(log: Log, r: Record)
    ensures multiset(Inserted(log, r)) == multiset(log) + multiset{r}
    ensures Elements(Inserted(log, r)) == Elements(log) + {r}
  {
    var n := UpperBound(log, r.id);
    var out := Inserted(log, r);
    assert log == log[..n] + log[n..];
    forall x ensures x in out <==> x in log || x == r {
      assert x in log <==> x in log[..n] || x in log[n..];
    }
  }

  lemma InsertedIsSorted(log: Log, r: Record)
    requires Sorted(log)
    ensures Sorted(Inserted(log, r))
  {
    UpperBoundSplits(log, r.id);
  }

  lemma InsertedIsStrict(log: Log, r: Record)
    requires StrictlySorted(log) && !HasId(log, r.id)
    ensures StrictlySorted(Inserted(log, r))
  {
    UpperBoundSplits(log, r.id);
    assert forall j :: 0 <= j < |log| ==> log[j].id != r.id;
  }

  lemma AppendKeepsSorted(e: Env, log: Log, r: Record)
    requires SearchLaw(e) && Sorted(log)
    ensures Sorted(AppendLog(e, log, r))
  {
    hide AppendLog, Inserted;
    AppendOnSorted(e, log, r);
    InsertedIsSorted(log, r);
  }

  lemma AppendAddsOne(e: Env, log: Log, r: Record)
    requires SearchLaw(e)
    ensures Elements(AppendLog(e, log, r)) == Elements(log) + {r}
  {
    hide Walk, DuplicateFrom, Sorted, IsSearchResult, Elements;
    var base := e.search(log, r.id);
    if InOrder(log, r) {
      ElementsAround(log, r, |log|);
      assert log[..|log|] + [r] + log[|log|..] == log + [r];
    } else if DuplicateFrom(log, r, base) {
      DuplicateInLog(log, r, base);
      assert Elements(log) + {r} == Elements(log) by { assert r in Elements(log) by { InElements(log, r); } }
    } else {
      ElementsAround(log, r, Walk(log, r.id, base));
    }
  }

  lemma InElements(log: Log, r: Record)
    ensures r in Elements(log) <==> r in log
  {
  }

  lemma ElementsAround(log: Log, r: Record, n: nat)
    requires n <= |log|
    ensures Elements(log[..n] + [r] + log[n..]) == Elements(log) + {r}
  {
    hide Elements;
    ElementsConcat(log[..n], log[n..]);
    ElementsConcat(log[..n] + [r], log[n..]);
    ElementsConcat(log[..n], [r]);
    assert log == log[..n] + log[n..];
    assert Elements([r]) == {r} by { OneElement(r); }
  }

  lemma OneElement(r: Record)
    ensures Elements([r]) == {r}
  {
  }

  /** Appending a record twice in a row is appending it once, wherever the
      search lands inside a run of equal ids. */
  lemma AppendTwice(e: Env, log: Log, r: Record)
    requires SearchLaw(e) && Sorted(log)
    ensures Sorted(AppendLog(e, log, r))
    ensures AppendLog(e, AppendLog(e, log, r), r) == AppendLog(e, log, r)
  {
    hide AppendLog, Inserted, Sorted, IsSearchResult;
    AppendKeepsSorted(e, log, r);
    AppendOnSorted(e, log, r);
    var once := AppendLog(e, log, r);
    AppendOnSorted(e, once, r);
    if r !in log[e.search(log, r.id)..] { FoundAgain(log, r, e.search(once, r.id)); }
  }

  /** A search that follows an insertion lands at or before the inserted record. */
  lemma FoundAgain(log: Log, r: Record, i: nat)
    requires Sorted(log) && Sorted(Inserted(log, r)) && IsSearchResult(Inserted(log, r), r.id, i)
    ensures i <= |Inserted(log, r)| && r in Inserted(log, r)[i..]
  {
    hide Sorted;
    UpperBoundSplits(log, r.id);
    var once, n := Inserted(log, r), UpperBound(log, r.id);
    assert once[n] == r;
    assert HasId(once, r.id);
    assert forall k :: n < k < |once| ==> once[k] == log[k - 1];
    assert i <= n;
    assert once[i..][n - i] == r;
  }

  // ----- batches -----------------------------------------------------------

  ghost function AppendAll(e: Env, log: Log, rs: seq<Record>): (out: Log)
    requires SearchLaw(e)
    decreases |rs|
  {
    if rs == [] then log else AppendAll(e, AppendLog(e, log, rs[0]), rs[1..])
  }

  lemma {:induction false} AppendAllKeepsSorted(e: Env, log: Log, rs: seq<Record>)
    requires SearchLaw(e) && Sorted(log)
    ensures Sorted(AppendAll(e, log, rs))
    decreases |rs|
  {
    hide Sorted, SearchLaw, AppendLog;
    if rs != [] {
      AppendKeepsSorted(e, log, rs[0]);
      AppendAllKeepsSorted(e, AppendLog(e, log, rs[0]), rs[1..]);
    }
  }

  lemma HeadAndTail(rs: seq<Record>)
    requires rs != []
    ensures Elements(rs) == {rs[0]} + Elements(rs[1..])
  {
    assert rs == [rs[0]] + rs[1..];
  }

  lemma {:induction false} AppendAllAdds(e: Env, log: Log, rs: seq<Record>)
    requires SearchLaw(e)
    ensures Elements(AppendAll(e, log, rs)) == Elements(log) + Elements(rs)
    decreases |rs|
  {
    hide SearchLaw, AppendLog;
    if rs != [] {
      AppendAddsOne(e, log, rs[0]);
      AppendAllAdds(e, AppendLog(e, log, rs[0]), rs[1..]);
      HeadAndTail(rs);
    }
  }

  /** Each record's id is above the one before it, and the first above the log's last. */
  ghost predicate Ordered(log: Log, rs: seq<Record>) {
    && StrictlySorted(rs)
    && (log != [] && rs != [] ==> log[|log| - 1].id < rs[0].id)
  }

  /** The ordered fast path and the merge path of one batch. */
  ghost function BatchLog(e: Env, log: Log, rs: seq<Record>): (out: Log)
    requires SearchLaw(e)
  {
    if Ordered(log, rs) then log + rs else AppendAll(e, log, rs)
  }

  lemma AppendInOrder(e: Env, log: Log, r: Record)
    requires SearchLaw(e) && InOrder(log, r)
    ensures AppendLog(e, log, r) == log + [r]
  {
  }

  lemma OrderedTail(log: Log, rs: seq<Record>)
    requires Sorted(log) && Ordered(log, rs) && rs != []
    ensures InOrder(log, rs[0])
    ensures Sorted(log + [rs[0]]) && Ordered(log + [rs[0]], rs[1..])
  {
  }

  lemma {:induction false} OrderedBatchIsConcatenation(e: Env, log: Log, rs: seq<Record>)
    requires SearchLaw(e) && Sorted(log) && Ordered(log, rs)
    ensures AppendAll(e, log, rs) == log + rs
    decreases |rs|
  {
    hide Sorted, Ordered, SearchLaw, AppendLog;
    if rs == [] {
      assert log + rs == log;
    } else {
      var next := log + [rs[0]];
      OrderedTail(log, rs);
      AppendInOrder(e, log, rs[0]);
      OrderedBatchIsConcatenation(e, next, rs[1..]);
      assert next + rs[1..] == log + rs;
    }
  }

  /** Both paths of a batch give the log that folding the single append gives. */
  lemma BatchIsFold(e: Env, log: Log, rs: seq<Record>)
    requires SearchLaw(e) && Sorted(log)
    ensures BatchLog(e, log, rs) == AppendAll(e, log, rs)
  {
    if Ordered(log, rs) { OrderedBatchIsConcatenation(e, log, rs); }
  }

  // ----- convergence ---------------------------------------------------------

  datatype Delivery = One(record: Record) | Many(records: seq<Record>)

  ghost function Deliver(e: Env, log: Log, d: Delivery): (out: Log)
    requires SearchLaw(e) && Sorted(log)
    ensures Sorted(out)
    ensures Elements(out) == Elements(log) + Delivered(d)
  {
    match d
    case One(r) => AppendKeepsSorted(e, log, r); AppendAddsOne(e, log, r); AppendLog(e, log, r)
    case Many(rs) =>
      BatchIsFold(e, log, rs); AppendAllAdds(e, log, rs); AppendAllKeepsSorted(e, log, rs); BatchLog(e, log, rs)
  }

  ghost function Delivered(d: Delivery): set<Record> {
    match d
    case One(r) => {r}
    case Many(rs) => Elements(rs)
  }

  ghost function DeliverAll(e: Env, log: Log, ds: seq<Delivery>): (out: Log)
    requires SearchLaw(e) && Sorted(log)
    decreases |ds|
  {
    if ds == [] then log else DeliverAll(e, Deliver(e, log, ds[0]), ds[1..])
  }

  ghost function AllDelivered(ds: seq<Delivery>): set<Record> {
    if ds == [] then {} else Delivered(ds[0]) + AllDelivered(ds[1..])
  }

  ghost predicate DistinctIds(rs: set<Record>) {
    forall a, b :: a in rs && b in rs && a.id == b.id ==> a == b
  }

  lemma AppendKeepsStrict(e: Env, log: Log, r: Record)
    requires SearchLaw(e) && StrictlySorted(log) && DistinctIds(Elements(log) + {r})
    ensures StrictlySorted(AppendLog(e, log, r))
  {
    hide AppendLog;
    AppendOnSorted(e, log, r);
    var i := e.search(log, r.id);
    assert IsSearchResult(log, r.id, i);
    if HasId(log, r.id) {
      assert log[i] in Elements(log) + {r} && r in Elements(log) + {r};
      assert log[i] == r;
      assert log[i..][0] == r;
    } else {
      InsertedIsStrict(log, r);
    }
  }

  lemma {:induction false} AppendAllKeepsStrict(e: Env, log: Log, rs: seq<Record>)
    requires SearchLaw(e) && StrictlySorted(log) && DistinctIds(Elements(log) + Elements(rs))
    ensures StrictlySorted(AppendAll(e, log, rs))
    decreases |rs|
  {
    hide SearchLaw, AppendLog, StrictlySorted, Elements;
    if rs != [] {
      var next := AppendLog(e, log, rs[0]);
      HeadAndTail(rs);
      AppendAddsOne(e, log, rs[0]);
      assert Elements(log) + {rs[0]} <= Elements(log) + Elements(rs);
      AppendKeepsStrict(e, log, rs[0]);
      assert Elements(next) + Elements(rs[1..]) == Elements(log) + Elements(rs);
      AppendAllKeepsStrict(e, next, rs[1..]);
    }
  }

  lemma DeliverKeepsStrict(e: Env, log: Log, d: Delivery)
    requires SearchLaw(e) && StrictlySorted(log) && DistinctIds(Elements(log) + Delivered(d))
    ensures StrictlySorted(Deliver(e, log, d))
  {
    match d
    case One(r) => AppendKeepsStrict(e, log, r);
    case Many(rs) => BatchIsFold(e, log, rs); AppendAllKeepsStrict(e, log, rs);
  }

  lemma {:induction false} DeliveriesSort(e: Env, log: Log, ds: seq<Delivery>)
    requires SearchLaw(e) && StrictlySorted(log)
    requires DistinctIds(Elements(log) + AllDelivered(ds))
    ensures StrictlySorted(DeliverAll(e, log, ds))
    ensures Elements(DeliverAll(e, log, ds)) == Elements(log) + AllDelivered(ds)
    decreases |ds|
  {
    if ds != [] {
      DeliverKeepsStrict(e, log, ds[0]);
      DeliveriesSort(e, Deliver(e, log, ds[0]), ds[1..]);
    }
  }

  /** A strictly sorted log is determined by the records in it. */
  lemma {:induction false} StrictLogIsUnique(a: Log, b: Log)
    requires StrictlySorted(a) && StrictlySorted(b) && Elements(a) == Elements(b)
    ensures a == b
    decreases |a|
  {
    if a == [] {
      EmptyElements(b);
    } else if b == [] {
      EmptyElements(a);
    } else {
      FirstIsLeast(a, b);
      FirstIsLeast(b, a);
      assert a[0] == b[0];
      TailElements(a);
      TailElements(b);
      StrictLogIsUnique(a[1..], b[1..]);
      assert a == [a[0]] + a[1..] && b == [b[0]] + b[1..];
    }
  }

  lemma EmptyElements(a: Log)
    ensures Elements(a) == {} ==> a == []
  {
    if a != [] { assert a[0] in Elements(a); }
  }

  lemma FirstIsLeast(a: Log, b: Log)
    requires a != [] && b != [] && StrictlySorted(a) && StrictlySorted(b)
    requires Elements(a) == Elements(b)
    ensures a[0].id <= b[0].id && (a[0].id == b[0].id ==> a[0] == b[0])
  {
    assert b[0] in Elements(b);
    var i :| 0 <= i < |a| && a[i] == b[0];
  }

  lemma TailElements(a: Log)
    requires a != [] && StrictlySorted(a)
    ensures Elements(a[1..]) == Elements(a) - {a[0]}
  {
    assert a == [a[0]] + a[1..];
    forall x | x in a[1..] ensures x != a[0] {
      var i :| 0 <= i < |a[1..]| && a[1..][i] == x;
      assert a[1..][i] == a[i + 1];
    }
  }

  /** Two replicas that were given the same records, in any order, with any
      repeats and any split into single appends and batches, hold the same log,
      and that log is the records in strictly increasing id order. */
  lemma ReplicasConverge(e1: Env, e2: Env, ds1: seq<Delivery>, ds2: seq<Delivery>)
    requires SearchLaw(e1) && SearchLaw(e2)
    requires AllDelivered(ds1) == AllDelivered(ds2) && DistinctIds(AllDelivered(ds1))
    ensures DeliverAll(e1, [], ds1) == DeliverAll(e2, [], ds2)
    ensures StrictlySorted(DeliverAll(e1, [], ds1))
    ensures Elements(DeliverAll(e1, [], ds1)) == AllDelivered(ds1)
  {
    var empty: Log := [];
    assert Elements(empty) + AllDelivered(ds1) == AllDelivered(ds1);
    DeliveriesSort(e1, [], ds1);
    DeliveriesSort(e2, [], ds2);
    StrictLogIsUnique(DeliverAll(e1, [], ds1), DeliverAll(e2, [], ds2));
  }

  // ----- the worker's search loops ---------------------------------------------

  method DuplicateAtOrAfter(log: Log, r: Record, start: nat) returns (found: bool)
    requires start <= |log|
    ensures found <==> DuplicateFrom(log, r, start)
    ensures Sorted(log) && IsSearchResult(log, r.id, start) ==> (found <==> r in log[start..])
  {
    DuplicateInLog(log, r, start);
    if Sorted(log) && IsSearchResult(log, r.id, start) { SearchedBound(log, r.id, start); }
    var idx := start;
    while idx < |log| && log[idx].id == r.id
      invariant start <= idx <= |log|
      invariant DuplicateFrom(log, r, start) <==> DuplicateFrom(log, r, idx)
    {
      if log[idx] == r { return true; }
      idx := idx + 1;
    }
    return false;
  }

  method InsertPosition(log: Log, key: nat, base: nat) returns (pos: nat)
    requires base <= |log|
    ensures pos == Walk(log, key, base)
    ensures Sorted(log) && IsSearchResult(log, key, base) ==> pos == UpperBound(log, key)
  {
    if Sorted(log) && IsSearchResult(log, key, base) {
      SearchedBound(log, key, base);
      WalkToUpperBound(log, key, base);
    }
    pos := base;
    while pos < |log| && log[pos].id <= key
      invariant base <= pos <= |log| && Walk(log, key, pos) == Walk(log, key, base)
    {
      pos := pos + 1;
    }
  }

  // ----- reads -----------------------------------------------------------------

  /** The records whose id is above `from`, found by looking at every record. */
  function KeepAfter(log: Log, from: Option<nat>): (out: Log) {
    if log == [] then []
    else (if from.Some? && log[0].id <= from.value then [] else [log[0]]) + KeepAfter(log[1..], from)
  }

  function KindMatched(kinds: seq<Kind>, kind: Kind): bool {
    if |kinds| == 1 then kind == kinds[0]
    else if |kinds| == 2 then kind == kinds[0] || kind == kinds[1]
    else kind in kinds
  }

  function KeepKinds(log: Log, kinds: seq<Kind>): (out: Log) {
    if log == [] then []
    else (if log[0].kind in kinds then [log[0]] else []) + KeepKinds(log[1..], kinds)
  }

  function Since(e: Env, log: Log, from: Option<nat>): (out: Log)
    requires PartitionLaw(e)
  {
    match from
    case None => log
    case Some(id) => log[e.partition(log, id)..]
  }

  function SinceKinds(log: Log, from: Option<nat>, kinds: seq<Kind>): (out: Log) {
    if kinds == [] || log == [] then []
    else
      (if (from.Some? ==> log[0].id > from.value) && KindMatched(kinds, log[0].kind) then [log[0]] else [])
      + SinceKinds(log[1..], from, kinds)
  }

  lemma {:induction false} KeepAfterSplit(log: Log, from: nat, i: nat)
    requires SplitsAt(log, from, i)
    ensures KeepAfter(log, Some(from)) == log[i..]
    decreases |log|
  {
    if log != [] {
      if i == 0 {
        assert SplitsAt(log[1..], from, 0);
        KeepAfterSplit(log[1..], from, 0);
      } else {
        assert SplitsAt(log[1..], from, i - 1);
        KeepAfterSplit(log[1..], from, i - 1);
        assert log[i..] == log[1..][i - 1..];
      }
    }
  }

  lemma {:induction false} KeepAfterAll(log: Log)
    ensures KeepAfter(log, None) == log
  {
    if log != [] { KeepAfterAll(log[1..]); }
  }

  /** On a sorted log the binary-search read is the linear filter. */
  lemma SinceIsFilter(e: Env, log: Log, from: Option<nat>)
    requires PartitionLaw(e) && Sorted(log)
    ensures Since(e, log, from) == KeepAfter(log, from)
  {
    match from
    case None => KeepAfterAll(log);
    case Some(id) =>
      assert SplitsAt(log, id, e.partition(log, id));
      KeepAfterSplit(log, id, e.partition(log, id));
  }

  lemma {:induction false} KeepAfterMembers(log: Log, from: Option<nat>, r: Record)
    ensures r in KeepAfter(log, from) <==> r in log && (from.Some? ==> r.id > from.value)
  {
    if log != [] {
      assert log == [log[0]] + log[1..];
      KeepAfterMembers(log[1..], from, r);
    }
  }

  lemma KeepAfterUnfolds(log: Log, from: Option<nat>)
    requires log != []
    ensures KeepAfter(log, from) ==
      (if from.Some? && log[0].id <= from.value then [] else [log[0]]) + KeepAfter(log[1..], from)
  {
  }

  lemma KeepAfterNone(from: Option<nat>)
    ensures KeepAfter([], from) == []
  {
  }

  lemma {:induction false} KeepAfterConcat(a: Log, b: Log, from: Option<nat>)
    ensures KeepAfter(a + b, from) == KeepAfter(a, from) + KeepAfter(b, from)
  {
    hide KeepAfter;
    if a == [] {
      assert a + b == b;
      KeepAfterNone(from);
    } else {
      KeepAfterConcat(a[1..], b, from);
      assert (a + b)[1..] == a[1..] + b;
      KeepAfterUnfolds(a, from);
      KeepAfterUnfolds(a + b, from);
      var mine := if from.Some? && a[0].id <= from.value then [] else [a[0]];
      assert mine + (KeepAfter(a[1..], from) + KeepAfter(b, from)) == KeepAfter(a, from) + KeepAfter(b, from);
    }
  }

  /** No suffix of a log with a descent is its filter at the lower of the two ids. */
  lemma DescentIsNoSplit(log: Log, i: nat, j: nat, k: nat)
    requires i < j < |log| && log[j].id < log[i].id && k <= |log|
    ensures KeepAfter(log, Some(log[j].id)) != log[k..]
  {
    hide KeepAfter;
    var from := Some(log[j].id);
    if n :| k <= n < |log| && log[n].id <= log[j].id {
      assert log[k..][n - k] == log[n];
      KeepAfterMembers(log, from, log[n]);
    } else {
      assert log == log[..k] + log[k..] && j < k;
      KeepAfterConcat(log[..k], log[k..], from);
      KeepAfterSplit(log[k..], log[j].id, 0);
      assert log[..k][i] == log[i];
      KeepAfterMembers(log[..k], from, log[i]);
      assert |KeepAfter(log, from)| > |log[k..]|;
    }
  }

  /** The binary-search read is the linear filter for every cursor exactly on sorted logs. */
  lemma SinceIsFilterOnSorted(e: Env, log: Log)
    requires PartitionLaw(e)
    ensures (forall id :: Since(e, log, Some(id)) == KeepAfter(log, Some(id))) <==> Sorted(log)
  {
    hide KeepAfter;
    if Sorted(log) {
      forall id ensures Since(e, log, Some(id)) == KeepAfter(log, Some(id)) { SinceIsFilter(e, log, Some(id)); }
    } else {
      var i, j :| 0 <= i < j < |log| && log[j].id < log[i].id;
      DescentIsNoSplit(log, i, j, e.partition(log, log[j].id));
      assert Since(e, log, Some(log[j].id)) != KeepAfter(log, Some(log[j].id));
    }
  }

  lemma {:induction false} KeepKindsOfNone(log: Log)
    ensures KeepKinds(log, []) == []
  {
    if log != [] { KeepKindsOfNone(log[1..]); }
  }

  /** The filter by kind keeps every occurrence of a record of the listed kinds and no other. */
  lemma {:induction false} KeepKindsMembers(log: Log, kinds: seq<Kind>, r: Record)
    ensures multiset(KeepKinds(log, kinds))[r] == if r.kind in kinds then multiset(log)[r] else 0
  {
    if log != [] {
      KeepKindsMembers(log[1..], kinds, r);
      assert log == [log[0]] + log[1..];
    }
  }

  lemma KeepKindsUnfolds(log: Log, kinds: seq<Kind>)
    requires log != []
    ensures KeepKinds(log, kinds) == (if log[0].kind in kinds then [log[0]] else []) + KeepKinds(log[1..], kinds)
  {
  }

  lemma KeepKindsNone(kinds: seq<Kind>)
    ensures KeepKinds([], kinds) == []
  {
  }

  /** And it keeps them in order. */
  lemma {:induction false} KeepKindsConcat(a: Log, b: Log, kinds: seq<Kind>)
    ensures KeepKinds(a + b, kinds) == KeepKinds(a, kinds) + KeepKinds(b, kinds)
  {
    hide KeepKinds;
    if a == [] {
      assert a + b == b;
      KeepKindsNone(kinds);
    } else {
      KeepKindsConcat(a[1..], b, kinds);
      assert (a + b)[1..] == a[1..] + b;
      KeepKindsUnfolds(a, kinds);
      KeepKindsUnfolds(a + b, kinds);
      var mine := if a[0].kind in kinds then [a[0]] else [];
      var rest := KeepKinds(a[1..], kinds);
      assert mine + (rest + KeepKinds(b, kinds)) == (mine + rest) + KeepKinds(b, kinds);
    }
  }

  /** Reading by kind is the plain read, filtered by kind. */
  lemma {:induction false} SinceKindsIsFilteredRead(log: Log, from: Option<nat>, kinds: seq<Kind>)
    ensures SinceKinds(log, from, kinds) == KeepKinds(KeepAfter(log, from), kinds)
  {
    if kinds == [] {
      KeepKindsOfNone(KeepAfter(log, from));
    } else if log != [] {
      SinceKindsIsFilteredRead(log[1..], from, kinds);
      var rest := KeepAfter(log[1..], from);
      assert KeepAfter(log, from) == rest || KeepAfter(log, from) == [log[0]] + rest;
      assert ([log[0]] + rest)[1..] == rest;
      assert KindMatched(kinds, log[0].kind) <==> log[0].kind in kinds;
    }
  }
}
