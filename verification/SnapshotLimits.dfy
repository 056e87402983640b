/** Eviction of transaction snapshots by age and by number, which rolls the
    evicted sessions back in the coordinator. */
module SnapshotLimits {
  import opened Prelude
  import opened Coordinator
  import opened CoordinatorLoop

  function BeginOf(begins: map<Session, nat>, s: Session): (t: nat) {
    if s in begins then begins[s] else 0
  }

  /** An order that sorting the snapshots by begin time may produce. */
  ghost predicate ByAge(order: seq<Session>, snapshots: set<Session>, begins: map<Session, nat>) {
    && NoRepeats(order) && Elements(order) == snapshots
    && forall i, j :: 0 <= i < j < |order| ==> BeginOf(begins, order[i]) <= BeginOf(begins, order[j])
  }

  /** Older than the limit; a begin time in the future has age zero. */
  predicate PastLimit(begins: map<Session, nat>, s: Session, now: nat, ttl: nat) {
    s in begins && begins[s] <= now && now - begins[s] >= ttl
  }

  function Expired(begins: map<Session, nat>, now: nat, ttl: nat): (r: set<Session>) {
    if ttl == 0 then {} else set s | s in begins && PastLimit(begins, s, now, ttl)
  }

  function Overflow(order: seq<Session>, max: nat): (r: seq<Session>) {
    if max == 0 || |order| <= max then [] else order[..|order| - max]
  }

  function Evicted(begins: map<Session, nat>, order: seq<Session>, now: nat, ttl: nat, max: nat): (r: set<Session>) {
    if order == [] then {} else Expired(begins, now, ttl) + Elements(Overflow(order, max))
  }

  lemma SizeOfDistinct(s: seq<Session>)
    requires NoRepeats(s)
    ensures |Elements(s)| == |s|
  {
    if s != [] {
      var n := |s| - 1;
      SizeOfDistinct(s[..n]);
      assert s == s[..n] + [s[n]];
      assert Elements(s) == Elements(s[..n]) + {s[n]};
    }
  }

  /** After eviction no more than the limit of snapshots remain, none of them
      past its time, and no evicted session began later than a surviving one. */
  lemma EvictionBounds(begins: map<Session, nat>, snapshots: set<Session>, order: seq<Session>,
                       now: nat, ttl: nat, max: nat)
    requires ByAge(order, snapshots, begins)
    ensures var left := snapshots - Evicted(begins, order, now, ttl, max);
      && (max > 0 ==> |left| <= max)
      && (ttl > 0 ==> forall s :: s in left ==> !PastLimit(begins, s, now, ttl))
      && (snapshots <= begins.Keys ==>
           forall gone, kept :: gone in Evicted(begins, order, now, ttl, max) && kept in left ==>
             gone in begins && begins[gone] <= begins[kept])
  {
    var evicted := Evicted(begins, order, now, ttl, max);
    var left := snapshots - evicted;
    if order == [] {
      assert snapshots == {};
    } else if max > 0 {
      LeftIsTail(snapshots, order, max, evicted);
    }
    if snapshots <= begins.Keys {
      forall gone, kept | gone in evicted && kept in left
        ensures gone in begins && begins[gone] <= begins[kept]
      {
        if gone !in Expired(begins, now, ttl) {
          OverflowIsOldest(begins, snapshots, order, max, gone, kept);
        }
      }
    }
  }

  /** A session is evicted exactly when there is a snapshot and either the session
      began at least the time limit ago, or it is a snapshot with at least the limit
      of snapshots behind it in age order. */
  lemma EvictedExactly(begins: map<Session, nat>, snapshots: set<Session>, order: seq<Session>,
                       now: nat, ttl: nat, max: nat, s: Session)
    requires ByAge(order, snapshots, begins)
    ensures s in Evicted(begins, order, now, ttl, max) <==>
      && snapshots != {}
      && (|| (ttl > 0 && s in begins && begins[s] + ttl <= now)
          || (max > 0 && exists i :: 0 <= i < |order| && order[i] == s && |order| - 1 - i >= max))
  {
    if order == [] {
      assert snapshots == {};
    } else {
      assert order[0] in Elements(order);
      if max > 0 && |order| > max {
        var n := |order| - max;
        if s in order[..n] {
          var i :| 0 <= i < n && order[..n][i] == s;
          assert order[i] == s;
        }
        if i :| 0 <= i < |order| && order[i] == s && |order| - 1 - i >= max { assert order[..n][i] == s; }
      }
    }
  }

  /** Eviction by number takes no more than it must. */
  lemma OverflowIsMinimal(begins: map<Session, nat>, snapshots: set<Session>, order: seq<Session>,
                          now: nat, ttl: nat, max: nat)
    requires ByAge(order, snapshots, begins)
    requires ttl == 0 || forall s :: s in snapshots ==> !(s in begins && begins[s] + ttl <= now)
    ensures |snapshots - Evicted(begins, order, now, ttl, max)| ==
      if max == 0 || |snapshots| <= max then |snapshots| else max
  {
    hide Evicted, ByAge;
    OrderFacts(order, snapshots, begins);
    SizeOfDistinct(order);
    var n := if max == 0 || |order| <= max then 0 else |order| - max;
    var left := snapshots - Evicted(begins, order, now, ttl, max);
    forall s ensures s in left <==> s in Elements(order[n..]) {
      EvictedExactly(begins, snapshots, order, now, ttl, max, s);
      InTail(order, n, s);
    }
    assert left == Elements(order[n..]);
    SizeOfDistinct(order[n..]);
  }

  lemma OrderFacts(order: seq<Session>, snapshots: set<Session>, begins: map<Session, nat>)
    requires ByAge(order, snapshots, begins)
    ensures NoRepeats(order) && Elements(order) == snapshots
  {
  }

  /** In an order without repeats a session is in the tail exactly when it is not in front of it. */
  lemma InTail(order: seq<Session>, n: nat, s: Session)
    requires NoRepeats(order) && n <= |order|
    ensures NoRepeats(order[n..])
    ensures s in Elements(order[n..]) <==> s in Elements(order) && !exists i :: 0 <= i < n && order[i] == s
  {
    if s in order[n..] {
      var j :| 0 <= j < |order| - n && order[n..][j] == s;
      assert order[n + j] == s;
    }
    if s in order {
      var i :| 0 <= i < |order| && order[i] == s;
      if i >= n { assert order[n..][i - n] == s; }
    }
  }

  lemma LeftIsTail(snapshots: set<Session>, order: seq<Session>, max: nat, evicted: set<Session>)
    requires NoRepeats(order) && Elements(order) == snapshots && max > 0
    requires Elements(Overflow(order, max)) <= evicted
    ensures |snapshots - evicted| <= max
  {
    var n := if |order| <= max then 0 else |order| - max;
    var tail := order[n..];
    assert order == order[..n] + tail;
    assert snapshots - evicted <= Elements(tail);
    SizeOfDistinct(tail);
    SubsetSize(snapshots - evicted, Elements(tail));
  }

  lemma SubsetSize(a: set<Session>, b: set<Session>)
    requires a <= b
    ensures |a| <= |b|
  {
    assert b == a + (b - a);
  }

  lemma OverflowIsOldest(begins: map<Session, nat>, snapshots: set<Session>, order: seq<Session>,
                         max: nat, gone: Session, kept: Session)
    requires ByAge(order, snapshots, begins)
    requires gone in Overflow(order, max) && kept in snapshots && kept !in Overflow(order, max)
    ensures gone in snapshots && BeginOf(begins, gone) <= BeginOf(begins, kept)
  {
    var n := |order| - max;
    assert order == order[..n] + order[n..];
    var i :| 0 <= i < n && order[..n][i] == gone;
    assert kept in Elements(order);
    var j :| 0 <= j < |order| - n && order[n..][j] == kept;
    assert gone == order[i] && kept == order[n + j] && gone in Elements(order);
  }

  // ----- rolling the evicted sessions back --------------------------------------------

  function RolledBack(st: State, s: Session): (st': State) {
    Released(Unstaged(st, s), s)
  }

  function AllRolledBack(st: State, ss: seq<Session>): (st': State) {
    if ss == [] then st else RolledBack(AllRolledBack(st, ss[..|ss| - 1]), ss[|ss| - 1])
  }

  /** The session has nothing in the coordinator. */
  ghost predicate Absent(st: State, s: Session) {
    s !in st.staged && s !in st.held && forall t :: t in st.owner ==> st.owner[t] != s
  }

  ghost predicate SameFor(st: State, st': State, s: Session) {
    && StagedFor(st', s) == StagedFor(st, s)
    && HeldBy(st', s) == HeldBy(st, s)
    && forall t :: Holds(st', s, t) <==> Holds(st, s, t)
  }

  lemma RolledBackEffect(st: State, s: Session, o: Session)
    requires Inverse(st)
    ensures Inverse(RolledBack(st, s)) && Absent(RolledBack(st, s), s)
    ensures o != s ==> SameFor(st, RolledBack(st, s), o)
    ensures Absent(st, o) ==> Absent(RolledBack(st, s), o)
  {
    InverseIgnoresStage(st, st.staged - {s});
    ReleasedKeepsInverse(Unstaged(st, s), s);
  }

  /** Exactly the listed sessions lose their staged queries and locks. */
  lemma {:induction false} AllRolledBackEffect(st: State, ss: seq<Session>, o: Session)
    requires Inverse(st)
    ensures Inverse(AllRolledBack(st, ss))
    ensures o in ss ==> Absent(AllRolledBack(st, ss), o)
    ensures o !in ss ==> SameFor(st, AllRolledBack(st, ss), o)
    decreases |ss|
  {
    hide Inverse, RolledBack, Absent;
    if ss != [] {
      var n := |ss| - 1;
      AllRolledBackEffect(st, ss[..n], o);
      assert ss == ss[..n] + [ss[n]];
      RolledBackEffect(AllRolledBack(st, ss[..n]), ss[n], o);
    }
  }

  class SnapshotStore {
    const coordinator: CoordinatorWorker
    var begins: map<Session, nat>
    var snapshots: set<Session>
    var observations: set<Session>

    constructor (c: CoordinatorWorker)
      ensures coordinator == c && begins == map[] && snapshots == {} && observations == {}
    {
      coordinator := c;
      begins, snapshots, observations := map[], {}, {};
    }

    method FindExpired(now: nat, ttl: nat) returns (expired: seq<Session>)
      requires ttl > 0
      ensures NoRepeats(expired) && Elements(expired) == Expired(begins, now, ttl)
    {
      expired := [];
      var rest := begins.Keys;
      while rest != {}
        invariant rest <= begins.Keys && NoRepeats(expired)
        invariant Elements(expired) == set s | s in begins.Keys - rest && PastLimit(begins, s, now, ttl)
        decreases rest
      {
        var s :| s in rest;
        assert s !in Elements(expired);
        var age := if begins[s] <= now then now - begins[s] else 0;
        if age >= ttl {
          ElementsConcat(expired, [s]);
          expired := expired + [s];
        }
        rest := rest - {s};
      }
    }

    method AddOverflow(found: seq<Session>, oldest: seq<Session>) returns (toRemove: seq<Session>)
      ensures Elements(toRemove) == Elements(found) + Elements(oldest)
    {
      toRemove := found;
      var i := 0;
      while i < |oldest|
        invariant 0 <= i <= |oldest|
        invariant Elements(toRemove) == Elements(found) + Elements(oldest[..i])
      {
        assert oldest[..i + 1] == oldest[..i] + [oldest[i]];
        ElementsConcat(oldest[..i], [oldest[i]]);
        if oldest[i] !in toRemove {
          ElementsConcat(toRemove, [oldest[i]]);
          toRemove := toRemove + [oldest[i]];
        } else {
          assert oldest[i] in Elements(toRemove);
        }
        i := i + 1;
      }
      assert oldest[..i] == oldest;
    }

    /** The sessions to evict, in the order in which they were found. */
    method FindEvicted(now: nat, ttl: nat, max: nat, order: seq<Session>) returns (toRemove: seq<Session>)
      requires ByAge(order, snapshots, begins)
      ensures Elements(toRemove) == Evicted(begins, order, now, ttl, max)
    {
      hide Expired, PastLimit;
      SizeOfDistinct(order);
      toRemove := [];
      if snapshots == {} { return; }
      NoLimitNoExpiry(begins, now);
      if ttl == 0 && max == 0 { return; }
      if ttl > 0 { toRemove := FindExpired(now, ttl); }
      if max > 0 && |snapshots| > max {
        toRemove := AddOverflow(toRemove, order[..|snapshots| - max]);
      }
    }

    lemma NoLimitNoExpiry(begins: map<Session, nat>, now: nat)
      ensures Expired(begins, now, 0) == {}
    {
    }

    /** `enforce_transaction_snapshot_limits`; `order` is what sorting the
        snapshots by begin time gives. */
    method EnforceLimits(now: nat, ttl: nat, max: nat, order: seq<Session>) returns (ghost evicted: set<Session>)
      requires ByAge(order, snapshots, begins)
      modifies this, coordinator
      ensures evicted == Evicted(old(begins), order, now, ttl, max)
      ensures snapshots == old(snapshots) - evicted
      ensures begins == old(begins) - evicted && observations == old(observations) - evicted
      ensures forall s :: s in evicted <==>
        && old(snapshots) != {}
        && (|| (ttl > 0 && s in old(begins) && old(begins)[s] + ttl <= now)
            || (max > 0 && exists i :: 0 <= i < |order| && order[i] == s && |order| - 1 - i >= max))
      ensures max > 0 ==> |snapshots| <= max
      ensures ttl > 0 ==> forall s :: s in snapshots ==> !PastLimit(begins, s, now, ttl)
      ensures old(Inverse(coordinator.Current())) ==>
        && Inverse(coordinator.Current())
        && (forall s :: s in evicted ==> Absent(coordinator.Current(), s))
        && (forall s :: s !in evicted ==> SameFor(old(coordinator.Current()), coordinator.Current(), s))
    {
      hide Inverse, Absent, SameFor, AllRolledBack, Evicted, ByAge, Elements;
      evicted := Evicted(begins, order, now, ttl, max);
      EvictionBounds(begins, snapshots, order, now, ttl, max);
      forall s
        ensures s in evicted <==>
          && snapshots != {}
          && (|| (ttl > 0 && s in begins && begins[s] + ttl <= now)
              || (max > 0 && exists i :: 0 <= i < |order| && order[i] == s && |order| - 1 - i >= max))
      {
        EvictedExactly(begins, snapshots, order, now, ttl, max, s);
      }
      NothingRolledBack(coordinator.Current());
      var toRemove := FindEvicted(now, ttl, max, order);
      if toRemove == [] {
        NoElements();
        return;
      }
      RemoveAll(toRemove);
    }

    lemma NoElements()
      ensures Elements<Session>([]) == {}
    {
    }

    method RemoveAll(toRemove: seq<Session>)
      modifies this, coordinator
      ensures snapshots == old(snapshots) - Elements(toRemove)
      ensures begins == old(begins) - Elements(toRemove)
      ensures observations == old(observations) - Elements(toRemove)
      ensures coordinator.Current() == AllRolledBack(old(coordinator.Current()), toRemove)
      ensures old(Inverse(coordinator.Current())) ==>
        && Inverse(coordinator.Current())
        && (forall s :: s in Elements(toRemove) ==> Absent(coordinator.Current(), s))
        && (forall s :: s !in Elements(toRemove) ==> SameFor(old(coordinator.Current()), coordinator.Current(), s))
    {
      hide Inverse, Absent, SameFor, Released, Unstaged;
      var i := 0;
      while i < |toRemove|
        invariant 0 <= i <= |toRemove|
        invariant snapshots == old(snapshots) - Elements(toRemove[..i])
        invariant begins == old(begins) - Elements(toRemove[..i])
        invariant observations == old(observations) - Elements(toRemove[..i])
        invariant coordinator.Current() == AllRolledBack(old(coordinator.Current()), toRemove[..i])
      {
        var s := toRemove[i];
        assert toRemove[..i + 1] == toRemove[..i] + [s] && toRemove[..i + 1][..i] == toRemove[..i];
        ElementsConcat(toRemove[..i], [s]);
        var _ := coordinator.Rollback(s);
        begins := begins - {s};
        snapshots := snapshots - {s};
        observations := observations - {s};
        i := i + 1;
      }
      assert toRemove[..i] == toRemove;
      if old(Inverse(coordinator.Current())) {
        AllRolledBackEffect(old(coordinator.Current()), toRemove, "");
        forall s
          ensures s in toRemove ==> Absent(coordinator.Current(), s)
          ensures s !in toRemove ==> SameFor(old(coordinator.Current()), coordinator.Current(), s)
        {
          AllRolledBackEffect(old(coordinator.Current()), toRemove, s);
        }
      }
    }

    lemma NothingRolledBack(st: State)
      ensures forall s :: SameFor(st, st, s)
    {
    }
  }
}
