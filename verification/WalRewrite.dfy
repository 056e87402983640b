/** The two rewrites of a whole log: realignment, which drops ignored records
    and renumbers the rest with their links, and compaction to the latest schema
    and metadata records; and the latest-write timestamp both must respect. */
module WalRewrite {
  import opened Prelude
  import opened WalRecords

  // ----- the latest write ---------------------------------------------------------

  function LaterOf(a: Option<nat>, b: Option<nat>): (r: Option<nat>) {
    if a.None? then b else if b.None? || b.value <= a.value then a else b
  }

  function WriteTimestamp(r: Record): (ts: Option<nat>) {
    if IsWrite(r) then Some(r.timestamp) else None
  }

  function LatestWrite(log: Log): (ts: Option<nat>) {
    if log == [] then None else LaterOf(WriteTimestamp(log[0]), LatestWrite(log[1..]))
  }

  /** `ts` is the largest timestamp of a write in `rs`, absent when there is no write. */
  ghost predicate IsLatestWrite(rs: set<Record>, ts: Option<nat>) {
    && (ts.None? ==> forall r :: r in rs ==> !IsWrite(r))
    && (ts.Some? ==> exists r :: r in rs && IsWrite(r) && r.timestamp == ts.value)
    && (ts.Some? ==> forall r :: r in rs && IsWrite(r) ==> r.timestamp <= ts.value)
  }

  lemma {:induction false} LatestWriteIsLatest(log: Log)
    ensures IsLatestWrite(Elements(log), LatestWrite(log))
  {
    if log != [] {
      LatestWriteIsLatest(log[1..]);
      assert Elements(log) == {log[0]} + Elements(log[1..]) by { assert log == [log[0]] + log[1..]; }
    }
  }

  lemma LatestWriteIsUnique(rs: set<Record>, a: Option<nat>, b: Option<nat>)
    requires IsLatestWrite(rs, a) && IsLatestWrite(rs, b)
    ensures a == b
  {
    if a.Some? { var r :| r in rs && IsWrite(r) && r.timestamp == a.value; }
    if b.Some? { var r :| r in rs && IsWrite(r) && r.timestamp == b.value; }
  }

  lemma LatestWriteOfUnion(out: Log, a: Log, b: Log)
    requires Elements(out) == Elements(a) + Elements(b)
    ensures LatestWrite(out) == LaterOf(LatestWrite(a), LatestWrite(b))
  {
    LatestWriteIsLatest(a);
    LatestWriteIsLatest(b);
    var ts := LaterOf(LatestWrite(a), LatestWrite(b));
    assert IsLatestWrite(Elements(a) + Elements(b), ts);
    LatestWriteIsLatest(out);
    LatestWriteIsUnique(Elements(out), ts, LatestWrite(out));
  }

  // ----- realignment --------------------------------------------------------------

  function Survivors(log: Log): (out: Log) {
    if log == [] then []
    else (if log[0].kind == Ignore then [] else [log[0]]) + Survivors(log[1..])
  }

  lemma {:induction false} SurvivorsMembers(log: Log, r: Record)
    ensures r in Survivors(log) <==> r in log && r.kind != Ignore
  {
    if log != [] {
      assert log == [log[0]] + log[1..];
      SurvivorsMembers(log[1..], r);
    }
  }

  /** The position of each id among the first `n` records, the last one for a repeated id. */
  function Positions(rs: Log, n: nat): (m: map<nat, nat>)
    requires n <= |rs|
  {
    if n == 0 then map[] else Positions(rs, n - 1)[rs[n - 1].id := n - 1]
  }

  lemma {:induction false} PositionOf(rs: Log, n: nat, i: nat)
    requires i < n <= |rs|
    ensures var m := Positions(rs, n); rs[i].id in m && i <= m[rs[i].id]
  {
    if i < n - 1 { PositionOf(rs, n - 1, i); }
  }

  lemma {:induction false} PositionNames(rs: Log, n: nat, id: nat)
    requires n <= |rs| && id in Positions(rs, n)
    ensures var p := Positions(rs, n)[id]; p < n && rs[p].id == id
  {
    if rs[n - 1].id != id { PositionNames(rs, n - 1, id); }
  }

  function Relinked(link: Option<nat>, positions: map<nat, nat>): (out: Option<nat>) {
    if link.Some? && link.value in positions then Some(positions[link.value]) else None
  }

  function Repositioned(r: Record, i: nat, positions: map<nat, nat>): (out: Record) {
    r.(id := i, refid := Relinked(r.refid, positions), groupid := Relinked(r.groupid, positions))
  }

  function Renumbered(rs: Log): (out: Log)
    ensures |out| == |rs|
  {
    seq(|rs|, i requires 0 <= i < |rs| => Repositioned(rs[i], i, Positions(rs, |rs|)))
  }

  function Realigned(log: Log): (out: Log) {
    Renumbered(Survivors(log))
  }

  predicate RealignRefused(log: Log) {
    Survivors(log) == [] && log != []
  }

  /** Realignment is refused exactly when there are records and none of them is live. */
  lemma RefusalMeaning(log: Log)
    ensures RealignRefused(log) <==> log != [] && forall r :: r in log ==> r.kind == Ignore
  {
    hide Survivors;
    if Survivors(log) == [] {
      forall r | r in log ensures r.kind == Ignore { SurvivorsMembers(log, r); }
    } else {
      SurvivorsMembers(log, Survivors(log)[0]);
    }
  }

  ghost predicate Positional(log: Log) {
    forall i :: 0 <= i < |log| ==> log[i].id == i
  }

  lemma {:induction false} SurvivorsSorted(log: Log)
    requires StrictlySorted(log)
    ensures StrictlySorted(Survivors(log))
  {
    if log != [] {
      SurvivorsSorted(log[1..]);
      var rest := Survivors(log[1..]);
      forall i | 0 <= i < |rest| ensures log[0].id < rest[i].id {
        SurvivorsMembers(log[1..], rest[i]);
      }
    }
  }

  /** The link `before` of a record became `after`: it names the same survivor, or is
      cleared when it named none. */
  ghost predicate LinkKept(rs: Log, before: Option<nat>, after: Option<nat>) {
    && (forall j :: 0 <= j < |rs| ==> (before == Some(rs[j].id) <==> after == Some(j)))
    && (after.Some? ==> after.value < |rs|)
  }

  /** With distinct ids, the records that are not ignored keep their order and
      contents, every id is its position, and exactly the links between them remain. */
  lemma RealignKeepsLinks(log: Log)
    requires StrictlySorted(log)
    ensures var rs, out := Survivors(log), Realigned(log);
      && StrictlySorted(rs) && Elements(rs) == (set r | r in log && r.kind != Ignore)
      && |out| == |rs|
      && Positional(out)
      && forall i :: 0 <= i < |rs| ==>
           && LinkKept(rs, rs[i].refid, out[i].refid)
           && LinkKept(rs, rs[i].groupid, out[i].groupid)
           && out[i] == rs[i].(id := i, refid := out[i].refid, groupid := out[i].groupid)
  {
    SurvivorsSorted(log);
    var rs := Survivors(log);
    forall r ensures r in rs <==> r in log && r.kind != Ignore { SurvivorsMembers(log, r); }
    forall i | 0 <= i < |rs|
      ensures LinkKept(rs, rs[i].refid, Realigned(log)[i].refid)
      ensures LinkKept(rs, rs[i].groupid, Realigned(log)[i].groupid)
    {
      RelinkKeeps(rs, rs[i].refid);
      RelinkKeeps(rs, rs[i].groupid);
    }
  }

  lemma RelinkKeeps(rs: Log, link: Option<nat>)
    requires StrictlySorted(rs)
    ensures LinkKept(rs, link, Relinked(link, Positions(rs, |rs|)))
  {
    var m := Positions(rs, |rs|);
    forall j | 0 <= j < |rs| ensures rs[j].id in m && m[rs[j].id] == j {
      PositionOf(rs, |rs|, j);
      PositionNames(rs, |rs|, rs[j].id);
    }
    if link.Some? && link.value in m { PositionNames(rs, |rs|, link.value); }
  }

  lemma {:induction false} AllSurvive(log: Log)
    requires forall i :: 0 <= i < |log| ==> log[i].kind != Ignore
    ensures Survivors(log) == log
  {
    if log != [] { AllSurvive(log[1..]); }
  }

  lemma RenumberedIsFixed(rs: Log)
    requires Positional(rs)
    requires forall i :: 0 <= i < |rs| ==>
      && (rs[i].refid.Some? ==> rs[i].refid.value < |rs|)
      && (rs[i].groupid.Some? ==> rs[i].groupid.value < |rs|)
    ensures Renumbered(rs) == rs
  {
    var m := Positions(rs, |rs|);
    forall i | 0 <= i < |rs| ensures i in m && m[i] == i {
      PositionOf(rs, |rs|, i);
      PositionNames(rs, |rs|, rs[i].id);
    }
    assert forall i :: 0 <= i < |rs| ==> Repositioned(rs[i], i, m) == rs[i];
  }

  lemma RelinkedInRange(rs: Log, link: Option<nat>)
    ensures var out := Relinked(link, Positions(rs, |rs|)); out.Some? ==> out.value < |rs|
  {
    if link.Some? && link.value in Positions(rs, |rs|) { PositionNames(rs, |rs|, link.value); }
  }

  /** A realigned log is its own realignment, whatever the ids were before. */
  lemma RealignIdempotent(log: Log)
    ensures Realigned(Realigned(log)) == Realigned(log)
  {
    var rs, once := Survivors(log), Realigned(log);
    forall i | 0 <= i < |once| ensures once[i].kind != Ignore {
      SurvivorsMembers(log, rs[i]);
    }
    AllSurvive(once);
    forall i | 0 <= i < |once|
      ensures once[i].refid.Some? ==> once[i].refid.value < |once|
      ensures once[i].groupid.Some? ==> once[i].groupid.value < |once|
    {
      RelinkedInRange(rs, rs[i].refid);
      RelinkedInRange(rs, rs[i].groupid);
    }
    RenumberedIsFixed(once);
  }

  lemma {:induction false} SurvivorsKeepWrites(log: Log)
    ensures LatestWrite(Survivors(log)) == LatestWrite(log)
  {
    if log != [] {
      SurvivorsKeepWrites(log[1..]);
      var rest := Survivors(log[1..]);
      if log[0].kind == Ignore {
        assert Survivors(log) == rest;
      } else {
        assert Survivors(log) == [log[0]] + rest;
        assert Survivors(log)[1..] == rest;
      }
    }
  }

  lemma {:induction false} SameStampsSameLatest(a: Log, b: Log)
    requires |a| == |b|
    requires forall i :: 0 <= i < |a| ==> a[i].kind == b[i].kind && a[i].timestamp == b[i].timestamp
    ensures LatestWrite(a) == LatestWrite(b)
  {
    if a != [] { SameStampsSameLatest(a[1..], b[1..]); }
  }

  lemma RealignKeepsLatestWrite(log: Log)
    ensures LatestWrite(Realigned(log)) == LatestWrite(log)
  {
    SurvivorsKeepWrites(log);
    SameStampsSameLatest(Realigned(log), Survivors(log));
  }

  lemma RealignedIsSorted(log: Log)
    ensures Positional(Realigned(log)) && StrictlySorted(Realigned(log)) && Sorted(Realigned(log))
  {
    assert forall i :: 0 <= i < |Realigned(log)| ==> Realigned(log)[i].id == i;
  }

  method BuildRemap(rs: Log) returns (remap: map<nat, nat>)
    ensures remap == Positions(rs, |rs|)
  {
    remap := map[];
    var position := 0;
    while position < |rs|
      invariant 0 <= position <= |rs|
      invariant remap == Positions(rs, position)
    {
      remap := remap[rs[position].id := position];
      position := position + 1;
    }
  }

  /** The in-memory part of `realign_stream_records`. */
  method Realign(entries: Log) returns (rebuilt: Option<Log>)
    ensures rebuilt.None? <==> RealignRefused(entries)
    ensures rebuilt.None? <==> entries != [] && forall r :: r in entries ==> r.kind == Ignore
    ensures rebuilt.Some? ==> rebuilt.value == Realigned(entries)
  {
    RefusalMeaning(entries);
    var rs := Survivors(entries);
    var remap := BuildRemap(rs);
    if rs != [] { PositionOf(rs, |rs|, 0); }
    if remap == map[] && entries != [] { return None; }
    assert rs == [] ==> remap == map[];
    var out := RewriteLinks(rs, remap);
    assert out == Renumbered(rs);
    return Some(out);
  }

  method RewriteLinks(rs: Log, remap: map<nat, nat>) returns (out: Log)
    ensures |out| == |rs|
    ensures forall i :: 0 <= i < |rs| ==> out[i] == Repositioned(rs[i], i, remap)
  {
    out := rs;
    var position := 0;
    while position < |out|
      invariant 0 <= position <= |out| == |rs|
      invariant forall j :: 0 <= j < position ==> out[j] == Repositioned(rs[j], j, remap)
      invariant forall j :: position <= j < |rs| ==> out[j] == rs[j]
    {
      var record := out[position];
      out := out[position := record.(id := position, refid := Relinked(record.refid, remap),
                                     groupid := Relinked(record.groupid, remap))];
      position := position + 1;
    }
  }

  // ----- compaction ------------------------------------------------------------------

  /** The two classes of records that compaction looks for. */
  datatype Wanted = Schema | Metadata

  predicate Is(w: Wanted, r: Record) {
    match w
    case Schema => r.kind == SchemaChange
    case Metadata => r.kind == MetadataChange || r.kind == SecurityChange
  }

  function LastOf(w: Wanted, log: Log): (r: Option<Record>) {
    if log == [] then None
    else if Is(w, log[|log| - 1]) then Some(log[|log| - 1])
    else LastOf(w, log[..|log| - 1])
  }

  /** `r` is the last record of `log` in class `w`, absent when there is none. */
  ghost predicate IsLast(w: Wanted, log: Log, r: Option<Record>) {
    && (r.None? ==> forall i :: 0 <= i < |log| ==> !Is(w, log[i]))
    && (r.Some? ==> exists i :: 0 <= i < |log| && log[i] == r.value && Is(w, log[i])
                             && forall j :: i < j < |log| ==> !Is(w, log[j]))
  }

  lemma {:induction false} LastOfIsLast(w: Wanted, log: Log)
    ensures IsLast(w, log, LastOf(w, log))
    decreases |log|
  {
    hide Is, IsLast;
    if log == [] {
      LastOfNone(w, log);
    } else {
      var n := |log| - 1;
      if !Is(w, log[n]) { LastOfIsLast(w, log[..n]); }
      LastSnoc(w, log[..n], LastOf(w, log[..n]), log[n]);
      assert log == log[..n] + [log[n]];
    }
  }

  lemma LastOfNone(w: Wanted, log: Log)
    requires log == []
    ensures IsLast(w, log, None)
  {
  }

  lemma LastSnoc(w: Wanted, log: Log, last: Option<Record>, r: Record)
    ensures Is(w, r) ==> IsLast(w, log + [r], Some(r))
    ensures !Is(w, r) && IsLast(w, log, last) ==> IsLast(w, log + [r], last)
  {
    hide Is;
    var out := log + [r];
    assert out[|log|] == r && forall j :: 0 <= j < |log| ==> out[j] == log[j];
    if IsLast(w, log, last) && last.Some? {
      var i :| 0 <= i < |log| && log[i] == last.value && Is(w, log[i]) && forall j :: i < j < |log| ==> !Is(w, log[j]);
      assert out[i] == last.value;
    }
  }

  function RetainedIds(log: Log): (ids: set<nat>) {
    (if LastOf(Schema, log).Some? then {LastOf(Schema, log).value.id} else {})
    + (if LastOf(Metadata, log).Some? then {LastOf(Metadata, log).value.id} else {})
  }

  function Dropped(r: Record): (out: Record) {
    r.(kind := Ignore, refid := None, payload := None)
  }

  function Marked(log: Log, ids: set<nat>): (out: Log)
    ensures |out| == |log|
  {
    seq(|log|, i requires 0 <= i < |log| => if log[i].id in ids then log[i] else Dropped(log[i]))
  }

  /** The records of `log` that compaction keeps, before renumbering. */
  function Kept(log: Log): (out: Log) {
    Survivors(Marked(log, RetainedIds(log)))
  }

  function Marker(actor: string, timestamp: nat): (r: Record) {
    Record(0, None, None, timestamp, actor, Truncate, None)
  }

  function ClearLostRef(r: Record, ids: set<nat>): (out: Record) {
    if r.refid.Some? && r.refid.value !in ids then r.(refid := None) else r
  }

  function Compacted(log: Log, actor: string, timestamp: nat): (out: Log)
    ensures |out| == |Kept(log)| + 1
  {
    var kept := Kept(log);
    var ids := RetainedIds(log);
    seq(|kept| + 1, i requires 0 <= i <= |kept| =>
      (if i < |kept| then ClearLostRef(kept[i], ids) else Marker(actor, timestamp)).(id := i))
  }

  ghost function SetOf(r: Option<Record>): set<Record> {
    if r.Some? then {r.value} else {}
  }

  lemma KeptMembers(log: Log, r: Record)
    ensures r in Kept(log) <==> r in log && r.id in RetainedIds(log) && r.kind != Ignore
  {
    var ids := RetainedIds(log);
    var marked := Marked(log, ids);
    SurvivorsMembers(marked, r);
    if r in log && r.id in ids {
      var i :| 0 <= i < |log| && log[i] == r;
      assert marked[i] == r;
    }
    if r in marked && r.kind != Ignore {
      var i :| 0 <= i < |marked| && marked[i] == r;
      assert log[i] == r;
    }
  }

  /** Compacting a log with distinct ids leaves the latest schema record, the
      latest metadata-or-security record, in log order, and one truncate marker,
      all numbered by position. */
  lemma CompactionKeepsLatest(log: Log, actor: string, timestamp: nat)
    requires StrictlySorted(log)
    ensures IsLast(Schema, log, LastOf(Schema, log)) && IsLast(Metadata, log, LastOf(Metadata, log))
    ensures StrictlySorted(Kept(log))
    ensures Elements(Kept(log)) == SetOf(LastOf(Schema, log)) + SetOf(LastOf(Metadata, log))
    ensures var kept, out := Kept(log), Compacted(log, actor, timestamp);
      && |out| == |kept| + 1 && Positional(out)
      && out[|kept|] == Marker(actor, timestamp).(id := |kept|)
      && forall i :: 0 <= i < |kept| ==>
           out[i] == kept[i].(id := i, refid := out[i].refid)
           && out[i].refid == if kept[i].refid.Some? && kept[i].refid.value in RetainedIds(log)
                              then kept[i].refid else None
  {
    LastOfIsLast(Schema, log);
    LastOfIsLast(Metadata, log);
    SurvivorsSorted(Marked(log, RetainedIds(log)));
    KeptIsLatest(log);
  }

  /** The last record of `log` whose kind is one of `kinds`, absent when there is none. */
  ghost predicate IsLastOf(kinds: set<Kind>, log: Log, r: Option<Record>) {
    if r.None? then forall i :: 0 <= i < |log| ==> log[i].kind !in kinds
    else exists i :: 0 <= i < |log| && log[i] == r.value && log[i].kind in kinds
                     && forall j :: i < j < |log| ==> log[j].kind !in kinds
  }

  lemma LastOfKinds(w: Wanted, kinds: set<Kind>, log: Log, r: Option<Record>)
    requires forall x: Record :: Is(w, x) <==> x.kind in kinds
    requires IsLastOf(kinds, log, r)
    ensures LastOf(w, log) == r
  {
    LastOfIsLast(w, log);
    if r.Some? && LastOf(w, log).Some? {
      var i :| 0 <= i < |log| && log[i] == r.value && log[i].kind in kinds
               && forall j :: i < j < |log| ==> log[j].kind !in kinds;
      var k :| 0 <= k < |log| && log[k] == LastOf(w, log).value && Is(w, log[k])
               && forall j :: k < j < |log| ==> !Is(w, log[j]);
      assert i == k;
    }
  }

  /** An id that the compacted log may still refer to. */
  ghost predicate Names(id: nat, r: Option<Record>) { r.Some? && r.value.id == id }

  /** The same in the log's own terms: of a log with distinct ids, the last schema
      change and the last metadata or security change stay, in log order, with the
      references among them; behind them stands a truncate record of the caller. */
  lemma CompactionLeaves(log: Log, actor: string, timestamp: nat, schema: Option<Record>, metadata: Option<Record>)
    requires StrictlySorted(log)
    requires IsLastOf({SchemaChange}, log, schema) && IsLastOf({MetadataChange, SecurityChange}, log, metadata)
    ensures var out := Compacted(log, actor, timestamp);
      exists kept: Log ::
        && StrictlySorted(kept) && Elements(kept) == SetOf(schema) + SetOf(metadata)
        && |out| == |kept| + 1
        && out[|kept|] == Record(|kept|, None, None, timestamp, actor, Truncate, None)
        && forall i :: 0 <= i < |kept| ==>
             && out[i] == kept[i].(id := i, refid := out[i].refid)
             && out[i].refid ==
                if kept[i].refid.Some? && (Names(kept[i].refid.value, schema) || Names(kept[i].refid.value, metadata))
                then kept[i].refid else None
  {
    hide Compacted, Kept, LastOf, StrictlySorted;
    LastOfKinds(Schema, {SchemaChange}, log, schema);
    LastOfKinds(Metadata, {MetadataChange, SecurityChange}, log, metadata);
    CompactionKeepsLatest(log, actor, timestamp);
    var kept, out := Kept(log), Compacted(log, actor, timestamp);
    assert forall id :: id in RetainedIds(log) <==> Names(id, schema) || Names(id, metadata);
    assert StrictlySorted(kept) && Elements(kept) == SetOf(schema) + SetOf(metadata) && |out| == |kept| + 1;
  }

  lemma LastOfMembers(w: Wanted, log: Log, r: Record)
    requires StrictlySorted(log)
    ensures r in SetOf(LastOf(w, log)) ==> r in log && Is(w, r)
    ensures r in log && LastOf(w, log).Some? && r.id == LastOf(w, log).value.id ==> r in SetOf(LastOf(w, log))
  {
    LastOfIsLast(w, log);
    if r in log {
      var i :| 0 <= i < |log| && log[i] == r;
    }
  }

  lemma KeptIsLatest(log: Log)
    requires StrictlySorted(log)
    ensures Elements(Kept(log)) == SetOf(LastOf(Schema, log)) + SetOf(LastOf(Metadata, log))
  {
    hide Kept, LastOf, StrictlySorted;
    forall r ensures r in Elements(Kept(log)) <==> r in SetOf(LastOf(Schema, log)) + SetOf(LastOf(Metadata, log)) {
      KeptMembers(log, r);
      LastOfMembers(Schema, log, r);
      LastOfMembers(Metadata, log, r);
    }
  }

  lemma KeptWriteStays(log: Log, actor: string, timestamp: nat, r: Record)
    requires r in Kept(log) && IsWrite(r)
    ensures exists w :: w in Compacted(log, actor, timestamp) && IsWrite(w)
  {
    var i :| 0 <= i < |Kept(log)| && Kept(log)[i] == r;
    var w := Compacted(log, actor, timestamp)[i];
    assert IsWrite(w);
  }

  lemma CompactedWriteWasKept(log: Log, actor: string, timestamp: nat, w: Record)
    requires w in Compacted(log, actor, timestamp) && IsWrite(w)
    ensures exists r :: r in Kept(log) && IsWrite(r)
  {
    var i :| 0 <= i <= |Kept(log)| && Compacted(log, actor, timestamp)[i] == w;
    assert Compacted(log, actor, timestamp)[|Kept(log)|] == Marker(actor, timestamp).(id := |Kept(log)|);
    var r := Kept(log)[i];
    assert IsWrite(r);
  }

  /** No write is left exactly when no write shares an id with a retained record. */
  lemma CompactionDropsWrites(log: Log, actor: string, timestamp: nat)
    ensures LatestWrite(Compacted(log, actor, timestamp)).None? <==>
            forall r :: r in log && IsWrite(r) ==> r.id !in RetainedIds(log)
  {
    var out := Compacted(log, actor, timestamp);
    LatestWriteIsLatest(out);
    assert forall w :: w in out ==> w in Elements(out);
    if LatestWrite(out).None? {
      forall r | r in log && IsWrite(r) ensures r.id !in RetainedIds(log) {
        KeptMembers(log, r);
        if r in Kept(log) {
          KeptWriteStays(log, actor, timestamp, r);
        }
      }
    } else {
      var w :| w in Elements(out) && IsWrite(w);
      CompactedWriteWasKept(log, actor, timestamp, w);
      var r :| r in Kept(log) && IsWrite(r);
      KeptMembers(log, r);
    }
  }

  /** A write that shares the id of the latest schema record is kept with it. */
  lemma SharedIdWriteIsKept(schema: Record, write: Record, actor: string, timestamp: nat)
    requires Is(Schema, schema) && IsWrite(write) && write.id == schema.id
    ensures Sorted([schema, write]) && LatestWrite(Compacted([schema, write], actor, timestamp)).Some?
  {
    var log := [schema, write];
    LastOfIsLast(Schema, log);
    CompactionDropsWrites(log, actor, timestamp);
    assert write in log && write.id in RetainedIds(log);
  }

  lemma CompactionDropsWritesOfDistinct(log: Log, actor: string, timestamp: nat)
    requires StrictlySorted(log)
    ensures LatestWrite(Compacted(log, actor, timestamp)).None?
  {
    KeptIsLatest(log);
    LastOfIsLast(Schema, log);
    LastOfIsLast(Metadata, log);
    forall r | r in log && IsWrite(r) ensures r.id !in RetainedIds(log) {
      KeptMembers(log, r);
      assert r in Kept(log) <==> r in Elements(Kept(log));
    }
    CompactionDropsWrites(log, actor, timestamp);
  }

  lemma CompactedIsSorted(log: Log, actor: string, timestamp: nat)
    ensures var out := Compacted(log, actor, timestamp);
      Positional(out) && StrictlySorted(out) && Sorted(out)
  {
    var out := Compacted(log, actor, timestamp);
    assert forall i :: 0 <= i < |out| ==> out[i].id == i;
  }

  /** `compact_entries_to_latest_schema_and_metadata`. */
  method Compact(entries: Log, actor: string, timestamp: nat) returns (out: Log)
    ensures out == Compacted(entries, actor, timestamp)
  {
    var latestSchema, latestMetadata := FindLatest(entries);
    var ids: set<nat> := {};
    if latestSchema.Some? { ids := ids + {latestSchema.value.id}; }
    if latestMetadata.Some? { ids := ids + {latestMetadata.value.id}; }
    assert ids == RetainedIds(entries);
    var marked := Mark(entries, ids);
    out := Renumber(Survivors(marked), ids, Marker(actor, timestamp));
  }

  method FindLatest(entries: Log) returns (latestSchema: Option<Record>, latestMetadata: Option<Record>)
    ensures latestSchema == LastOf(Schema, entries)
    ensures latestMetadata == LastOf(Metadata, entries)
  {
    latestSchema, latestMetadata := None, None;
    var n := |entries|;
    assert entries[..n] == entries;
    while n > 0 && !(latestSchema.Some? && latestMetadata.Some?)
      invariant 0 <= n <= |entries|
      invariant LastOf(Schema, entries) == if latestSchema.Some? then latestSchema else LastOf(Schema, entries[..n])
      invariant LastOf(Metadata, entries) ==
        if latestMetadata.Some? then latestMetadata else LastOf(Metadata, entries[..n])
    {
      var record := entries[n - 1];
      assert entries[..n][..n - 1] == entries[..n - 1];
      if latestSchema.None? && record.kind == SchemaChange {
        latestSchema := Some(record);
      }
      if latestMetadata.None? && (record.kind == MetadataChange || record.kind == SecurityChange) {
        latestMetadata := Some(record);
      }
      n := n - 1;
    }
  }

  method Mark(entries: Log, ids: set<nat>) returns (marked: Log)
    ensures marked == Marked(entries, ids)
  {
    marked := entries;
    var i := 0;
    while i < |marked|
      invariant 0 <= i <= |marked| == |entries|
      invariant forall j :: 0 <= j < i ==> marked[j] == Marked(entries, ids)[j]
      invariant forall j :: i <= j < |entries| ==> marked[j] == entries[j]
    {
      if marked[i].id !in ids {
        marked := marked[i := marked[i].(kind := Ignore, refid := None, payload := None)];
      }
      i := i + 1;
    }
  }

  method Renumber(kept: Log, ids: set<nat>, marker: Record) returns (out: Log)
    ensures |out| == |kept| + 1
    ensures forall i :: 0 <= i < |kept| ==> out[i] == ClearLostRef(kept[i], ids).(id := i)
    ensures out[|kept|] == marker.(id := |kept|)
  {
    out := kept;
    var i := 0;
    while i < |out|
      invariant 0 <= i <= |out| == |kept|
      invariant forall j :: 0 <= j < i ==> out[j] == ClearLostRef(kept[j], ids)
      invariant forall j :: i <= j < |kept| ==> out[j] == kept[j]
    {
      if out[i].refid.Some? && out[i].refid.value !in ids {
        out := out[i := out[i].(refid := None)];
      }
      i := i + 1;
    }
    out := out + [marker];
    ghost var cleared := out;
    i := 0;
    while i < |out|
      invariant 0 <= i <= |out| == |cleared|
      invariant forall j :: 0 <= j < i ==> out[j] == cleared[j].(id := j)
      invariant forall j :: i <= j < |out| ==> out[j] == cleared[j]
    {
      out := out[i := out[i].(id := i)];
      i := i + 1;
    }
  }
}
