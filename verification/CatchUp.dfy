/** Catch-up rounds between two nodes: the source exports, per stream, the
    records after the follower's cursor; the follower imports them one by one
    and keeps the largest id it saw in each stream as its next cursor. */
module CatchUp {
  import opened Prelude
  import opened WalRecords
  import opened WalLog
  import opened WalManager

  type StreamId = string
  type Logs = map<StreamId, Log>
  type Cursors = map<StreamId, nat>

  datatype Frame = Frame(stream: StreamId, record: Record)

  function LogOf(logs: Logs, st: StreamId): (log: Log) {
    if st in logs then logs[st] else []
  }

  function CursorOf(cursors: Cursors, st: StreamId): (c: Option<nat>) {
    if st in cursors then Some(cursors[st]) else None
  }

  // ----- export ---------------------------------------------------------------------

  ghost predicate Earlier(a: Record, b: Record) {
    a.timestamp < b.timestamp || (a.timestamp == b.timestamp && a.id <= b.id)
  }

  /** `export_wal_records_for_database`: every record after the cursor of its
      stream, all streams merged by timestamp and id. */
  ghost predicate IsExport(frames: seq<Frame>, source: Logs, cursors: Cursors) {
    && (forall i, j :: 0 <= i < j < |frames| ==> Earlier(frames[i].record, frames[j].record))
    && (forall f: Frame :: f in frames <==> f.record in KeepAfter(LogOf(source, f.stream), CursorOf(cursors, f.stream)))
  }

  // ----- import ---------------------------------------------------------------------------

  ghost predicate AllStrict(logs: Logs) {
    forall st :: st in logs ==> StrictlySorted(logs[st])
  }

  ghost predicate AllSorted(logs: Logs) {
    forall st :: st in logs ==> Sorted(logs[st])
  }

  ghost function ImportOne(e: Env, logs: Logs, f: Frame): (out: Logs)
    requires SearchLaw(e) && AllSorted(logs)
    ensures AllSorted(out)
  {
    var log := LogOf(logs, f.stream);
    if HasId(log, f.record.id) then logs
    else
      AppendKeepsSorted(e, log, f.record);
      logs[f.stream := AppendLog(e, log, f.record)]
  }

  ghost function ImportAll(e: Env, logs: Logs, frames: seq<Frame>): (out: Logs)
    requires SearchLaw(e) && AllSorted(logs)
    ensures AllSorted(out)
  {
    if frames == [] then logs
    else ImportOne(e, ImportAll(e, logs, frames[..|frames| - 1]), frames[|frames| - 1])
  }

  /** Every record of `logs` is a record of the same stream of `source`. */
  ghost predicate Within(logs: Logs, source: Logs) {
    forall st, r :: st in logs && r in logs[st] ==> r in LogOf(source, st)
  }

  lemma ImportOneEffect(e: Env, logs: Logs, source: Logs, f: Frame)
    requires SearchLaw(e) && AllStrict(logs) && AllStrict(source) && Within(logs, source)
    requires f.record in LogOf(source, f.stream)
    ensures AllSorted(logs)
    ensures var out := ImportOne(e, logs, f);
      && AllStrict(out) && Within(out, source)
      && forall st, r :: r in LogOf(out, st) <==> r in LogOf(logs, st) || Frame(st, r) == f
  {
    hide SearchLaw, AppendLog, Sorted;
    StrictIsSorted(logs);
    StrictLogOf(logs, f.stream);
    StrictLogOf(source, f.stream);
    hide StrictlySorted;
    var log := LogOf(logs, f.stream);
    var all := LogOf(source, f.stream);
    if HasId(log, f.record.id) {
      var j :| 0 <= j < |log| && log[j].id == f.record.id;
      assert log[j] in log && log[j] in all;
      SameIdSameRecord(all, log[j], f.record);
    } else {
      AppendFresh(e, log, f.record);
    }
  }

  lemma StrictLogOf(logs: Logs, st: StreamId)
    requires AllStrict(logs)
    ensures StrictlySorted(LogOf(logs, st)) && Sorted(LogOf(logs, st))
  {
  }

  lemma SortedLogOf(logs: Logs, st: StreamId)
    requires AllSorted(logs)
    ensures Sorted(LogOf(logs, st))
  {
  }

  lemma SameIdSameRecord(log: Log, a: Record, b: Record)
    requires StrictlySorted(log) && a in log && b in log && a.id == b.id
    ensures a == b
  {
  }

  lemma AppendFresh(e: Env, log: Log, r: Record)
    requires SearchLaw(e) && StrictlySorted(log) && !HasId(log, r.id)
    ensures StrictlySorted(AppendLog(e, log, r))
    ensures forall x :: x in AppendLog(e, log, r) <==> x in log || x == r
  {
    assert forall x :: x in log ==> x.id != r.id;
    assert DistinctIds(Elements(log) + {r});
    AppendKeepsStrict(e, log, r);
    AppendAddsOne(e, log, r);
    assert forall x :: x in AppendLog(e, log, r) <==> x in Elements(AppendLog(e, log, r));
  }

  /** Importing frames of the source adds exactly their records, in id order, whatever order they came in. */
  lemma {:induction false} ImportAllEffect(e: Env, logs: Logs, source: Logs, frames: seq<Frame>)
    requires SearchLaw(e) && AllStrict(logs) && AllStrict(source) && Within(logs, source)
    requires forall f :: f in frames ==> f.record in LogOf(source, f.stream)
    ensures AllSorted(logs)
    ensures var out := ImportAll(e, logs, frames);
      && AllStrict(out) && Within(out, source)
      && forall st, r :: r in LogOf(out, st) <==> r in LogOf(logs, st) || Frame(st, r) in frames
    decreases |frames|
  {
    hide SearchLaw, AllStrict, Within, ImportOne, StrictlySorted, Sorted;
    StrictIsSorted(logs);
    if frames != [] {
      var n := |frames| - 1;
      assert frames == frames[..n] + [frames[n]];
      ImportAllEffect(e, logs, source, frames[..n]);
      ImportOneEffect(e, ImportAll(e, logs, frames[..n]), source, frames[n]);
    }
  }

  lemma StrictIsSorted(logs: Logs)
    requires AllStrict(logs)
    ensures AllSorted(logs)
  {
  }

  // ----- cursors ------------------------------------------------------------------------------

  /** The largest id seen in each stream. */
  function MaxSeen(frames: seq<Frame>): (cursors: Cursors) {
    if frames == [] then map[]
    else
      var seen, f := MaxSeen(frames[..|frames| - 1]), frames[|frames| - 1];
      if f.stream in seen && seen[f.stream] >= f.record.id then seen else seen[f.stream := f.record.id]
  }

  /** `cursors` holds the largest id of each stream that occurs in `frames`, and nothing else. */
  ghost predicate AreLargest(cursors: Cursors, frames: seq<Frame>) {
    && (forall f :: f in frames ==> f.stream in cursors && f.record.id <= cursors[f.stream])
    && (forall st :: st in cursors ==> exists f :: f in frames && f.stream == st && f.record.id == cursors[st])
  }

  lemma {:induction false} MaxSeenIsLargest(frames: seq<Frame>)
    ensures AreLargest(MaxSeen(frames), frames)
    decreases |frames|
  {
    if frames != [] {
      var n := |frames| - 1;
      MaxSeenIsLargest(frames[..n]);
      assert frames == frames[..n] + [frames[n]];
      LargestSnoc(MaxSeen(frames[..n]), frames[..n], frames[n]);
    }
  }

  lemma LargestSnoc(seen: Cursors, frames: seq<Frame>, f: Frame)
    requires AreLargest(seen, frames)
    ensures var out :=
        if f.stream in seen && seen[f.stream] >= f.record.id then seen else seen[f.stream := f.record.id];
      AreLargest(out, frames + [f])
  {
    var out := if f.stream in seen && seen[f.stream] >= f.record.id then seen else seen[f.stream := f.record.id];
    assert f in frames + [f];
    forall st | st in out ensures exists g :: g in frames + [f] && g.stream == st && g.record.id == out[st] {
      if st in seen && out[st] == seen[st] {
        var g :| g in frames && g.stream == st && g.record.id == seen[st];
        assert g in frames + [f];
      }
    }
  }

  // ----- rounds ----------------------------------------------------------------------------------

  /** `cursors` is the stored map; `sent` the copy taken when the poll began,
      which every round of that poll sends. */
  datatype World = World(source: Logs, follower: Logs, cursors: Cursors, sent: Cursors)

  /** A source append, the start of a poll, a round that never came back, one
      whose import failed after `k` frames, one imported whole, and a restart of
      the follower, which keeps its logs but no cursor; the same source may answer
      on several addresses. */
  datatype Event =
    | Grow(stream: StreamId, record: Record)
    | Poll
    | Lost
    | PartlyImported(answers: seq<seq<Frame>>, k: nat)
    | Imported(answers: seq<seq<Frame>>)
    | Restart

  function Joined(answers: seq<seq<Frame>>): (r: seq<Frame>) {
    if answers == [] then [] else Joined(answers[..|answers| - 1]) + answers[|answers| - 1]
  }

  ghost predicate AllExports(answers: seq<seq<Frame>>, w: World) {
    answers != [] && forall i :: 0 <= i < |answers| ==> IsExport(answers[i], w.source, w.sent)
  }

  ghost predicate Enabled(w: World, ev: Event) {
    match ev
    case Grow(st, r) =>
      var log := LogOf(w.source, st);
      log == [] || log[|log| - 1].id < r.id
    case Poll => true
    case Lost => true
    case PartlyImported(answers, k) => AllExports(answers, w) && k <= |Joined(answers)|
    case Imported(answers) => AllExports(answers, w)
    case Restart => true
  }

  ghost function After(e: Env, w: World, ev: Event): (w': World)
    requires SearchLaw(e) && AllSorted(w.follower)
  {
    match ev
    case Grow(st, r) => w.(source := w.source[st := LogOf(w.source, st) + [r]])
    case Poll => w.(sent := w.cursors)
    case Lost => w
    case PartlyImported(answers, k) =>
      if k <= |Joined(answers)| then w.(follower := ImportAll(e, w.follower, Joined(answers)[..k])) else w
    case Imported(answers) =>
      var all := Joined(answers);
      w.(follower := ImportAll(e, w.follower, all), cursors := if all == [] then w.cursors else MaxSeen(all))
    case Restart => w.(cursors := map[], sent := map[])
  }

  /** Every source record up to a cursor is already in the follower's log. */
  ghost predicate Sound(w: World, cursors: Cursors) {
    forall st :: st in cursors ==>
      && HasId(LogOf(w.source, st), cursors[st])
      && forall r :: r in LogOf(w.source, st) && r.id <= cursors[st] ==> r in LogOf(w.follower, st)
  }

  ghost predicate Inv(w: World) {
    && AllStrict(w.source) && AllStrict(w.follower) && Within(w.follower, w.source)
    && Sound(w, w.cursors) && Sound(w, w.sent)
  }

  ghost predicate SameLogs(a: Logs, b: Logs) {
    forall st :: LogOf(a, st) == LogOf(b, st)
  }

  lemma {:induction false} JoinedMembers(answers: seq<seq<Frame>>, f: Frame)
    ensures f in Joined(answers) <==> exists i :: 0 <= i < |answers| && f in answers[i]
    decreases |answers|
  {
    if answers != [] {
      var n := |answers| - 1;
      JoinedMembers(answers[..n], f);
      if f in Joined(answers[..n]) {
        var i :| 0 <= i < n && f in answers[..n][i];
        assert f in answers[i];
      }
      if i :| 0 <= i < |answers| && f in answers[i] {
        assert i < n ==> f in answers[..n][i];
      }
    }
  }

  lemma ExportedIsFromSource(frames: seq<Frame>, source: Logs, cursors: Cursors)
    requires IsExport(frames, source, cursors)
    ensures forall f: Frame :: f in frames <==>
      f.record in LogOf(source, f.stream) && (f.stream in cursors ==> f.record.id > cursors[f.stream])
  {
    forall f: Frame
      ensures f in frames <==>
        f.record in LogOf(source, f.stream) && (f.stream in cursors ==> f.record.id > cursors[f.stream])
    {
      KeepAfterMembers(LogOf(source, f.stream), CursorOf(cursors, f.stream), f.record);
    }
  }

  lemma JoinedExports(answers: seq<seq<Frame>>, source: Logs, cursors: Cursors, f: Frame)
    requires answers != [] && forall i :: 0 <= i < |answers| ==> IsExport(answers[i], source, cursors)
    ensures f in Joined(answers) <==>
      f.record in LogOf(source, f.stream) && (f.stream in cursors ==> f.record.id > cursors[f.stream])
  {
    hide IsExport, Joined;
    JoinedMembers(answers, f);
    ExportedIsFromSource(answers[0], source, cursors);
    if i :| 0 <= i < |answers| && f in answers[i] { ExportedIsFromSource(answers[i], source, cursors); }
  }

  /** A round that is imported whole leaves the follower with the source's logs. */
  lemma ImportedRoundCatchesUp(e: Env, w: World, answers: seq<seq<Frame>>)
    requires SearchLaw(e) && Inv(w) && Enabled(w, Imported(answers))
    ensures AllSorted(w.follower)
    ensures SameLogs(After(e, w, Imported(answers)).follower, w.source)
    ensures AllStrict(After(e, w, Imported(answers)).follower)
  {
    var all := Joined(answers);
    StrictIsSorted(w.follower);
    forall f: Frame
      ensures f in all <==>
        f.record in LogOf(w.source, f.stream) && (f.stream in w.sent ==> f.record.id > w.sent[f.stream])
    {
      JoinedExports(answers, w.source, w.sent, f);
    }
    ImportAllEffect(e, w.follower, w.source, all);
    var out := ImportAll(e, w.follower, all);
    forall st ensures LogOf(out, st) == LogOf(w.source, st) {
      forall r ensures r in LogOf(out, st) <==> r in LogOf(w.source, st) {
        assert Frame(st, r) in all || !(r in LogOf(w.source, st)) || (st in w.sent && r.id <= w.sent[st]);
        assert r in LogOf(w.follower, st) ==> r in LogOf(w.source, st);
      }
      assert Elements(LogOf(out, st)) == Elements(LogOf(w.source, st));
      StrictLogIsUnique(LogOf(out, st), LogOf(w.source, st));
    }
  }

  lemma ImportedKeepsInv(e: Env, w: World, answers: seq<seq<Frame>>)
    requires SearchLaw(e) && Inv(w) && Enabled(w, Imported(answers))
    ensures AllSorted(w.follower) && Inv(After(e, w, Imported(answers)))
  {
    hide SearchLaw, ImportAll, StrictlySorted, Sorted, IsExport, Joined, MaxSeen;
    ImportedRoundCatchesUp(e, w, answers);
    var w' := After(e, w, Imported(answers));
    var all := Joined(answers);
    if all != [] {
      forall st | st in MaxSeen(all) ensures HasId(LogOf(w.source, st), MaxSeen(all)[st]) {
        MaxSeenIsLargest(all);
        var f :| f in all && f.stream == st && f.record.id == MaxSeen(all)[st];
        JoinedExports(answers, w.source, w.sent, f);
      }
    }
  }

  /** Cursors make progress: in the poll after a round imported whole, the source
      exports nothing of the streams received in that round, and nothing at all if
      the round had asked for everything. */
  lemma NothingTwice(e: Env, w: World, answers: seq<seq<Frame>>, frames: seq<Frame>)
    requires SearchLaw(e) && Inv(w) && Enabled(w, Imported(answers)) && Joined(answers) != []
    requires AllSorted(w.follower) && AllSorted(After(e, w, Imported(answers)).follower)
    requires var w2 := After(e, After(e, w, Imported(answers)), Poll); IsExport(frames, w2.source, w2.sent)
    ensures forall f, g :: f in frames && g in Joined(answers) ==> f.stream != g.stream
    ensures w.sent == map[] ==> frames == []
  {
    hide SearchLaw, ImportAll, StrictlySorted, Sorted, IsExport, Joined, MaxSeen, Inv;
    var all := Joined(answers);
    MaxSeenIsLargest(all);
    ExportedIsFromSource(frames, w.source, MaxSeen(all));
    InvStrict(w);
    forall f, g | f in frames && g in all ensures f.stream != g.stream {
      if f.stream == g.stream { NotAboveLargest(w, answers, f); }
    }
    if w.sent == map[] && frames != [] {
      JoinedExports(answers, w.source, w.sent, frames[0]);
    }
  }

  lemma InvStrict(w: World)
    requires Inv(w)
    ensures AllStrict(w.source) && Sound(w, w.sent)
  {
  }

  /** A source record of a received stream is not above what was received of it. */
  lemma NotAboveLargest(w: World, answers: seq<seq<Frame>>, f: Frame)
    requires f.record in LogOf(w.source, f.stream)
    ensures Enabled(w, Imported(answers)) && f.stream in MaxSeen(Joined(answers)) ==>
      f.record.id <= MaxSeen(Joined(answers))[f.stream]
  {
    hide IsExport, Joined, MaxSeen;
    var all := Joined(answers);
    MaxSeenIsLargest(all);
    if Enabled(w, Imported(answers)) && f.stream in MaxSeen(all) {
      JoinedExports(answers, w.source, w.sent, f);
      if f !in all {
        var g :| g in all && g.stream == f.stream && g.record.id == MaxSeen(all)[f.stream];
        JoinedExports(answers, w.source, w.sent, g);
      }
    }
  }

  lemma PartKeepsInv(e: Env, w: World, answers: seq<seq<Frame>>, k: nat)
    requires SearchLaw(e) && Inv(w) && Enabled(w, PartlyImported(answers, k))
    ensures AllSorted(w.follower) && Inv(After(e, w, PartlyImported(answers, k)))
  {
    hide SearchLaw, ImportAll, StrictlySorted, Sorted, IsExport, Joined;
    var part := Joined(answers)[..k];
    forall f | f in part ensures f.record in LogOf(w.source, f.stream) {
      assert f in Joined(answers);
      JoinedExports(answers, w.source, w.sent, f);
    }
    ImportAllEffect(e, w.follower, w.source, part);
  }

  lemma GrowKeepsInv(e: Env, w: World, st: StreamId, r: Record)
    requires SearchLaw(e) && Inv(w) && Enabled(w, Grow(st, r))
    ensures AllSorted(w.follower) && Inv(After(e, w, Grow(st, r)))
  {
    StrictIsSorted(w.follower);
    var log := LogOf(w.source, st);
    var w' := After(e, w, Grow(st, r));
    assert StrictlySorted(log + [r]);
    assert forall x :: x in log ==> x in log + [r];
    GrowKeepsSound(w, w', st, r, w.cursors);
    GrowKeepsSound(w, w', st, r, w.sent);
  }

  lemma GrowKeepsSound(w: World, w': World, st: StreamId, r: Record, cursors: Cursors)
    requires Sound(w, cursors) && StrictlySorted(LogOf(w.source, st)) && Enabled(w, Grow(st, r))
    requires w'.source == w.source[st := LogOf(w.source, st) + [r]] && w'.follower == w.follower
    ensures Sound(w', cursors)
  {
    var log := LogOf(w.source, st);
    if st in cursors {
      var j :| 0 <= j < |log| && log[j].id == cursors[st];
      assert (log + [r])[j].id == cursors[st];
      assert cursors[st] <= log[|log| - 1].id < r.id;
    }
  }

  /** One event keeps every source record up to every stored and every sent
      cursor in the follower's log. */
  lemma EventKeepsInv(e: Env, w: World, ev: Event)
    requires SearchLaw(e) && Inv(w) && Enabled(w, ev)
    ensures AllSorted(w.follower) && Inv(After(e, w, ev))
  {
    StrictIsSorted(w.follower);
    match ev
    case Grow(st, r) => GrowKeepsInv(e, w, st, r);
    case Poll =>
    case Lost =>
    case PartlyImported(answers, k) => PartKeepsInv(e, w, answers, k);
    case Imported(answers) => ImportedKeepsInv(e, w, answers);
    case Restart =>
  }

  /** A run of events, each possible where it happens. */
  ghost predicate IsRun(e: Env, ws: seq<World>, evs: seq<Event>)
    requires SearchLaw(e)
  {
    && |ws| == |evs| + 1
    && forall i :: 0 <= i < |evs| ==>
         Enabled(ws[i], evs[i]) && AllSorted(ws[i].follower) && ws[i + 1] == After(e, ws[i], evs[i])
  }

  /** No cursor yet; the follower may hold any part of the source's records. */
  ghost predicate Starts(w: World) {
    && AllStrict(w.source) && AllStrict(w.follower) && Within(w.follower, w.source)
    && w.cursors == map[] && w.sent == map[]
  }

  /** Catch-up is sound over every run: through any mix of lost, failed and
      completed rounds and restarts the cursors never pass a record the follower lacks, and
      whenever a round completes the two nodes hold the same logs. */
  lemma {:induction false} CatchUpIsSound(e: Env, ws: seq<World>, evs: seq<Event>, n: nat)
    requires SearchLaw(e) && IsRun(e, ws, evs) && Starts(ws[0]) && n <= |evs|
    ensures Inv(ws[n])
    ensures n > 0 && evs[n - 1].Imported? ==> SameLogs(ws[n].follower, ws[n].source)
  {
    hide SearchLaw, AllStrict, Within, Sound, AllSorted, ImportAll, SameLogs;
    if n == 0 {
      StartIsInv(ws[0]);
    } else {
      CatchUpIsSound(e, ws, evs, n - 1);
      var ev := evs[n - 1];
      EventKeepsInv(e, ws[n - 1], ev);
      assert ws[n - 1 + 1] == After(e, ws[n - 1], evs[n - 1]);
      if ev.Imported? { ImportedRoundCatchesUp(e, ws[n - 1], ev.answers); }
    }
  }

  lemma StartIsInv(w: World)
    requires Starts(w)
    ensures Inv(w)
  {
  }

  // ----- the follower ----------------------------------------------------------------------------

  class Follower {
    const e: Env
    var logs: Logs
    var cursors: Cursors

    constructor (env: Env)
      ensures e == env && logs == map[] && cursors == map[]
    {
      e := env;
      logs, cursors := map[], map[];
    }

    /** The receiving half of `execute_live_wal_catchup_sync`. */
    method Collect(answers: seq<seq<Frame>>) returns (maxSeen: Cursors, imported: seq<Frame>)
      ensures imported == Joined(answers) && maxSeen == MaxSeen(imported) && AreLargest(maxSeen, imported)
    {
      hide MaxSeen, AreLargest;
      maxSeen, imported := map[], [];
      MaxSeenIsLargest([]);
      MaxSeenSnoc([], None);
      var i := 0;
      while i < |answers|
        invariant 0 <= i <= |answers|
        invariant imported == Joined(answers[..i]) && maxSeen == MaxSeen(imported)
      {
        assert answers[..i + 1][..i] == answers[..i];
        maxSeen, imported := CollectOne(answers[i], maxSeen, imported);
        i := i + 1;
      }
      assert answers[..i] == answers;
      MaxSeenIsLargest(imported);
    }

    /** The frames of one answer. */
    method CollectOne(answer: seq<Frame>, seen: Cursors, before: seq<Frame>)
      returns (maxSeen: Cursors, imported: seq<Frame>)
      requires seen == MaxSeen(before)
      ensures imported == before + answer && maxSeen == MaxSeen(imported)
    {
      hide MaxSeen;
      maxSeen, imported := seen, before;
      var j := 0;
      while j < |answer|
        invariant 0 <= j <= |answer|
        invariant imported == before + answer[..j] && maxSeen == MaxSeen(imported)
      {
        var f := answer[j];
        MaxSeenSnoc(imported, Some(f));
        assert answer[..j + 1] == answer[..j] + [f];
        if !(f.stream in maxSeen && f.record.id <= maxSeen[f.stream]) {
          maxSeen := maxSeen[f.stream := f.record.id];
        }
        imported := imported + [f];
        j := j + 1;
      }
      assert answer[..j] == answer;
    }

    lemma MaxSeenSnoc(frames: seq<Frame>, next: Option<Frame>)
      ensures MaxSeen([]) == map[]
      ensures next.Some? ==>
        var seen, f := MaxSeen(frames), next.value;
        MaxSeen(frames + [f]) ==
          if f.stream in seen && seen[f.stream] >= f.record.id then seen else seen[f.stream := f.record.id]
    {
      if next.Some? { assert (frames + [next.value])[..|frames|] == frames; }
    }

    method KnownIds(st: StreamId) returns (ids: set<nat>)
      ensures AreIds(ids, LogOf(logs, st))
    {
      var log := LogOf(logs, st);
      ids := set r | r in log :: r.id;
      forall id ensures id in ids <==> HasId(log, id) {
        if HasId(log, id) {
          var j :| 0 <= j < |log| && log[j].id == id;
          assert log[j] in log;
        }
      }
    }

    static ghost predicate AreIds(ids: set<nat>, log: Log) {
      forall id :: id in ids <==> HasId(log, id)
    }

    /** Append a record that is not known by id. */
    method ImportNew(f: Frame)
      requires Lawful(e) && AllSorted(logs) && !HasId(LogOf(logs, f.stream), f.record.id)
      modifies this`logs
      ensures logs == ImportOne(e, old(logs), f) && AllSorted(logs)
      ensures forall st :: st != f.stream ==> LogOf(logs, st) == old(LogOf(logs, st))
      ensures forall ids :: AreIds(ids, old(LogOf(logs, f.stream))) ==>
        AreIds(ids + {f.record.id}, LogOf(logs, f.stream))
    {
      hide SearchLaw, CodecLaw, PartitionLaw, AppendLog, Sorted, HasId;
      SortedLogOf(logs, f.stream);
      var log := LogOf(logs, f.stream);
      var out, _ := MergeOne(e, log, f.record);
      IdsAfterAppend(e, log, f.record);
      logs := logs[f.stream := out];
    }

    /** The log refuses an append at frame `failAt`, and the import gets there:
        the record is not known by id. */
    static ghost predicate Fails(e: Env, logs: Logs, frames: seq<Frame>, failAt: Option<nat>)
      requires SearchLaw(e) && AllSorted(logs)
    {
      && failAt.Some? && failAt.value < |frames|
      && var f := frames[failAt.value];
         !HasId(LogOf(ImportAll(e, logs, frames[..failAt.value]), f.stream), f.record.id)
    }

    /** `import_wal_records`: append what is not known by id; `failAt` is the
        frame at which the log refuses an append, if it comes to one. */
    method ImportRecords(frames: seq<Frame>, failAt: Option<nat>) returns (ok: bool, ghost done: nat)
      requires Lawful(e) && AllSorted(logs)
      modifies this`logs
      ensures ok <==> !Fails(e, old(logs), frames, failAt)
      ensures done == (if ok then |frames| else failAt.value) <= |frames|
      ensures logs == ImportAll(e, old(logs), frames[..done]) && AllSorted(logs)
    {
      hide SearchLaw, CodecLaw, PartitionLaw, AppendLog, Sorted, AllSorted, HasId, ImportOne, ImportAll;
      var known: map<StreamId, set<nat>> := map[];
      ImportNone(e, logs);
      assert frames[..0] == [];
      var i := 0;
      while i < |frames|
        invariant 0 <= i <= |frames| && AllSorted(logs)
        invariant logs == ImportAll(e, old(logs), frames[..i])
        invariant forall st :: st in known ==> AreIds(known[st], LogOf(logs, st))
        invariant failAt.Some? && failAt.value < i ==> !Fails(e, old(logs), frames, failAt)
      {
        var f := frames[i];
        ImportSnoc(e, old(logs), frames, i);
        if f.stream !in known {
          var ids := KnownIds(f.stream);
          known := known[f.stream := ids];
        }
        if f.record.id !in known[f.stream] {
          if failAt == Some(i) { return false, i; }
          ImportNew(f);
          known := known[f.stream := known[f.stream] + {f.record.id}];
        }
        i := i + 1;
      }
      assert frames[..i] == frames;
      return true, i;
    }

    lemma ImportSnoc(e: Env, logs: Logs, frames: seq<Frame>, i: nat)
      requires SearchLaw(e) && AllSorted(logs) && i < |frames|
      ensures var before := ImportAll(e, logs, frames[..i]);
        && ImportAll(e, logs, frames[..i + 1]) == ImportOne(e, before, frames[i])
        && (HasId(LogOf(before, frames[i].stream), frames[i].record.id) ==> ImportOne(e, before, frames[i]) == before)
    {
      hide SearchLaw, AllSorted, AppendLog, HasId;
      assert frames[..i + 1][..i] == frames[..i];
    }

    lemma IdsAfterAppend(e: Env, log: Log, r: Record)
      requires SearchLaw(e) && Sorted(log)
      ensures forall id :: HasId(AppendLog(e, log, r), id) <==> HasId(log, id) || id == r.id
    {
      AppendAddsOne(e, log, r);
      var out := AppendLog(e, log, r);
      forall id ensures HasId(out, id) <==> HasId(log, id) || id == r.id {
        IdOfElement(out, id);
        IdOfElement(log, id);
      }
    }

    lemma IdOfElement(log: Log, id: nat)
      ensures HasId(log, id) <==> exists r :: r in Elements(log) && r.id == id
    {
      if HasId(log, id) {
        var j :| 0 <= j < |log| && log[j].id == id;
        assert log[j] in Elements(log);
      }
    }

    /** One round: collect the answers, import them, and on success replace the
        stored cursors by what was seen, unless nothing was. */
    method CatchUpRound(answers: seq<seq<Frame>>, failAt: Option<nat>) returns (ok: bool)
      requires Lawful(e) && AllSorted(logs)
      modifies this
      ensures AllSorted(logs)
      ensures ok <==> !Fails(e, old(logs), Joined(answers), failAt)
      ensures logs == ImportAll(e, old(logs), if ok then Joined(answers) else Joined(answers)[..failAt.value])
      ensures cursors == if !ok || Joined(answers) == [] then old(cursors) else MaxSeen(Joined(answers))
      ensures cursors == old(cursors) || AreLargest(cursors, Joined(answers))
      ensures forall w: World :: w.follower == old(logs) && w.cursors == old(cursors) ==>
        var ev := if ok then Imported(answers) else PartlyImported(answers, failAt.value);
        After(e, w, ev) == w.(follower := logs, cursors := cursors)
    {
      hide SearchLaw, CodecLaw, PartitionLaw, ImportAll, MaxSeen, Joined;
      var maxSeen, imported := Collect(answers);
      if imported == [] {
        ImportNone(e, logs);
        assert imported[..0] == [];
        return true;
      }
      ghost var done: nat;
      ok, done := ImportRecords(imported, failAt);
      assert done == |imported| ==> imported[..done] == imported;
      if ok { cursors := maxSeen; }
    }

    lemma ImportNone(e: Env, logs: Logs)
      requires SearchLaw(e) && AllSorted(logs)
      ensures ImportAll(e, logs, []) == logs
    {
    }
  }
}
