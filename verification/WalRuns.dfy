/** Whole runs of one stream: durability across every safe run, convergence of
    replicas that also restart and drop their caches, and the three ways the
    file and the memory come apart. */
module WalRuns {
  import opened Prelude
  import opened WalRecords
  import opened WalLog
  import opened WalFrames
  import opened WalRewrite
  import opened WalStream

  /** Every call of the run is safe in the state it is made in. */
  ghost predicate SafeRun(e: Env, s: Stream, ops: seq<Op>)
    requires SearchLaw(e)
    decreases |ops|
  {
    ops == [] || (Safe(e, s, ops[0]) && SafeRun(e, Next(e, s, ops[0]).0, ops[1..]))
  }

  /** The stream after a run of calls, safe or not. */
  ghost function Run(e: Env, s: Stream, ops: seq<Op>): (s': Stream)
    requires SearchLaw(e)
    decreases |ops|
  {
    if ops == [] then s else Run(e, Next(e, s, ops[0]).0, ops[1..])
  }

  lemma {:induction false} SafeRunStaysInSync(e: Env, s: Stream, ops: seq<Op>)
    requires Lawful(e) && InSync(e, s) && SafeRun(e, s, ops)
    ensures InSync(e, Run(e, s, ops))
    decreases |ops|
  {
    hide Safe, InSync, Next;
    if ops != [] {
      SyncStep(e, s, ops[0]);
      SafeRunStaysInSync(e, Next(e, s, ops[0]).0, ops[1..]);
    }
  }

  /** After any run of safe calls the file decodes to exactly
      the log in memory, a restart or a dropped cache gives that log back, the
      log is sorted, and the cached timestamp is the log's latest write. */
  lemma RunIsDurable(e: Env, s: Stream, ops: seq<Op>)
    requires Lawful(e) && InSync(e, s) && SafeRun(e, s, ops)
    ensures var s' := Run(e, s, ops);
      var log := CurrentLog(e, s');
      && FileLog(e, s'.file) == log
      && CurrentLog(e, AfterRestart(s')) == log
      && CurrentLog(e, AfterInvalidate(s')) == log
      && Sorted(log)
      && (s'.storage.Some? ==> s'.highWater == LatestWrite(log))
  {
    var s' := Run(e, s, ops);
    SafeRunStaysInSync(e, s, ops);
    HeldLogLoads(e, s'.file, CurrentLog(e, s'));
    RestartRestores(e, s');
  }

  /** A stream opened over a header and whole frames is in sync with them, and a
      new one is empty: either may start a run. */
  lemma OpenedStreamIsInSync(e: Env, log: Log)
    requires CodecLaw(e) && AllFit(e, log) && Sorted(log)
    ensures var s := Stream(None, Some(Image(e, log)), None, false); InSync(e, s) && CurrentLog(e, s) == log
    ensures InSync(e, FRESH) && CurrentLog(e, FRESH) == []
  {
    LoadOfImage(e, log);
  }

  /** Clearing empties the log, or, when its write fails, leaves it as it was. */
  lemma ClearEffect(e: Env, s: Stream, disk: Disk)
    requires CodecLaw(e) && InSync(e, s)
    ensures CurrentLog(e, AfterClear(s, disk).0) == if disk.writeOk then [] else CurrentLog(e, s)
  {
    RestartRestores(e, s);
    LoadOfImage(e, []);
  }

  // ----- what a reader sees ------------------------------------------------------------------

  /** The file decodes to the log in memory, and a cached timestamp is its latest write. */
  ghost predicate Agrees(e: Env, s: Stream) {
    FileLog(e, s.file) == CurrentLog(e, s) && (s.storage.Some? ==> s.highWater == LatestWrite(CurrentLog(e, s)))
  }

  /** The file has its header, or the call that creates it can write one. */
  predicate HeaderFor(s: Stream, op: Op) {
    (op.Append? || op.Batch? || op.Compaction?) ==> HeaderReady(s, op.disk)
  }

  lemma UnfitImage(e: Env, log: Log, rs: seq<Record>, out: Log)
    requires CodecLaw(e) && AllFit(e, log) && Encodable(e, rs) && !AllFit(e, rs)
    requires Elements(out) == Elements(log) + Elements(rs)
    ensures Encodable(e, out) && Load(e, Image(e, out)) != out && out != log
  {
    FitOfElements(e, out, log, rs);
    LoadOfImage(e, out);
  }

  lemma UnsafeBatchDisagrees(e: Env, s: Stream, rs: seq<Record>, disk: Disk)
    requires Lawful(e) && InSync(e, s) && HeaderReady(s, disk) && !Safe(e, s, Batch(rs, disk))
    ensures !Agrees(e, AfterBatch(e, s, rs, disk).0)
  {
    hide Sorted, Ordered, LatestWrite, Image, Frames, AllFit, Encodable, Load, AppendAll, BatchLog;
    hide CodecLaw, SearchLaw, PartitionLaw;
    var log := CurrentLog(e, s);
    var out := BatchLog(e, log, rs);
    WorkerReady(e, s, disk);
    NothingHeld(e, log);
    BatchIsFold(e, log, rs);
    AppendAllAdds(e, log, rs);
    UnfitImage(e, log, rs, out);
    if Ordered(log, rs) { OrderedOutcome(e, log, rs); }
  }

  lemma UnsafeCompactionDisagrees(e: Env, s: Stream, actor: string, timestamp: nat, disk: Disk)
    requires Lawful(e) && InSync(e, s) && HeaderReady(s, disk) && !Safe(e, s, Compaction(actor, timestamp, disk))
    ensures !Agrees(e, AfterCompact(e, s, actor, timestamp, disk).0)
  {
    hide LatestWrite, Image, Frames, AllFit, Encodable, Load, Compacted, Sorted;
    hide CodecLaw, SearchLaw, PartitionLaw;
    var log := CurrentLog(e, s);
    var out := Compacted(log, actor, timestamp);
    WorkerReady(e, s, disk);
    HeldLogLoads(e, WithWorker(Hydrated(e, s), disk).file, log);
    if Encodable(e, out) { LoadOfImage(e, out); }
  }

  lemma UnsafeRealignmentDisagrees(e: Env, s: Stream, disk: Disk)
    requires Lawful(e) && InSync(e, s) && !Safe(e, s, Realignment(disk))
    ensures !Agrees(e, AfterRealign(e, s, disk).0)
  {
    hide LatestWrite, Image, Frames, AllFit, Encodable, Load, Realigned, RealignRefused, Sorted;
    hide CodecLaw, SearchLaw, PartitionLaw;
    LoadOfImage(e, Realigned(CurrentLog(e, s)));
  }

  /** Once the file has its header, what readers see in memory and on disk agrees
      after a call exactly when the call is safe. */
  lemma AgreementStep(e: Env, s: Stream, op: Op)
    requires Lawful(e) && InSync(e, s) && HeaderFor(s, op)
    ensures Agrees(e, Next(e, s, op).0) <==> Safe(e, s, op)
  {
    hide LatestWrite, Image, Frames, AllFit, Encodable, Load, Realigned, Compacted, Sorted, AppendLog, BatchLog;
    hide CodecLaw, SearchLaw, PartitionLaw, AfterAppend, AfterBatch, AfterCompact, AfterRealign;
    var s' := Next(e, s, op).0;
    SyncStep(e, s, op);
    if Safe(e, s, op) {
      HeldLogLoads(e, s'.file, CurrentLog(e, s'));
    } else {
      match op
      case Append(r, disk) =>
        AppendIsBatchOfOne(e, s, r, disk);
        OneRecord(e, s, r, disk);
        UnsafeBatchDisagrees(e, s, [r], disk);
      case Batch(rs, disk) => UnsafeBatchDisagrees(e, s, rs, disk);
      case Compaction(actor, timestamp, disk) => UnsafeCompactionDisagrees(e, s, actor, timestamp, disk);
      case Realignment(disk) => UnsafeRealignmentDisagrees(e, s, disk);
      case _ =>
    }
  }

  lemma OneRecord(e: Env, s: Stream, r: Record, disk: Disk)
    requires HeaderReady(s, disk) && !Safe(e, s, Append(r, disk))
    ensures !Safe(e, s, Batch([r], disk))
  {
    var rs := [r];
    assert rs[0] == r;
    assert Encodable(e, rs) <==> e.encode(r).Some?;
    assert AllFit(e, rs) <==> Fits(e, r);
  }

  // ----- recovery ------------------------------------------------------------------------------

  /** An acknowledged compaction puts any stream in sync exactly when the records
      left fit, whatever state it was in. */
  lemma CompactionRecovers(e: Env, s: Stream, actor: string, timestamp: nat, disk: Disk)
    requires CodecLaw(e) && AfterCompact(e, s, actor, timestamp, disk).1
    ensures InSync(e, AfterCompact(e, s, actor, timestamp, disk).0) <==>
            AllFit(e, Compacted(CurrentLog(e, s), actor, timestamp))
  {
    hide LatestWrite, Compacted, Load, Image, AllFit, Encodable, CodecLaw, Sorted;
    CompactedIsSorted(CurrentLog(e, s), actor, timestamp);
    NothingHeld(e, Compacted(CurrentLog(e, s), actor, timestamp));
  }

  /** So does every acknowledged clear, which empties it. */
  lemma ClearRecovers(e: Env, s: Stream, disk: Disk)
    requires CodecLaw(e) && AfterClear(s, disk).1
    ensures InSync(e, AfterClear(s, disk).0) && CurrentLog(e, AfterClear(s, disk).0) == []
  {
    OpenedStreamIsInSync(e, []);
    assert Image(e, []) == HEADER;
  }

  /** Whatever state a stream has come to, after such a compaction every run of safe
      calls is durable again. */
  lemma RecoveredRunIsDurable(e: Env, s: Stream, actor: string, timestamp: nat, disk: Disk, ops: seq<Op>)
    requires Lawful(e) && AfterCompact(e, s, actor, timestamp, disk).1
    requires AllFit(e, Compacted(CurrentLog(e, s), actor, timestamp))
    ensures var s1 := AfterCompact(e, s, actor, timestamp, disk).0;
      InSync(e, s1) && (SafeRun(e, s1, ops) ==> Agrees(e, Run(e, s1, ops)))
  {
    hide AfterCompact, Compacted, LatestWrite, Load;
    CompactionRecovers(e, s, actor, timestamp, disk);
    var s1 := AfterCompact(e, s, actor, timestamp, disk).0;
    if SafeRun(e, s1, ops) { RunIsDurable(e, s1, ops); }
  }

  // ----- convergence of durable replicas --------------------------------------------------

  /** Calls that only deliver records or lose the cache. */
  predicate OnlyDelivers(ops: seq<Op>) {
    forall i :: 0 <= i < |ops| ==>
      ops[i].Append? || ops[i].Batch? || ops[i].Read? || ops[i].Invalidate? || ops[i].Restart?
  }

  /** The records of a call, if it was acknowledged. */
  ghost function AcceptedBy(e: Env, s: Stream, op: Op): set<Record>
    requires SearchLaw(e)
  {
    if !Next(e, s, op).1 then {}
    else match op
      case Append(r, _) => {r}
      case Batch(rs, _) => Elements(rs)
      case _ => {}
  }

  ghost function Accepted(e: Env, s: Stream, ops: seq<Op>): set<Record>
    requires SearchLaw(e)
    decreases |ops|
  {
    if ops == [] then {} else AcceptedBy(e, s, ops[0]) + Accepted(e, Next(e, s, ops[0]).0, ops[1..])
  }

  lemma BatchOutcome(e: Env, s: Stream, rs: seq<Record>, disk: Disk)
    requires SearchLaw(e)
    ensures var res, log := AfterBatch(e, s, rs, disk), CurrentLog(e, s);
      CurrentLog(e, res.0) == if res.1 then BatchLog(e, log, rs) else log
  {
    hide Sorted, AppendAll, SearchLaw;
  }

  lemma BatchStep(e: Env, s: Stream, rs: seq<Record>, disk: Disk)
    requires SearchLaw(e) && Sorted(CurrentLog(e, s))
    ensures var res, log := AfterBatch(e, s, rs, disk), CurrentLog(e, s);
      var log' := CurrentLog(e, res.0);
      && Elements(log') == Elements(log) + (if res.1 then Elements(rs) else {})
      && (StrictlySorted(log) && DistinctIds(Elements(log')) ==> StrictlySorted(log'))
  {
    hide Sorted, StrictlySorted, SearchLaw, AfterBatch, BatchLog, AppendAll, DistinctIds, CurrentLog;
    var log := CurrentLog(e, s);
    BatchOutcome(e, s, rs, disk);
    BatchIsFold(e, log, rs);
    AppendAllAdds(e, log, rs);
    if StrictlySorted(log) && DistinctIds(Elements(log) + Elements(rs)) { AppendAllKeepsStrict(e, log, rs); }
  }

  lemma DeliveryStep(e: Env, s: Stream, op: Op)
    requires Lawful(e) && InSync(e, s) && OnlyDelivers([op])
    ensures var log, log' := CurrentLog(e, s), CurrentLog(e, Next(e, s, op).0);
      && Elements(log') == Elements(log) + AcceptedBy(e, s, op)
      && (StrictlySorted(log) && DistinctIds(Elements(log')) ==> StrictlySorted(log'))
  {
    hide Image, Frames, Load, LatestWrite, CodecLaw, PartitionLaw, SearchLaw, Sorted, StrictlySorted;
    hide AfterBatch, AfterAppend, DistinctIds;
    assert [op][0] == op;
    RestartRestores(e, s);
    match op
    case Append(r, disk) =>
      AppendIsBatchOfOne(e, s, r, disk);
      BatchStep(e, s, [r], disk);
    case Batch(rs, disk) => BatchStep(e, s, rs, disk);
    case Read =>
    case Invalidate =>
    case Restart =>
  }

  lemma {:induction false} DeliveryRun(e: Env, s: Stream, ops: seq<Op>)
    requires Lawful(e) && InSync(e, s) && SafeRun(e, s, ops) && OnlyDelivers(ops)
    requires StrictlySorted(CurrentLog(e, s))
    requires DistinctIds(Elements(CurrentLog(e, s)) + Accepted(e, s, ops))
    ensures var log' := CurrentLog(e, Run(e, s, ops));
      StrictlySorted(log') && Elements(log') == Elements(CurrentLog(e, s)) + Accepted(e, s, ops)
    decreases |ops|
  {
    hide Safe, InSync, Next, CurrentLog, Lawful, Sorted, StrictlySorted, AcceptedBy, Elements;
    if ops != [] {
      assert OnlyDelivers([ops[0]]) && OnlyDelivers(ops[1..]);
      SyncedIsSorted(e, s);
      SyncStep(e, s, ops[0]);
      DeliveryStep(e, s, ops[0]);
      var next := Next(e, s, ops[0]).0;
      assert Elements(CurrentLog(e, next)) + Accepted(e, next, ops[1..])
          == Elements(CurrentLog(e, s)) + Accepted(e, s, ops);
      DeliveryRun(e, next, ops[1..]);
    }
  }

  lemma SyncedIsSorted(e: Env, s: Stream)
    requires Lawful(e) && InSync(e, s)
    ensures SearchLaw(e) && Sorted(CurrentLog(e, s))
  {
  }

  /** Two replicas that acknowledged the same records hold the same log, through
      any order, repeats and batching, refusals, restarts and dropped caches. */
  lemma DurableReplicasConverge(e1: Env, e2: Env, ops1: seq<Op>, ops2: seq<Op>)
    requires Lawful(e1) && SafeRun(e1, FRESH, ops1) && OnlyDelivers(ops1)
    requires Lawful(e2) && SafeRun(e2, FRESH, ops2) && OnlyDelivers(ops2)
    requires Accepted(e1, FRESH, ops1) == Accepted(e2, FRESH, ops2)
    requires DistinctIds(Accepted(e1, FRESH, ops1))
    ensures CurrentLog(e1, Run(e1, FRESH, ops1)) == CurrentLog(e2, Run(e2, FRESH, ops2))
  {
    var none: set<Record> := {};
    assert none + Accepted(e1, FRESH, ops1) == Accepted(e1, FRESH, ops1);
    DeliveryRun(e1, FRESH, ops1);
    DeliveryRun(e2, FRESH, ops2);
    StrictLogIsUnique(CurrentLog(e1, Run(e1, FRESH, ops1)), CurrentLog(e2, Run(e2, FRESH, ops2)));
  }

  // ----- how memory and file come apart -------------------------------------------------

  /** A record over the frame limit is acknowledged, and is gone after a restart. */
  lemma OversizeRecordIsLost(e: Env, r: Record)
    requires Lawful(e) && e.encode(r).Some? && !Fits(e, r)
    ensures var res := AfterAppend(e, FRESH, r, Disk(true, true));
      && res.1 && CurrentLog(e, res.0) == [r]
      && CurrentLog(e, AfterRestart(res.0)) == []
  {
    var log: Log := [];
    AppendInOrder(e, log, r);
    assert [r][1..] == [];
    assert Frames(e, [r]) == Frame(e, r);
    assert AfterAppend(e, FRESH, r, Disk(true, true)).0.file == Some(Image(e, [r]));
    LoadOfImage(e, [r]);
    assert ReadablePart(e, [r]) == [];
  }

  /** When the header of a new file could not be written, the first record is
      acknowledged into a file that no reader accepts. The bound keeps a frame's
      own length field from spelling the header. */
  lemma HeaderlessRecordIsLost(e: Env, r: Record)
    requires Lawful(e) && Fits(e, r) && e.maxFrame < 0x1_4C42_5444
    ensures var res := AfterAppend(e, FRESH, r, Disk(false, true));
      && res.1 && CurrentLog(e, res.0) == [r]
      && CurrentLog(e, AfterRestart(res.0)) == []
  {
    var log: Log := [];
    AppendInOrder(e, log, r);
    var res := AfterAppend(e, FRESH, r, Disk(false, true));
    assert [] + Frame(e, r) == Frame(e, r);
    assert res.0.file == Some(Frame(e, r));
    HeaderlessFrame(e, r);
  }

  /** A lone frame is not taken for a file. */
  lemma HeaderlessFrame(e: Env, r: Record)
    requires CodecLaw(e) && Fits(e, r) && e.maxFrame < 0x1_4C42_5444
    ensures Load(e, Frame(e, r)) == []
  {
    var n := |e.encode(r).value|;
    LengthRoundTrip(n);
    var bs := Frame(e, r);
    if HEADER <= bs {
      LengthOfHeader(ToLittleEndian(n, LENGTH_SIZE));
    }
  }

  /** Why a file without a header is never in sync: when both writes of the first
      append fail, memory and file still agree, both empty, but the next record is
      acknowledged and gone after a restart. */
  lemma HeaderlessFileLosesNext(e: Env, r0: Record, r: Record)
    requires Lawful(e) && Fits(e, r) && e.maxFrame < 0x1_4C42_5444
    ensures var s := AfterAppend(e, FRESH, r0, Disk(false, false)).0;
      && Agrees(e, s) && CurrentLog(e, s) == []
      && var res := AfterAppend(e, s, r, Disk(true, true));
         res.1 && CurrentLog(e, res.0) == [r] && CurrentLog(e, AfterRestart(res.0)) == []
  {
    var log: Log := [];
    AppendInOrder(e, log, r);
    var s := AfterAppend(e, FRESH, r0, Disk(false, false)).0;
    assert s == Stream(Some([]), Some([]), None, true);
    assert [] + Frame(e, r) == Frame(e, r);
    HeaderlessFrame(e, r);
  }

  lemma LengthOfHeader(bs: seq<byte>)
    requires |bs| == LENGTH_SIZE && HEADER <= bs
    ensures FromLittleEndian(bs) >= 0x1_4C42_5444
  {
    assert bs[0] == 0x44 && bs[1] == 0x54 && bs[2] == 0x42 && bs[3] == 0x4C && bs[4] == 1;
    assert FromLittleEndian(bs) == bs[0] + 256 * FromLittleEndian(bs[1..]);
    assert FromLittleEndian(bs[1..]) == bs[1] + 256 * FromLittleEndian(bs[1..][1..]);
    assert bs[1..][1..] == bs[2..];
    assert FromLittleEndian(bs[2..]) == bs[2] + 256 * FromLittleEndian(bs[2..][1..]);
    assert bs[2..][1..] == bs[3..];
    assert FromLittleEndian(bs[3..]) == bs[3] + 256 * FromLittleEndian(bs[3..][1..]);
    assert bs[3..][1..] == bs[4..];
    assert FromLittleEndian(bs[4..]) == bs[4] + 256 * FromLittleEndian(bs[4..][1..]);
  }

  /** A compaction whose rewrite fails shows the compacted log, still answers
      from the old cached timestamp, and a restart brings the old log back. */
  lemma RefusedCompactionDiverges(e: Env, r: Record, actor: string, timestamp: nat)
    requires Lawful(e) && Fits(e, r) && IsWrite(r)
    ensures var s := Stream(Some([r]), Some(Image(e, [r])), Some(r.timestamp), true);
      var res := AfterCompact(e, s, actor, timestamp, Disk(true, false));
      && InSync(e, s) && !res.1
      && LatestWrite(CurrentLog(e, res.0)) == None && res.0.highWater == Some(r.timestamp)
      && CurrentLog(e, AfterRestart(res.0)) == [r] != CurrentLog(e, res.0)
  {
    LoadOfImage(e, [r]);
    assert AllFit(e, [r]);
    assert LatestWrite([r]) == Some(r.timestamp) by { assert [r][1..] == []; }
    CompactionDropsWritesOfDistinct([r], actor, timestamp);
  }
}
