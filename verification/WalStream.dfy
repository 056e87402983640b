/** One durable stream: the cached records, the file behind them, the cached
    latest-write timestamp, and every call that changes them. */
module WalStream {
  import opened Prelude
  import opened WalRecords
  import opened WalLog
  import opened WalFrames
  import opened WalRewrite

  /** `storage` is the hydrated vector, absent until the first access; `worker`
      says whether the stream's writer thread is running. */
  datatype Stream = Stream(storage: Option<Log>, file: Option<seq<byte>>, highWater: Option<nat>, worker: bool)

  const FRESH := Stream(None, None, None, false)

  /** How one call's disk writes turn out: the header written when a worker
      starts on a missing file, and the call's own write. Each is all or nothing. */
  datatype Disk = Disk(headerOk: bool, writeOk: bool)

  // ----- what each call does ------------------------------------------------------

  function FileLog(e: Env, file: Option<seq<byte>>): (log: Log) {
    if file.None? then [] else Load(e, file.value)
  }

  /** The log a reader of this stream sees. */
  function CurrentLog(e: Env, s: Stream): (log: Log) {
    if s.storage.Some? then s.storage.value else FileLog(e, s.file)
  }

  function Hydrated(e: Env, s: Stream): (s': Stream)
    ensures s'.storage == Some(CurrentLog(e, s)) && s'.file == s.file && s'.worker == s.worker
  {
    if s.storage.Some? then s
    else if s.file.None? then s.(storage := Some([]))
    else var log := Load(e, s.file.value); s.(storage := Some(log), highWater := LatestWrite(log))
  }

  /** Starting the worker creates a missing file; when writing its header fails,
      opening it for append still leaves an empty file behind. */
  function WithWorker(s: Stream, disk: Disk): (s': Stream) {
    if s.worker then s
    else s.(worker := true, file := if s.file.Some? then s.file else Some(if disk.headerOk then HEADER else []))
  }

  function Extended(file: Option<seq<byte>>, bytes: seq<byte>): (out: Option<seq<byte>>) {
    Some((if file.Some? then file.value else []) + bytes)
  }

  ghost function AfterAppend(e: Env, s: Stream, r: Record, disk: Disk): (res: (Stream, bool))
    requires SearchLaw(e)
  {
    var s1 := WithWorker(Hydrated(e, s), disk);
    var log := CurrentLog(e, s);
    var out := AppendLog(e, log, r);
    var s2 := s1.(storage := Some(out), highWater := LaterOf(s1.highWater, WriteTimestamp(r)));
    if InOrder(log, r) then
      if e.encode(r).Some? && disk.writeOk then (s2.(file := Extended(s1.file, Frame(e, r))), true)
      else (s1, false)
    else if out == log then (s2, true)
    else if Encodable(e, out) && disk.writeOk then (s2.(file := Some(Image(e, out))), true)
    else (s1, false)
  }

  ghost function AfterBatch(e: Env, s: Stream, rs: seq<Record>, disk: Disk): (res: (Stream, bool))
    requires SearchLaw(e)
  {
    if rs == [] then (s, true) else
    var s1 := WithWorker(Hydrated(e, s), disk);
    var log := CurrentLog(e, s);
    var out := BatchLog(e, log, rs);
    var s2 := s1.(storage := Some(out), highWater := LaterOf(s1.highWater, LatestWrite(rs)));
    if Ordered(log, rs) then
      if Encodable(e, rs) && disk.writeOk then (s2.(file := Extended(s1.file, Frames(e, rs))), true)
      else (s1, false)
    else if out == log then (s2, true)
    else if Encodable(e, out) && disk.writeOk then (s2.(file := Some(Image(e, out))), true)
    else (s1, false)
  }

  /** The vector is replaced before the file is rewritten, so a failed rewrite
      leaves the new vector over the old file and the old cached timestamp. */
  function AfterCompact(e: Env, s: Stream, actor: string, timestamp: nat, disk: Disk): (res: (Stream, bool)) {
    var s1 := WithWorker(Hydrated(e, s), disk);
    var out := Compacted(CurrentLog(e, s), actor, timestamp);
    if Encodable(e, out) && disk.writeOk then
      (s1.(storage := Some(out), file := Some(Image(e, out)), highWater := LatestWrite(out)), true)
    else (s1.(storage := Some(out)), false)
  }

  function AfterRealign(e: Env, s: Stream, disk: Disk): (res: (Stream, bool)) {
    var s1 := Hydrated(e, s);
    var log := CurrentLog(e, s);
    var out := Realigned(log);
    if !RealignRefused(log) && Encodable(e, out) && disk.writeOk then
      (s1.(storage := Some(out), file := Some(Image(e, out))), true)
    else (s1, false)
  }

  function AfterRead(e: Env, s: Stream): (s': Stream) {
    var s1 := Hydrated(e, s);
    if s1.highWater.Some? then s1 else s1.(highWater := LatestWrite(CurrentLog(e, s)))
  }

  function AfterInvalidate(s: Stream): (s': Stream) {
    s.(storage := None, highWater := None)
  }

  function AfterRestart(s: Stream): (s': Stream) {
    Stream(None, s.file, None, false)
  }

  function AfterClear(s: Stream, disk: Disk): (res: (Stream, bool)) {
    (Stream(None, if disk.writeOk then Some(HEADER) else s.file, None, false), disk.writeOk)
  }

  // ----- the invariant ---------------------------------------------------------------

  /** The file is exactly the image of the log, and every frame in it is readable. */
  ghost predicate Holds(e: Env, file: Option<seq<byte>>, log: Log) {
    || (file.None? && log == [])
    || (file.Some? && AllFit(e, log) && file.value == Image(e, log))
  }

  /** Memory, file and cached timestamp agree, and the log is sorted. */
  ghost predicate InSync(e: Env, s: Stream) {
    && Sorted(CurrentLog(e, s))
    && Holds(e, s.file, CurrentLog(e, s))
    && s.highWater == (if s.storage.Some? then LatestWrite(CurrentLog(e, s)) else None)
    && (s.worker ==> s.file.Some?)
  }

  /** The cached timestamp is the latest write of the cached records. */
  ghost predicate CacheRight(s: Stream) {
    s.highWater == if s.storage.Some? then LatestWrite(s.storage.value) else None
  }

  lemma HeldLogLoads(e: Env, file: Option<seq<byte>>, log: Log)
    requires CodecLaw(e) && Holds(e, file, log)
    ensures FileLog(e, file) == log
  {
    if file.Some? { LoadOfImage(e, log); }
  }

  /** Dropping the cache or restarting gives back the same log. */
  lemma RestartRestores(e: Env, s: Stream)
    requires CodecLaw(e) && InSync(e, s)
    ensures CurrentLog(e, AfterRestart(s)) == CurrentLog(e, AfterInvalidate(s)) == CurrentLog(e, s)
    ensures InSync(e, AfterRestart(s)) && InSync(e, AfterInvalidate(s))
  {
    HeldLogLoads(e, s.file, CurrentLog(e, s));
  }

  // ----- when a call keeps it -----------------------------------------------------------

  datatype Op =
    | Append(record: Record, disk: Disk)
    | Batch(records: seq<Record>, disk: Disk)
    | Compaction(actor: string, timestamp: nat, disk: Disk)
    | Realignment(disk: Disk)
    | Read
    | Invalidate
    | Restart
    | Clear(disk: Disk)

  ghost function Next(e: Env, s: Stream, op: Op): (res: (Stream, bool))
    requires SearchLaw(e)
  {
    match op
    case Append(r, disk) => AfterAppend(e, s, r, disk)
    case Batch(rs, disk) => AfterBatch(e, s, rs, disk)
    case Compaction(actor, timestamp, disk) => AfterCompact(e, s, actor, timestamp, disk)
    case Realignment(disk) => AfterRealign(e, s, disk)
    case Read => (AfterRead(e, s), true)
    case Invalidate => (AfterInvalidate(s), true)
    case Restart => (AfterRestart(s), true)
    case Clear(disk) => AfterClear(s, disk)
  }

  predicate HeaderReady(s: Stream, disk: Disk) {
    s.file.Some? || disk.headerOk
  }

  /** What the call needs so that memory and file still agree after it. */
  ghost predicate Safe(e: Env, s: Stream, op: Op) {
    var log := CurrentLog(e, s);
    match op
    case Append(r, disk) =>
      HeaderReady(s, disk) && (e.encode(r).Some? && disk.writeOk ==> Fits(e, r))
    case Batch(rs, disk) =>
      var written := Encodable(e, rs) && disk.writeOk;
      rs == [] || ((HeaderReady(s, disk) || (!Ordered(log, rs) && written)) && (written ==> AllFit(e, rs)))
    case Compaction(actor, timestamp, disk) =>
      var out := Compacted(log, actor, timestamp);
      if Encodable(e, out) && disk.writeOk then AllFit(e, out) else HeaderReady(s, disk) && out == log
    case Realignment(disk) =>
      RealignRefused(log) || (Encodable(e, Realigned(log)) && disk.writeOk ==> AllFit(e, Realigned(log)))
    case _ => true
  }

  /** When each call is acknowledged, from a log that can be encoded: reads and cache
      calls always; a batch when it brings nothing new, or its records can be encoded
      and the write succeeds; a rewrite when the rewritten log can be encoded and
      written, and, for a realignment, there is no record or one that is live. */
  ghost predicate Acknowledged(e: Env, s: Stream, op: Op)
    requires SearchLaw(e)
  {
    var log := CurrentLog(e, s);
    match op
    case Append(r, disk) => AppendLog(e, log, r) == log || (e.encode(r).Some? && disk.writeOk)
    case Batch(rs, disk) => BatchLog(e, log, rs) == log || (Encodable(e, rs) && disk.writeOk)
    case Compaction(actor, timestamp, disk) => Encodable(e, Compacted(log, actor, timestamp)) && disk.writeOk
    case Realignment(disk) =>
      (log == [] || exists r :: r in log && r.kind != Ignore) && Encodable(e, Realigned(log)) && disk.writeOk
    case Clear(disk) => disk.writeOk
    case _ => true
  }

  lemma BatchAck(e: Env, s: Stream, rs: seq<Record>, disk: Disk)
    requires SearchLaw(e) && Encodable(e, CurrentLog(e, s))
    ensures AfterBatch(e, s, rs, disk).1 <==> Acknowledged(e, s, Batch(rs, disk))
  {
    hide Image, Frames, Load, LatestWrite, Encodable, AppendAll, SearchLaw, Ordered, AllFit, Fits;
    var log := CurrentLog(e, s);
    var out := BatchLog(e, log, rs);
    if rs == [] {
      assert log + rs == log;
      EmptyBatch(e, log);
    } else if Ordered(log, rs) {
      assert |out| > |log|;
    } else {
      AppendAllAdds(e, log, rs);
      FitOfElements(e, out, log, rs);
    }
  }

  lemma EmptyBatch(e: Env, log: Log)
    requires SearchLaw(e)
    ensures BatchLog(e, log, []) == log
  {
    assert log + [] == log;
  }

  lemma AckStep(e: Env, s: Stream, op: Op)
    requires SearchLaw(e) && Encodable(e, CurrentLog(e, s))
    ensures Next(e, s, op).1 <==> Acknowledged(e, s, op)
  {
    hide Image, Frames, Load, LatestWrite, SearchLaw, Compacted, Realigned, RealignRefused, AppendLog, BatchLog;
    hide AfterAppend, AfterBatch;
    match op
    case Append(r, disk) =>
      AppendIsBatchOfOne(e, s, r, disk);
      BatchAck(e, s, [r], disk);
      BatchOfOne(e, CurrentLog(e, s), r);
    case Batch(rs, disk) => BatchAck(e, s, rs, disk);
    case Realignment(disk) => RefusalMeaning(CurrentLog(e, s));
    case _ =>
  }

  lemma FitOfElements(e: Env, out: Log, a: Log, b: seq<Record>)
    requires Elements(out) == Elements(a) + Elements(b)
    ensures Encodable(e, out) <==> Encodable(e, a) && Encodable(e, b)
    ensures AllFit(e, out) <==> AllFit(e, a) && AllFit(e, b)
  {
    forall r ensures r in out <==> r in a || r in b {
      assert r in Elements(out) <==> r in Elements(a) + Elements(b);
    }
    assert forall i :: 0 <= i < |a| ==> a[i] in out;
    assert forall i :: 0 <= i < |b| ==> b[i] in out;
    assert forall i :: 0 <= i < |out| ==> out[i] in a || out[i] in b;
  }

  /** The state in which a worker call starts: loaded, with a worker, and with the file it may write to. */
  lemma WorkerReady(e: Env, s: Stream, disk: Disk)
    requires CodecLaw(e) && InSync(e, s)
    ensures var s1 := WithWorker(Hydrated(e, s), disk);
      && s1.storage == Some(CurrentLog(e, s)) && s1.worker && s1.file.Some?
      && s1.highWater == LatestWrite(CurrentLog(e, s))
      && (HeaderReady(s, disk) ==> Holds(e, s1.file, CurrentLog(e, s)))
      && (!HeaderReady(s, disk) ==> CurrentLog(e, s) == [] && s1.file == Some([]))
  {
    if s.storage.None? && s.file.Some? { HeldLogLoads(e, s.file, CurrentLog(e, s)); }
  }

  /** A whole-file image of the new log is in sync exactly when the added records fit. */
  lemma WrittenSync(e: Env, s1: Stream, log: Log, rs: seq<Record>, out: Log)
    requires CodecLaw(e) && AllFit(e, log) && Encodable(e, rs)
    requires s1.storage == Some(log) && s1.worker && s1.highWater == LatestWrite(log)
    requires Sorted(out) && Elements(out) == Elements(log) + Elements(rs)
    ensures Encodable(e, out)
    ensures InSync(e, s1.(storage := Some(out), file := Some(Image(e, out)),
                          highWater := LaterOf(s1.highWater, LatestWrite(rs))))
       <==> AllFit(e, rs)
  {
    LatestWriteOfUnion(out, log, rs);
    FitOfElements(e, out, log, rs);
  }

  lemma OrderedOutcome(e: Env, log: Log, rs: seq<Record>)
    requires SearchLaw(e) && Sorted(log) && Ordered(log, rs) && AllFit(e, log) && Encodable(e, rs)
    ensures BatchLog(e, log, rs) == log + rs && Sorted(log + rs)
    ensures Elements(log + rs) == Elements(log) + Elements(rs)
    ensures Encodable(e, log + rs) && Image(e, log + rs) == Image(e, log) + Frames(e, rs)
    ensures |Image(e, rs)| > |Frames(e, rs)|
  {
    hide AppendAll, Frame, Sorted, StrictlySorted;
    BatchIsFold(e, log, rs);
    AppendAllKeepsSorted(e, log, rs);
    ElementsConcat(log, rs);
    FramesConcat(e, log, rs);
  }

  lemma OrderedBatchSync(e: Env, s: Stream, rs: seq<Record>, disk: Disk)
    requires Lawful(e) && InSync(e, s) && rs != [] && Ordered(CurrentLog(e, s), rs)
    ensures InSync(e, AfterBatch(e, s, rs, disk).0) <==> Safe(e, s, Batch(rs, disk))
  {
    hide Sorted, Ordered, BatchLog, Elements, LatestWrite, Image, Frames, AllFit, Encodable, Load;
    hide CodecLaw, SearchLaw, PartitionLaw;
    var log := CurrentLog(e, s);
    var s1 := WithWorker(Hydrated(e, s), disk);
    WorkerReady(e, s, disk);
    NothingHeld(e, log);
    ImageNotEmpty(e, log);
    if Encodable(e, rs) && disk.writeOk {
      OrderedOutcome(e, log, rs);
      WrittenSync(e, s1, log, rs, log + rs);
      assert log == [] ==> log + rs == rs;
      assert [] + Frames(e, rs) == Frames(e, rs);
    }
  }

  lemma NothingHeld(e: Env, log: Log)
    ensures log == [] ==> AllFit(e, log) && Encodable(e, log)
    ensures AllFit(e, log) ==> Encodable(e, log)
  {
  }

  lemma MergedBatchSync(e: Env, s: Stream, rs: seq<Record>, disk: Disk)
    requires Lawful(e) && InSync(e, s) && rs != [] && !Ordered(CurrentLog(e, s), rs)
    ensures InSync(e, AfterBatch(e, s, rs, disk).0) <==> Safe(e, s, Batch(rs, disk))
  {
    hide Sorted, Ordered, LatestWrite, Image, Frames, AllFit, Encodable, Load, AppendAll;
    hide CodecLaw, SearchLaw, PartitionLaw;
    var log := CurrentLog(e, s);
    var s1 := WithWorker(Hydrated(e, s), disk);
    var out := BatchLog(e, log, rs);
    WorkerReady(e, s, disk);
    NothingHeld(e, log);
    AppendAllAdds(e, log, rs);
    AppendAllKeepsSorted(e, log, rs);
    LatestWriteOfUnion(out, log, rs);
    FitOfElements(e, out, log, rs);
    assert rs[0] in Elements(out);
    ImageNotEmpty(e, out);
    ImageNotEmpty(e, log);
    if Encodable(e, rs) && disk.writeOk { WrittenSync(e, s1, log, rs, out); }
  }

  lemma ImageNotEmpty(e: Env, log: Log)
    ensures Encodable(e, log) ==> Image(e, log) != []
  {
  }

  lemma BatchSync(e: Env, s: Stream, rs: seq<Record>, disk: Disk)
    requires Lawful(e) && InSync(e, s)
    ensures InSync(e, AfterBatch(e, s, rs, disk).0) <==> Safe(e, s, Batch(rs, disk))
  {
    if rs != [] {
      if Ordered(CurrentLog(e, s), rs) { OrderedBatchSync(e, s, rs, disk); }
      else { MergedBatchSync(e, s, rs, disk); }
    }
  }

  /** A single append does to memory, file and cache what a batch of one does. */
  lemma AppendIsBatchOfOne(e: Env, s: Stream, r: Record, disk: Disk)
    requires SearchLaw(e)
    ensures AfterAppend(e, s, r, disk) == AfterBatch(e, s, [r], disk)
  {
    hide Sorted, SearchLaw, AppendLog, BatchLog, AppendAll, LatestWrite, Frames, Frame;
    BatchOfOne(e, CurrentLog(e, s), r);
  }

  lemma BatchOfOne(e: Env, log: Log, r: Record)
    requires SearchLaw(e)
    ensures BatchLog(e, log, [r]) == AppendLog(e, log, r)
    ensures Ordered(log, [r]) <==> InOrder(log, r)
    ensures LatestWrite([r]) == WriteTimestamp(r)
    ensures Encodable(e, [r]) <==> e.encode(r).Some?
    ensures e.encode(r).Some? ==> Frames(e, [r]) == Frame(e, r)
  {
    hide SearchLaw, Sorted;
    assert [r][1..] == [];
    assert AppendAll(e, log, [r]) == AppendAll(e, AppendLog(e, log, r), []);
    if InOrder(log, r) { AppendInOrder(e, log, r); }
    assert e.encode(r).Some? ==> Frames(e, [r]) == Frame(e, r) + [];
  }

  lemma AppendSync(e: Env, s: Stream, r: Record, disk: Disk)
    requires Lawful(e) && InSync(e, s)
    ensures InSync(e, AfterAppend(e, s, r, disk).0) <==> Safe(e, s, Append(r, disk))
  {
    AppendIsBatchOfOne(e, s, r, disk);
    BatchSync(e, s, [r], disk);
    assert Encodable(e, [r]) <==> e.encode(r).Some?;
    assert AllFit(e, [r]) <==> Fits(e, r);
    assert !HeaderReady(s, disk) ==> CurrentLog(e, s) == [];
  }

  lemma CompactionSync(e: Env, s: Stream, actor: string, timestamp: nat, disk: Disk)
    requires Lawful(e) && InSync(e, s)
    ensures InSync(e, AfterCompact(e, s, actor, timestamp, disk).0) <==> Safe(e, s, Compaction(actor, timestamp, disk))
  {
    hide LatestWrite, Image, Frames, AllFit, Encodable, Load, Compacted;
    hide CodecLaw, SearchLaw, PartitionLaw, Sorted;
    var log := CurrentLog(e, s);
    var out := Compacted(log, actor, timestamp);
    var s1 := WithWorker(Hydrated(e, s), disk);
    WorkerReady(e, s, disk);
    NothingHeld(e, out);
    ImageNotEmpty(e, out);
    CompactedIsSorted(log, actor, timestamp);
    if Holds(e, s1.file, log) && Holds(e, s1.file, out) {
      HeldLogLoads(e, s1.file, log);
      HeldLogLoads(e, s1.file, out);
    }
  }

  lemma LatestWriteOfNone()
    ensures LatestWrite([]) == None
  {
  }

  lemma RealignmentSync(e: Env, s: Stream, disk: Disk)
    requires Lawful(e) && InSync(e, s)
    ensures InSync(e, AfterRealign(e, s, disk).0) <==> Safe(e, s, Realignment(disk))
  {
    hide LatestWrite, Image, Frames, AllFit, Encodable, Load, Realigned, RealignRefused;
    hide CodecLaw, SearchLaw, PartitionLaw, Sorted;
    var log := CurrentLog(e, s);
    if s.storage.None? && s.file.Some? { HeldLogLoads(e, s.file, log); }
    NothingHeld(e, Realigned(log));
    RealignedIsSorted(log);
    LatestWriteOfNone();
    RealignKeepsLatestWrite(log);
  }

  /** From a synchronized stream, a call leaves it synchronized exactly when it is safe. */
  lemma SyncStep(e: Env, s: Stream, op: Op)
    requires Lawful(e) && InSync(e, s)
    ensures InSync(e, Next(e, s, op).0) <==> Safe(e, s, op)
  {
    hide InSync, Safe, AfterAppend, AfterBatch, AfterCompact, AfterRealign, AfterRead, AfterClear;
    match op
    case Append(r, disk) => AppendSync(e, s, r, disk);
    case Batch(rs, disk) => BatchSync(e, s, rs, disk);
    case Compaction(actor, timestamp, disk) => CompactionSync(e, s, actor, timestamp, disk);
    case Realignment(disk) => RealignmentSync(e, s, disk);
    case Read => CacheSync(e, s, op);
    case Invalidate => CacheSync(e, s, op);
    case Restart => CacheSync(e, s, op);
    case Clear(disk) => ClearSync(e, s, disk);
  }

  lemma CacheSync(e: Env, s: Stream, op: Op)
    requires Lawful(e) && InSync(e, s) && (op.Read? || op.Invalidate? || op.Restart?)
    ensures InSync(e, Next(e, s, op).0) && Safe(e, s, op)
  {
    hide Load, LatestWrite, Image, AllFit, Sorted;
    RestartRestores(e, s);
    HeldLogLoads(e, s.file, CurrentLog(e, s));
    LatestWriteOfNone();
  }

  lemma ClearSync(e: Env, s: Stream, disk: Disk)
    requires Lawful(e) && InSync(e, s)
    ensures InSync(e, AfterClear(s, disk).0) && Safe(e, s, Clear(disk))
  {
    RestartRestores(e, s);
    LoadOfImage(e, []);
  }
}
