/** What holds of a stream in far more states than those in sync: its log stays
    sorted, and its cached timestamp right, through oversize records, missing
    headers, failed writes and restarts; only a refused compaction breaks either. */
module WalOrder {
  import opened Prelude
  import opened WalRecords
  import opened WalLog
  import opened WalFrames
  import opened WalRewrite
  import opened WalStream
  import opened WalRuns

  // ----- the cached timestamp -----------------------------------------------------------

  /** The call is a compaction whose rewrite fails. */
  predicate CompactionRefused(e: Env, s: Stream, op: Op) {
    op.Compaction? && !(op.disk.writeOk && Encodable(e, Compacted(CurrentLog(e, s), op.actor, op.timestamp)))
  }

  /** A refused compaction that changes the latest write. */
  predicate SpoilsCache(e: Env, s: Stream, op: Op) {
    && CompactionRefused(e, s, op)
    && LatestWrite(Compacted(CurrentLog(e, s), op.actor, op.timestamp)) != LatestWrite(CurrentLog(e, s))
  }

  lemma BatchCache(e: Env, s: Stream, rs: seq<Record>, disk: Disk)
    requires SearchLaw(e) && CacheRight(s)
    ensures CacheRight(AfterBatch(e, s, rs, disk).0)
  {
    hide LatestWrite, Image, Frames, Encodable, Load, AppendAll, SearchLaw, Ordered;
    var log := CurrentLog(e, s);
    var out := BatchLog(e, log, rs);
    LatestWriteOfNone();
    BatchAdds(e, log, rs);
    LatestWriteOfUnion(out, log, rs);
  }

  lemma BatchAdds(e: Env, log: Log, rs: seq<Record>)
    requires SearchLaw(e)
    ensures Elements(BatchLog(e, log, rs)) == Elements(log) + Elements(rs)
  {
    hide AppendAll, SearchLaw, Elements;
    AppendAllAdds(e, log, rs);
    ElementsConcat(log, rs);
  }

  /** From a right cache, a call leaves it right exactly when it is not a refused
      compaction that changes the latest write. Nothing else about the stream matters. */
  lemma CacheStep(e: Env, s: Stream, op: Op)
    requires SearchLaw(e) && CacheRight(s)
    ensures CacheRight(Next(e, s, op).0) <==> !SpoilsCache(e, s, op)
  {
    hide LatestWrite, Image, Frames, Encodable, Load, SearchLaw, Realigned, RealignRefused, Compacted;
    hide AfterBatch, AfterAppend;
    LatestWriteOfNone();
    match op
    case Append(r, disk) =>
      AppendIsBatchOfOne(e, s, r, disk);
      BatchCache(e, s, [r], disk);
    case Batch(rs, disk) => BatchCache(e, s, rs, disk);
    case Realignment(disk) => RealignKeepsLatestWrite(CurrentLog(e, s));
    case _ =>
  }

  ghost predicate NeverSpoils(e: Env, s: Stream, ops: seq<Op>)
    requires SearchLaw(e)
    decreases |ops|
  {
    ops == [] || (!SpoilsCache(e, s, ops[0]) && NeverSpoils(e, Next(e, s, ops[0]).0, ops[1..]))
  }

  /** Over any run without such a compaction the cached timestamp is the latest write. */
  lemma {:induction false} CacheRun(e: Env, s: Stream, ops: seq<Op>)
    requires SearchLaw(e) && CacheRight(s) && NeverSpoils(e, s, ops)
    ensures CacheRight(Run(e, s, ops))
    decreases |ops|
  {
    hide Next, SpoilsCache, CacheRight, SearchLaw;
    if ops != [] {
      CacheStep(e, s, ops[0]);
      CacheRun(e, Next(e, s, ops[0]).0, ops[1..]);
    }
  }

  // ----- the order of the log -------------------------------------------------------------

  /** The file is the image of `frames`. What of it can be read is sorted, and if
      that is all of it, it is the log. */
  ghost predicate Full(e: Env, file: Option<seq<byte>>, log: Log, frames: Log) {
    && Encodable(e, frames) && file == Some(Image(e, frames))
    && Sorted(ReadablePart(e, frames)) && (AllFit(e, frames) ==> log == frames)
  }

  /** The first frame, read as a file, would pass the header test. */
  predicate SpellsHeader(e: Env, r: Record) {
    e.encode(r).Some? && HEADER <= Frame(e, r)
  }

  /** The file is frames without a header, and not taken for a file with one. */
  ghost predicate Bare(e: Env, file: Option<seq<byte>>, frames: Log) {
    && Encodable(e, frames) && file == Some(Frames(e, frames))
    && (frames != [] ==> !SpellsHeader(e, frames[0]))
  }

  ghost predicate FileInOrder(e: Env, file: Option<seq<byte>>, log: Log) {
    || (file.None? && log == [])
    || (exists frames :: Full(e, file, log, frames))
    || (exists frames :: Bare(e, file, frames))
  }

  /** The log is sorted, and so will be what a reload finds. */
  ghost predicate Orderly(e: Env, s: Stream) {
    && Sorted(CurrentLog(e, s)) && FileInOrder(e, s.file, CurrentLog(e, s))
    && (s.worker ==> s.file.Some?)
  }

  /** The file that a worker call finds starts with the header. */
  predicate HasHeader(s: Stream, disk: Disk) {
    if s.file.Some? then HEADER <= s.file.value else disk.headerOk
  }

  /** The call is no compaction refused with a change, and puts no frame that reads
      as a header at the head of a file without one. */
  predicate KeepsOrder(e: Env, s: Stream, op: Op) {
    match op
    case Append(r, disk) => HasHeader(s, disk) || !SpellsHeader(e, r)
    case Batch(rs, disk) => rs == [] || HasHeader(s, disk) || !SpellsHeader(e, rs[0])
    case Compaction(actor, timestamp, _) =>
      !CompactionRefused(e, s, op) || Compacted(CurrentLog(e, s), actor, timestamp) == CurrentLog(e, s)
    case _ => true
  }

  /** Only a frame of more than five gigabytes can read as a header. */
  lemma ShortFramesSpellNothing(e: Env, r: Record)
    requires CodecLaw(e) && e.encode(r).Some? && |e.encode(r).value| < 0x1_4C42_5444
    ensures !SpellsHeader(e, r)
  {
    var n := |e.encode(r).value|;
    LengthRoundTrip(n);
    if HEADER <= Frame(e, r) { LengthOfHeader(ToLittleEndian(n, LENGTH_SIZE)); }
  }

  lemma PrefixIsSorted(a: Log, b: Log)
    requires a <= b && Sorted(b)
    ensures Sorted(a)
  {
    assert forall i :: 0 <= i < |a| ==> a[i] == b[i];
  }

  /** Frames behind one that cannot be read are not read either. */
  lemma {:induction false} ReadingStops(e: Env, frames: Log, more: Log)
    requires !AllFit(e, frames)
    ensures ReadablePart(e, frames + more) == ReadablePart(e, frames)
    decreases |frames|
  {
    hide Fits, AllFit, ReadablePart;
    ReadableCons(e, frames);
    if frames != [] {
      assert (frames + more)[1..] == frames[1..] + more;
      ReadableCons(e, frames + more);
      if Fits(e, frames[0]) { ReadingStops(e, frames[1..], more); }
    }
  }

  lemma ReadableCons(e: Env, frames: Log)
    ensures frames == [] ==> AllFit(e, frames)
    ensures frames != [] ==>
      && (AllFit(e, frames) <==> Fits(e, frames[0]) && AllFit(e, frames[1..]))
      && ReadablePart(e, frames) == if Fits(e, frames[0]) then [frames[0]] + ReadablePart(e, frames[1..]) else []
  {
    hide Fits;
    if frames != [] { assert frames == [frames[0]] + frames[1..]; }
  }

  lemma BareLoadsNothing(e: Env, file: Option<seq<byte>>, frames: Log)
    requires Bare(e, file, frames)
    ensures !(HEADER <= file.value) && FileLog(e, file) == []
  {
    if frames != [] { PrefixOfFront(HEADER, Frame(e, frames[0]), Frames(e, frames[1..])); }
  }

  lemma PrefixOfFront(h: seq<byte>, a: seq<byte>, b: seq<byte>)
    requires |h| <= |a|
    ensures h <= a + b <==> h <= a
  {
    assert (a + b)[..|h|] == a[..|h|];
  }

  /** A reload finds a sorted log, and the file is in order with it. */
  lemma ReloadInOrder(e: Env, file: Option<seq<byte>>, log: Log)
    requires CodecLaw(e) && FileInOrder(e, file, log)
    ensures Sorted(FileLog(e, file)) && FileInOrder(e, file, FileLog(e, file))
  {
    hide Load, Image, Frames, Encodable, SpellsHeader;
    if frames :| Full(e, file, log, frames) {
      LoadOfImage(e, frames);
      assert Full(e, file, FileLog(e, file), frames);
    } else if frames :| Bare(e, file, frames) {
      BareLoadsNothing(e, file, frames);
    }
  }

  lemma RewrittenInOrder(e: Env, out: Log)
    requires Sorted(out) && Encodable(e, out)
    ensures FileInOrder(e, Some(Image(e, out)), out)
  {
    hide Image, Frames;
    PrefixIsSorted(ReadablePart(e, out), out);
    assert Full(e, Some(Image(e, out)), out, out);
  }

  lemma FullExtended(e: Env, file: Option<seq<byte>>, log: Log, frames: Log, rs: seq<Record>)
    requires Full(e, file, log, frames) && Encodable(e, rs) && Sorted(log + rs)
    ensures Full(e, Extended(file, Frames(e, rs)), log + rs, frames + rs)
  {
    hide Frames, Sorted;
    FramesConcat(e, frames, rs);
    assert HEADER + (Frames(e, frames) + Frames(e, rs)) == (HEADER + Frames(e, frames)) + Frames(e, rs);
    if AllFit(e, frames) {
      PrefixIsSorted(ReadablePart(e, frames + rs), frames + rs);
    } else {
      ReadingStops(e, frames, rs);
      assert !AllFit(e, frames + rs) by { FitsFront(e, frames, rs); }
    }
  }

  lemma FitsFront(e: Env, a: Log, b: Log)
    ensures AllFit(e, a + b) ==> AllFit(e, a)
  {
    assert forall i :: 0 <= i < |a| ==> (a + b)[i] == a[i];
  }

  lemma BareExtended(e: Env, file: Option<seq<byte>>, frames: Log, rs: seq<Record>)
    requires Bare(e, file, frames) && Encodable(e, rs) && rs != [] && (frames == [] ==> !SpellsHeader(e, rs[0]))
    ensures Bare(e, Extended(file, Frames(e, rs)), frames + rs)
  {
    hide Frames, SpellsHeader;
    FramesConcat(e, frames, rs);
    if frames == [] { assert (frames + rs)[0] == rs[0]; }
  }

  lemma ExtendedInOrder(e: Env, file: Option<seq<byte>>, log: Log, rs: seq<Record>)
    requires FileInOrder(e, file, log) && file.Some? && Encodable(e, rs) && rs != [] && Sorted(log + rs)
    requires HEADER <= file.value || !SpellsHeader(e, rs[0])
    ensures FileInOrder(e, Extended(file, Frames(e, rs)), log + rs)
  {
    hide Full, Bare, Frames, SpellsHeader, Sorted, Extended;
    if frames :| Full(e, file, log, frames) {
      FullExtended(e, file, log, frames, rs);
    } else {
      var frames :| Bare(e, file, frames);
      BareLoadsNothing(e, file, frames);
      BareIsFrames(e, file, frames);
      BareExtended(e, file, frames, rs);
    }
  }

  lemma BareIsFrames(e: Env, file: Option<seq<byte>>, frames: Log)
    requires Bare(e, file, frames)
    ensures Encodable(e, frames) && file == Some(Frames(e, frames))
  {
  }

  /** The state in which a worker call starts. */
  lemma WorkerInOrder(e: Env, s: Stream, disk: Disk)
    requires Orderly(e, s)
    ensures var s1 := WithWorker(Hydrated(e, s), disk);
      && s1.storage == Some(CurrentLog(e, s)) && s1.worker && s1.file.Some?
      && FileInOrder(e, s1.file, CurrentLog(e, s))
      && (HasHeader(s, disk) ==> HEADER <= s1.file.value)
  {
    hide Load, LatestWrite, Sorted;
    var none: Log := [];
    assert Image(e, none) == HEADER && Frames(e, none) == [];
    if s.file.None? {
      if disk.headerOk { assert Full(e, Some(HEADER), none, none); } else { assert Bare(e, Some([]), none); }
    }
  }

  lemma BatchInOrder(e: Env, s: Stream, rs: seq<Record>, disk: Disk)
    requires Lawful(e) && Orderly(e, s) && KeepsOrder(e, s, Batch(rs, disk))
    ensures Orderly(e, AfterBatch(e, s, rs, disk).0)
  {
    hide Sorted, Image, Frames, Encodable, Load, LatestWrite, AppendAll, Ordered, SpellsHeader, HasHeader;
    hide CodecLaw, SearchLaw, PartitionLaw, FileInOrder;
    if rs != [] {
      var log := CurrentLog(e, s);
      var out := BatchLog(e, log, rs);
      var s1 := WithWorker(Hydrated(e, s), disk);
      WorkerInOrder(e, s, disk);
      BatchIsFold(e, log, rs);
      AppendAllKeepsSorted(e, log, rs);
      if Ordered(log, rs) {
        if Encodable(e, rs) { ExtendedInOrder(e, s1.file, log, rs); }
      } else if Encodable(e, out) {
        RewrittenInOrder(e, out);
      }
    }
  }

  lemma CompactionInOrder(e: Env, s: Stream, actor: string, timestamp: nat, disk: Disk)
    requires Orderly(e, s) && KeepsOrder(e, s, Compaction(actor, timestamp, disk))
    ensures Orderly(e, AfterCompact(e, s, actor, timestamp, disk).0)
  {
    hide Sorted, Image, Encodable, Load, LatestWrite, Compacted, FileInOrder;
    var out := Compacted(CurrentLog(e, s), actor, timestamp);
    WorkerInOrder(e, s, disk);
    CompactedIsSorted(CurrentLog(e, s), actor, timestamp);
    if Encodable(e, out) { RewrittenInOrder(e, out); }
  }

  lemma RealignmentInOrder(e: Env, s: Stream, disk: Disk)
    requires Orderly(e, s)
    ensures Orderly(e, AfterRealign(e, s, disk).0)
  {
    hide Sorted, Image, Encodable, Load, LatestWrite, Realigned, RealignRefused, FileInOrder;
    var out := Realigned(CurrentLog(e, s));
    RealignedIsSorted(CurrentLog(e, s));
    if Encodable(e, out) { RewrittenInOrder(e, out); }
  }

  lemma CacheInOrder(e: Env, s: Stream, op: Op)
    requires CodecLaw(e) && Orderly(e, s) && (op.Read? || op.Invalidate? || op.Restart? || op.Clear?)
    requires SearchLaw(e)
    ensures Orderly(e, Next(e, s, op).0)
  {
    hide Load, LatestWrite, CodecLaw, SearchLaw, FileInOrder, Sorted;
    ReloadInOrder(e, s.file, CurrentLog(e, s));
    if op.Clear? {
      SortedNone();
      RewrittenInOrder(e, []);
      assert Image(e, []) == HEADER;
      ReloadInOrder(e, Some(HEADER), []);
    }
  }

  lemma SortedNone()
    ensures Sorted([])
  {
  }

  /** A call that is no compaction refused with a change keeps the log sorted, now
      and after any reload. */
  lemma OrderStep(e: Env, s: Stream, op: Op)
    requires Lawful(e) && Orderly(e, s) && KeepsOrder(e, s, op)
    ensures Orderly(e, Next(e, s, op).0)
  {
    hide Orderly, CodecLaw, SearchLaw, PartitionLaw, AfterAppend, AfterBatch, AfterCompact, AfterRealign;
    match op
    case Append(r, disk) =>
      AppendIsBatchOfOne(e, s, r, disk);
      BatchInOrder(e, s, [r], disk);
    case Batch(rs, disk) => BatchInOrder(e, s, rs, disk);
    case Compaction(actor, timestamp, disk) => CompactionInOrder(e, s, actor, timestamp, disk);
    case Realignment(disk) => RealignmentInOrder(e, s, disk);
    case _ => CacheInOrder(e, s, op);
  }

  ghost predicate OrderedRun(e: Env, s: Stream, ops: seq<Op>)
    requires SearchLaw(e)
    decreases |ops|
  {
    ops == [] || (KeepsOrder(e, s, ops[0]) && OrderedRun(e, Next(e, s, ops[0]).0, ops[1..]))
  }

  lemma {:induction false} RunStaysOrderly(e: Env, s: Stream, ops: seq<Op>)
    requires Lawful(e) && Orderly(e, s) && OrderedRun(e, s, ops)
    ensures Orderly(e, Run(e, s, ops))
    decreases |ops|
  {
    hide Orderly, KeepsOrder, Next;
    if ops != [] {
      OrderStep(e, s, ops[0]);
      RunStaysOrderly(e, Next(e, s, ops[0]).0, ops[1..]);
    }
  }

  /** Over any run in which no compaction is refused with a change, oversize records,
      missing headers, failed writes and restarts included, the log is sorted, so is
      what a restart finds, and every read by id is the linear filter. */
  lemma RunIsSorted(e: Env, s: Stream, ops: seq<Op>)
    requires Lawful(e) && Orderly(e, s) && OrderedRun(e, s, ops)
    ensures var s' := Run(e, s, ops);
      && Sorted(CurrentLog(e, s')) && Sorted(CurrentLog(e, AfterRestart(s')))
      && forall id :: Since(e, CurrentLog(e, s'), Some(id)) == KeepAfter(CurrentLog(e, s'), Some(id))
  {
    hide Sorted, CodecLaw, SearchLaw, FileInOrder, Load, Since, KeepAfter;
    RunStaysOrderly(e, s, ops);
    var s' := Run(e, s, ops);
    ReloadInOrder(e, s'.file, CurrentLog(e, s'));
    SinceIsFilterOnSorted(e, CurrentLog(e, s'));
  }

  /** Every stream in sync may start such a run. */
  lemma SyncedIsOrderly(e: Env, s: Stream)
    requires InSync(e, s)
    ensures Orderly(e, s) && CacheRight(s)
  {
    hide Image, Load, LatestWrite, Sorted;
    var log := CurrentLog(e, s);
    if s.file.Some? {
      NothingHeld(e, log);
      RewrittenInOrder(e, log);
    }
  }

  // ----- a refused compaction -----------------------------------------------------------------

  /** After a compaction refused with its file left as it was, a record above the
      compacted ids is acknowledged behind the old frames. What a restart then finds
      is sorted exactly when the record's id is not below the old log's last. */
  lemma RefusedCompactionThenAppend(e: Env, s: Stream, actor: string, timestamp: nat, disk: Disk,
                                    x: Record, headerOk: bool)
    requires Lawful(e) && InSync(e, s) && HeaderReady(s, disk) && Fits(e, x)
    requires CompactionRefused(e, s, Compaction(actor, timestamp, disk))
    requires x.id >= |Compacted(CurrentLog(e, s), actor, timestamp)|
    ensures var log, s1 := CurrentLog(e, s), AfterCompact(e, s, actor, timestamp, disk).0;
      var (s2, ok) := AfterAppend(e, s1, x, Disk(headerOk, true));
      && ok && CurrentLog(e, AfterRestart(s2)) == log + [x]
      && (Sorted(log + [x]) <==> log == [] || log[|log| - 1].id <= x.id)
  {
    hide Image, Frames, Frame, Load, LatestWrite, Sorted, Compacted, CodecLaw, SearchLaw, PartitionLaw, AppendLog;
    var log := CurrentLog(e, s);
    var out := Compacted(log, actor, timestamp);
    var s1 := AfterCompact(e, s, actor, timestamp, disk).0;
    WorkerReady(e, s, disk);
    CompactedLast(log, actor, timestamp, x);
    AppendInOrder(e, out, x);
    OneMoreFrame(e, log, x);
    LoadOfImage(e, log + [x]);
    SortedSnoc(log, x);
  }

  lemma CompactedLast(log: Log, actor: string, timestamp: nat, x: Record)
    ensures x.id >= |Compacted(log, actor, timestamp)| ==> InOrder(Compacted(log, actor, timestamp), x)
  {
    hide Compacted;
    CompactedIsSorted(log, actor, timestamp);
  }

  lemma OneMoreFrame(e: Env, log: Log, x: Record)
    requires AllFit(e, log) && Fits(e, x)
    ensures Encodable(e, log) && AllFit(e, log + [x]) && Image(e, log + [x]) == Image(e, log) + Frame(e, x)
  {
    hide Frame;
    var one := [x];
    FramesConcat(e, log, one);
    assert one[1..] == [];
    assert Frames(e, one) == Frame(e, x) + [];
  }

  lemma SortedSnoc(log: Log, x: Record)
    requires Sorted(log)
    ensures Sorted(log + [x]) <==> log == [] || log[|log| - 1].id <= x.id
  {
    if log != [] {
      var out := log + [x];
      assert out[|log| - 1] == log[|log| - 1] && out[|log|] == x;
    }
  }

  /** So a stream in sync can come to hold an unsorted log, on which some read by id
      is not the filter, whatever index the search returns. */
  lemma RefusedCompactionUnsorts(e: Env, r: Record, x: Record, actor: string, timestamp: nat)
    requires Lawful(e) && Fits(e, r) && Fits(e, x) && IsWrite(r) && r.id == 5 && x.id == 1
    ensures var s := Stream(Some([r]), Some(Image(e, [r])), Some(r.timestamp), true);
      var ops := [Compaction(actor, timestamp, Disk(true, false)), Append(x, Disk(true, true)), Restart];
      var log := CurrentLog(e, Run(e, s, ops));
      && InSync(e, s) && log == [r, x] && !Sorted(log)
      && exists id :: Since(e, log, Some(id)) != KeepAfter(log, Some(id))
  {
    hide Sorted, Load, Compacted, CodecLaw, SearchLaw, PartitionLaw, AfterCompact, AfterAppend, LatestWrite;
    hide Since, KeepAfter, Run, InSync, Image;
    var s := Stream(Some([r]), Some(Image(e, [r])), Some(r.timestamp), true);
    var compaction, append := Compaction(actor, timestamp, Disk(true, false)), Append(x, Disk(true, true));
    RefusedCompactionDiverges(e, r, actor, timestamp);
    LoneWriteCompacts(r, actor, timestamp);
    RefusedCompactionThenAppend(e, s, actor, timestamp, Disk(true, false), x, true);
    assert [r] + [x] == [r, x];
    RunThree(e, s, compaction, append, Restart);
    SinceIsFilterOnSorted(e, [r, x]);
  }

  lemma LoneWriteCompacts(r: Record, actor: string, timestamp: nat)
    requires IsWrite(r)
    ensures |Compacted([r], actor, timestamp)| == 1
  {
    hide LastOf, Kept, Compacted;
    LastOfOne(Schema, r);
    LastOfOne(Metadata, r);
    CompactionKeepsLatest([r], actor, timestamp);
    EmptyElements(Kept([r]));
  }

  lemma LastOfOne(w: Wanted, r: Record)
    requires !Is(w, r)
    ensures LastOf(w, [r]) == None
  {
    assert [r][..0] == [];
    assert LastOf(w, [r]) == LastOf(w, [r][..0]);
  }

  lemma RunThree(e: Env, s: Stream, a: Op, b: Op, c: Op)
    requires SearchLaw(e)
    ensures Run(e, s, [a, b, c]) == Next(e, Next(e, Next(e, s, a).0, b).0, c).0
  {
    hide Next, SearchLaw;
    assert [a, b, c][1..] == [b, c] && [b, c][1..] == [c] && [c][1..] == [];
    var s1 := Next(e, s, a).0;
    var s2 := Next(e, s1, b).0;
    assert Run(e, s2, [c]) == Run(e, Next(e, s2, c).0, []);
    assert Run(e, s1, [b, c]) == Run(e, s2, [c]);
  }
}
