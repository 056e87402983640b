/** The stream's calls as the manager and its worker carry them out: the
    vector, the file and the cached timestamp are changed step by step. */
module WalManager {
  import opened Prelude
  import opened WalRecords
  import opened WalLog
  import opened WalFrames
  import opened WalRewrite
  import opened WalStream

  lemma {:induction false} AppendAllSnoc(e: Env, log: Log, rs: seq<Record>, r: Record)
    requires SearchLaw(e)
    ensures AppendAll(e, log, rs + [r]) == AppendLog(e, AppendAll(e, log, rs), r)
    decreases |rs|
  {
    hide SearchLaw, Sorted, AppendLog;
    if rs == [] {
      assert [r][1..] == [] && rs + [r] == [r];
    } else {
      AppendAllSnoc(e, AppendLog(e, log, rs[0]), rs[1..], r);
      assert (rs + [r])[1..] == rs[1..] + [r];
    }
  }

  /** The late half of `Append` and of one step of `AppendBatch`: drop an exact
      duplicate, or insert behind every id that does not exceed the record's. */
  method MergeLate(e: Env, working: Log, record: Record) returns (out: Log, grew: bool)
    requires Lawful(e) && !InOrder(working, record)
    ensures out == AppendLog(e, working, record)
    ensures if grew then |out| == |working| + 1 else out == working
  {
    hide CodecLaw, PartitionLaw, Sorted, IsSearchResult, Walk, DuplicateFrom;
    var base := e.search(working, record.id);
    var duplicate := DuplicateAtOrAfter(working, record, base);
    if duplicate { return working, false; }
    var pos := InsertPosition(working, record.id, base);
    return working[..pos] + [record] + working[pos..], true;
  }

  method MergeOne(e: Env, working: Log, record: Record) returns (out: Log, grew: bool)
    requires Lawful(e)
    ensures out == AppendLog(e, working, record)
    ensures if grew then |out| == |working| + 1 else out == working
  {
    hide CodecLaw, PartitionLaw, SearchLaw, AppendLog;
    if working == [] || record.id > working[|working| - 1].id {
      AppendInOrder(e, working, record);
      return working + [record], true;
    }
    out, grew := MergeLate(e, working, record);
  }

  class ManagedStream {
    const e: Env
    var storage: Option<Log>
    var file: Option<seq<byte>>
    var highWater: Option<nat>
    var worker: bool

    ghost function State(): (s: Stream)
      reads this
    {
      Stream(storage, file, highWater, worker)
    }

    constructor (env: Env)
      ensures e == env && State() == FRESH
    {
      e := env;
      storage, file, highWater, worker := None, None, None, false;
    }

    /** `hydrate_stream_if_needed`. */
    method Hydrate()
      modifies this
      ensures State() == Hydrated(e, old(State()))
    {
      if storage.Some? { return; }
      if file.None? {
        storage := Some([]);
        return;
      }
      var existing := LoadFromPath(e, file.value);
      storage := Some(existing);
      highWater := LatestWrite(existing);
    }

    /** `get_or_spawn_worker` with `ensure_wal_file`. */
    method StartWorker(disk: Disk)
      modifies this
      ensures State() == WithWorker(old(State()), disk)
    {
      if worker { return; }
      worker := true;
      if file.None? {
        file := Some(if disk.headerOk then HEADER else []);
      }
    }

    method RaiseHighWater(ts: Option<nat>)
      modifies this`highWater
      ensures highWater == LaterOf(old(highWater), ts)
    {
      if ts.Some? {
        if highWater.None? || ts.value > highWater.value { highWater := ts; }
      }
    }

    /** `append` and the worker's `Append` command. */
    method Append(r: Record, disk: Disk) returns (ok: bool)
      requires Lawful(e)
      modifies this
      ensures (State(), ok) == AfterAppend(e, old(State()), r, disk)
    {
      hide Image, Frames, Frame, Load, LatestWrite, CodecLaw, PartitionLaw, SearchLaw, Sorted, AppendLog;
      Hydrate();
      StartWorker(disk);
      var entries := storage.value;
      var isOrdered := entries == [] || r.id > entries[|entries| - 1].id;
      if isOrdered {
        if e.encode(r).None? { return false; }
        if !disk.writeOk { return false; }
        file := Extended(file, Frame(e, r));
        AppendInOrder(e, entries, r);
        storage := Some(entries + [r]);
      } else {
        var staged, grew := MergeLate(e, entries, r);
        if grew {
          var bytes := FileBytes(e, staged);
          if bytes.None? || !disk.writeOk { return false; }
          file := bytes;
          storage := Some(staged);
        }
      }
      RaiseHighWater(WriteTimestamp(r));
      return true;
    }

    /** The ordering test at the head of the worker's `AppendBatch` command. */
    method IsOrdered(entries: Log, records: seq<Record>) returns (ordered: bool)
      ensures ordered <==> Ordered(entries, records)
    {
      var previous: Option<nat> := if entries == [] then None else Some(entries[|entries| - 1].id);
      var i := 0;
      while i < |records|
        invariant 0 <= i <= |records|
        invariant Ordered(entries, records[..i])
        invariant i == 0 ==> previous == if entries == [] then None else Some(entries[|entries| - 1].id)
        invariant i > 0 ==> previous == Some(records[i - 1].id)
      {
        if previous.Some? && records[i].id <= previous.value { return false; }
        previous := Some(records[i].id);
        i := i + 1;
      }
      assert records[..i] == records;
      return true;
    }

    /** The merge path of `AppendBatch`, on a staged copy of the vector. */
    method MergeAll(entries: Log, records: seq<Record>) returns (staged: Log, dirty: bool)
      requires Lawful(e)
      ensures staged == AppendAll(e, entries, records)
      ensures dirty <==> staged != entries
    {
      hide CodecLaw, PartitionLaw, SearchLaw, Sorted, AppendLog;
      staged, dirty := entries, false;
      var i := 0;
      while i < |records|
        invariant 0 <= i <= |records|
        invariant staged == AppendAll(e, entries, records[..i])
        invariant if dirty then |staged| > |entries| else staged == entries
      {
        var record := records[i];
        AppendAllSnoc(e, entries, records[..i], record);
        assert records[..i + 1] == records[..i] + [record];
        var grew: bool;
        staged, grew := MergeOne(e, staged, record);
        dirty := dirty || grew;
        i := i + 1;
      }
      assert records[..i] == records;
    }

    /** `append_batch` and the worker's `AppendBatch` command. */
    method AppendBatch(records: seq<Record>, disk: Disk) returns (ok: bool)
      requires Lawful(e)
      modifies this
      ensures (State(), ok) == AfterBatch(e, old(State()), records, disk)
    {
      hide Image, Frames, Frame, Load, LatestWrite, Sorted, AppendAll, CodecLaw, PartitionLaw, SearchLaw;
      if records == [] { return true; }
      var latest := LatestWrite(records);
      Hydrate();
      StartWorker(disk);
      var entries := storage.value;
      var ordered := IsOrdered(entries, records);
      if ordered {
        var frames := FrameBatch(e, records);
        if frames.None? { return false; }
        if !disk.writeOk { return false; }
        file := Extended(file, frames.value);
        storage := Some(entries + records);
      } else {
        var staged, dirty := MergeAll(entries, records);
        if dirty {
          var bytes := FileBytes(e, staged);
          if bytes.None? || !disk.writeOk { return false; }
          file := bytes;
          storage := Some(staged);
        }
      }
      RaiseHighWater(latest);
      return true;
    }

    /** `compact_stream_to_latest_schema_and_metadata`: the vector changes before the file does. */
    method CompactStream(actor: string, timestamp: nat, disk: Disk) returns (ok: bool)
      modifies this
      ensures (State(), ok) == AfterCompact(e, old(State()), actor, timestamp, disk)
    {
      hide Image, Frames, Load, Compacted;
      Hydrate();
      StartWorker(disk);
      var entries := Compact(storage.value, actor, timestamp);
      storage := Some(entries);
      var bytes := FileBytes(e, entries);
      if bytes.None? || !disk.writeOk { return false; }
      file := bytes;
      highWater := LatestWrite(entries);
      return true;
    }

    /** `realign_stream_records`. */
    method RealignStream(disk: Disk) returns (ok: bool)
      modifies this
      ensures (State(), ok) == AfterRealign(e, old(State()), disk)
    {
      hide Image, Frames, Load, Realigned, RealignRefused;
      Hydrate();
      var rebuilt := Realign(storage.value);
      if rebuilt.None? { return false; }
      var bytes := FileBytes(e, rebuilt.value);
      if bytes.None? || !disk.writeOk { return false; }
      file := bytes;
      storage := rebuilt;
      return true;
    }

    /** `invalidate_stream_cache`. */
    method InvalidateCache()
      modifies this
      ensures State() == AfterInvalidate(old(State()))
    {
      storage := None;
      highWater := None;
    }

    /** `clear_stream_records`. */
    method ClearRecords(disk: Disk) returns (ok: bool)
      modifies this
      ensures (State(), ok) == AfterClear(old(State()), disk)
    {
      worker := false;
      storage := None;
      highWater := None;
      if disk.writeOk { file := Some(HEADER); }
      return disk.writeOk;
    }

    /** `has_write_after`: wherever the cache is right it answers as a scan of the log would. */
    method HasWriteAfter(timestamp: nat) returns (answer: bool)
      modifies this
      ensures State() == AfterRead(e, old(State()))
      ensures CacheRight(old(State())) ==>
        (answer <==> exists r :: r in CurrentLog(e, old(State()))
                                 && r.kind in {Insert, Update, Delete} && r.timestamp > timestamp)
    {
      ghost var log := CurrentLog(e, State());
      LatestWriteIsLatest(log);
      hide Load, LatestWrite;
      Hydrate();
      if highWater.Some? {
        assert forall r :: r in log <==> r in Elements(log);
        return highWater.value > timestamp;
      }
      var latest := LatestWrite(storage.value);
      highWater := latest;
      assert forall r :: r in log <==> r in Elements(log);
      return latest.Some? && latest.value > timestamp;
    }

    /** `since`: the suffix the search finds, which on a sorted log is the linear
        filter on ids. */
    method ReadSince(from: Option<nat>) returns (records: Log)
      requires Lawful(e)
      modifies this
      ensures State() == Hydrated(e, old(State()))
      ensures records == Since(e, CurrentLog(e, old(State())), from)
      ensures Sorted(CurrentLog(e, old(State()))) ==> records == KeepAfter(CurrentLog(e, old(State())), from)
    {
      hide Load, LatestWrite, CodecLaw, SearchLaw;
      Hydrate();
      if Sorted(storage.value) { SinceIsFilter(e, storage.value, from); }
      records := Since(e, storage.value, from);
    }

    /** `since_kinds`: what `since` returns, filtered by kind. */
    method ReadSinceKinds(from: Option<nat>, kinds: seq<Kind>) returns (records: Log)
      modifies this
      ensures kinds != [] ==> State() == Hydrated(e, old(State()))
      ensures kinds == [] ==> State() == old(State())
      ensures records == KeepKinds(KeepAfter(CurrentLog(e, old(State())), from), kinds)
    {
      SinceKindsIsFilteredRead(CurrentLog(e, State()), from, kinds);
      if kinds == [] { return []; }
      Hydrate();
      records := SinceKinds(storage.value, from, kinds);
    }
  }
}
