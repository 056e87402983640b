/** Transaction records, and the parts of a write-ahead-log stream that the
    source takes from elsewhere: the record codec and the standard library's
    searches over a sorted slice. */
module WalRecords {
  import opened Prelude

  datatype Kind =
    | Ignore | WriteBegin | WriteCommit | WriteAbort
    | Insert | Update | Delete | Truncate
    | TableLifecycle | IndexLifecycle
    | SchemaChange | MetadataChange | SqlDefinitionChange | SecurityChange

  datatype Record = Record(
    id: nat,
    groupid: Option<nat>,
    refid: Option<nat>,
    timestamp: nat,
    actor: string,
    kind: Kind,
    payload: Option<seq<byte>>)

  type Log = seq<Record>

  predicate IsWrite(r: Record) {
    r.kind.Insert? || r.kind.Update? || r.kind.Delete?
  }

  ghost predicate Sorted(log: Log) {
    forall i, j :: 0 <= i < j < |log| ==> log[i].id <= log[j].id
  }

  ghost predicate StrictlySorted(log: Log) {
    forall i, j :: 0 <= i < j < |log| ==> log[i].id < log[j].id
  }

  /** `encode` and `decode` stand for bincode, zlib and row encryption under the
      default payload context; `search` for `binary_search_by_key`, which may
      return any matching index; `partition` for `partition_point`. On a slice that
      is not sorted the last two return some index. */
  datatype Env = Env(
    encode: Record -> Option<seq<byte>>,
    decode: seq<byte> -> Option<Record>,
    maxFrame: nat,
    search: (Log, nat) -> nat,
    partition: (Log, nat) -> nat)

  const U64_LIMIT: nat := 0x1_0000_0000_0000_0000

  ghost predicate CodecLaw(e: Env) {
    && e.maxFrame < U64_LIMIT
    && forall r: Record :: e.encode(r).Some? ==>
         |e.encode(r).value| < U64_LIMIT && e.decode(e.encode(r).value) == Some(r)
  }

  ghost predicate HasId(log: Log, key: nat) {
    exists j :: 0 <= j < |log| && log[j].id == key
  }

  ghost predicate IsSearchResult(log: Log, key: nat, i: nat) {
    && i <= |log|
    && (HasId(log, key) ==> i < |log| && log[i].id == key)
    && (!HasId(log, key) ==> SplitsAt(log, key, i))
  }

  /** Ids up to `key` lie before position `i`, larger ones from it on. */
  ghost predicate SplitsAt(log: Log, key: nat, i: nat) {
    && i <= |log|
    && (forall j :: 0 <= j < i ==> log[j].id <= key)
    && (forall j :: i <= j < |log| ==> key < log[j].id)
  }

  ghost predicate SearchLaw(e: Env) {
    forall log: Log, key: nat ::
      && e.search(log, key) <= |log|
      && (Sorted(log) ==> IsSearchResult(log, key, e.search(log, key)))
  }

  ghost predicate PartitionLaw(e: Env) {
    forall log: Log, key: nat ::
      && e.partition(log, key) <= |log|
      && (Sorted(log) ==> SplitsAt(log, key, e.partition(log, key)))
  }

  ghost predicate Lawful(e: Env) {
    CodecLaw(e) && SearchLaw(e) && PartitionLaw(e)
  }
}
