/** The on-disk format of a stream: a five-byte header, then one frame per
    record (an eight-byte little-endian length and the encoded record), and the
    two loops that read it back. */
module WalFrames {
  import opened Prelude
  import opened WalRecords

  const HEADER: seq<byte> := [0x44, 0x54, 0x42, 0x4C, 1]  // "DTBL", version 1
  const HEADER_SIZE: nat := 5
  const LENGTH_SIZE: nat := 8

  // ----- little-endian lengths -------------------------------------------------

  function ToLittleEndian(n: nat, width: nat): (bs: seq<byte>)
    ensures |bs| == width
  {
    if width == 0 then [] else [n % 256] + ToLittleEndian(n / 256, width - 1)
  }

  function FromLittleEndian(bs: seq<byte>): (n: nat) {
    if bs == [] then 0 else bs[0] + 256 * FromLittleEndian(bs[1..])
  }

  ghost function Power256(k: nat): (n: nat)
    ensures n > 0
  {
    if k == 0 then 1 else 256 * Power256(k - 1)
  }

  lemma {:induction false} LittleEndianRoundTrip(n: nat, width: nat)
    requires n < Power256(width)
    ensures FromLittleEndian(ToLittleEndian(n, width)) == n
  {
    if width > 0 { LittleEndianRoundTrip(n / 256, width - 1); }
  }

  lemma LengthRoundTrip(n: nat)
    requires n < U64_LIMIT
    ensures FromLittleEndian(ToLittleEndian(n, LENGTH_SIZE)) == n
  {
    assert Power256(4) == 0x1_0000_0000;
    assert Power256(8) == U64_LIMIT;
    LittleEndianRoundTrip(n, LENGTH_SIZE);
  }

  // ----- writing ---------------------------------------------------------------

  predicate Encodable(e: Env, log: Log) {
    forall i :: 0 <= i < |log| ==> e.encode(log[i]).Some?
  }

  /** The encoded record is within the frame limit that readers enforce. */
  predicate Fits(e: Env, r: Record) {
    e.encode(r).Some? && |e.encode(r).value| <= e.maxFrame
  }

  predicate AllFit(e: Env, log: Log) {
    forall i :: 0 <= i < |log| ==> Fits(e, log[i])
  }

  function Frame(e: Env, r: Record): (bs: seq<byte>)
    requires e.encode(r).Some?
    ensures |bs| == LENGTH_SIZE + |e.encode(r).value|
  {
    ToLittleEndian(|e.encode(r).value|, LENGTH_SIZE) + e.encode(r).value
  }

  function Frames(e: Env, log: Log): (bs: seq<byte>)
    requires Encodable(e, log)
  {
    if log == [] then [] else Frame(e, log[0]) + Frames(e, log[1..])
  }

  function Image(e: Env, log: Log): (bs: seq<byte>)
    requires Encodable(e, log)
  {
    HEADER + Frames(e, log)
  }

  lemma {:induction false} FramesConcat(e: Env, a: Log, b: Log)
    requires Encodable(e, a) && Encodable(e, b)
    ensures Encodable(e, a + b)
    ensures Frames(e, a + b) == Frames(e, a) + Frames(e, b)
  {
    if a == [] {
      assert a + b == b;
    } else {
      FramesConcat(e, a[1..], b);
      assert (a + b)[1..] == a[1..] + b;
    }
  }

  /** `frame_record` over a batch: all frames, or nothing if one record cannot be encoded. */
  method FrameBatch(e: Env, records: seq<Record>) returns (frames: Option<seq<byte>>)
    ensures frames.Some? <==> Encodable(e, records)
    ensures frames.Some? ==> frames.value == Frames(e, records)
  {
    var out: seq<byte> := [];
    var i := 0;
    while i < |records|
      invariant 0 <= i <= |records|
      invariant Encodable(e, records[..i]) && out == Frames(e, records[..i])
    {
      if e.encode(records[i]).None? { return None; }
      FramesConcat(e, records[..i], [records[i]]);
      assert records[..i + 1] == records[..i] + [records[i]];
      assert [records[i]][1..] == [];
      out := out + Frame(e, records[i]);
      i := i + 1;
    }
    assert records[..i] == records;
    return Some(out);
  }

  /** `rewrite_wal_file`: the bytes that replace the whole file. */
  method FileBytes(e: Env, records: seq<Record>) returns (bytes: Option<seq<byte>>)
    ensures bytes.Some? <==> Encodable(e, records)
    ensures bytes.Some? ==> bytes.value == Image(e, records)
  {
    var frames := FrameBatch(e, records);
    bytes := if frames.Some? then Some(HEADER + frames.value) else None;
  }

  // ----- what reading means -----------------------------------------------------

  /** Frames are taken from the front while they are whole, within the limit and decodable. */
  function DecodeFrames(e: Env, bs: seq<byte>): (log: Log)
    decreases |bs|
  {
    if |bs| < LENGTH_SIZE then [] else
    var len := FromLittleEndian(bs[..LENGTH_SIZE]);
    if len > e.maxFrame || LENGTH_SIZE + len > |bs| then [] else
    match e.decode(bs[LENGTH_SIZE..LENGTH_SIZE + len])
    case None => []
    case Some(r) => [r] + DecodeFrames(e, bs[LENGTH_SIZE + len..])
  }

  function Load(e: Env, bytes: seq<byte>): (log: Log) {
    if HEADER <= bytes then DecodeFrames(e, bytes[HEADER_SIZE..]) else []
  }

  /** A frame at the front is read back when it fits, and stops the reader when it does not. */
  lemma DecodeFirst(e: Env, r: Record, rest: seq<byte>)
    requires CodecLaw(e) && e.encode(r).Some?
    ensures DecodeFrames(e, Frame(e, r) + rest)
         == if Fits(e, r) then [r] + DecodeFrames(e, rest) else []
  {
    var body := e.encode(r).value;
    var bs := Frame(e, r) + rest;
    assert bs[..LENGTH_SIZE] == ToLittleEndian(|body|, LENGTH_SIZE);
    LengthRoundTrip(|body|);
    assert bs[LENGTH_SIZE..LENGTH_SIZE + |body|] == body;
    assert bs[LENGTH_SIZE + |body|..] == rest;
  }

  /** The records before the first one over the frame limit. */
  function ReadablePart(e: Env, log: Log): (out: Log)
    ensures out <= log
    ensures out == log <==> AllFit(e, log)
  {
    if log == [] || !Fits(e, log[0]) then []
    else
      assert AllFit(e, log) ==> AllFit(e, log[1..]);
      assert log == [log[0]] + log[1..];
      [log[0]] + ReadablePart(e, log[1..])
  }

  lemma {:induction false} DecodeOfFrames(e: Env, log: Log)
    requires CodecLaw(e) && Encodable(e, log)
    ensures DecodeFrames(e, Frames(e, log)) == ReadablePart(e, log)
  {
    if log != [] {
      DecodeFirst(e, log[0], Frames(e, log[1..]));
      DecodeOfFrames(e, log[1..]);
    }
  }

  /** Loading a written file gives the written records exactly when every one
      is within the frame limit; otherwise it stops before the first that is not. */
  lemma LoadOfImage(e: Env, log: Log)
    requires CodecLaw(e) && Encodable(e, log)
    ensures Load(e, Image(e, log)) == ReadablePart(e, log)
    ensures Load(e, Image(e, log)) == log <==> AllFit(e, log)
    ensures Load(e, Image(e, log)) == log <==> forall i :: 0 <= i < |log| ==> |e.encode(log[i]).value| <= e.maxFrame
  {
    DecodeOfFrames(e, log);
    assert Image(e, log)[HEADER_SIZE..] == Frames(e, log);
  }

  lemma {:induction false} DecodeBefore(e: Env, log: Log, rest: seq<byte>)
    requires CodecLaw(e) && AllFit(e, log) && DecodeFrames(e, rest) == []
    ensures DecodeFrames(e, Frames(e, log) + rest) == log
  {
    hide DecodeFrames;
    if log == [] {
      assert Frames(e, log) + rest == rest;
    } else {
      DecodeBefore(e, log[1..], rest);
      assert Frames(e, log) + rest == Frame(e, log[0]) + (Frames(e, log[1..]) + rest);
      DecodeFirst(e, log[0], Frames(e, log[1..]) + rest);
    }
  }

  lemma BadFrame(e: Env, body: seq<byte>, rest: seq<byte>)
    requires |body| < U64_LIMIT && (e.decode(body) == None || |body| > e.maxFrame)
    ensures DecodeFrames(e, ToLittleEndian(|body|, LENGTH_SIZE) + body + rest) == []
  {
    var len := ToLittleEndian(|body|, LENGTH_SIZE);
    var bad := len + body + rest;
    LengthRoundTrip(|body|);
    assert bad[..LENGTH_SIZE] == len;
    assert bad[LENGTH_SIZE..LENGTH_SIZE + |body|] == body;
  }

  /** A whole frame that cannot be decoded, or one over the limit, ends the load:
      the records before it are kept and nothing behind it is read. */
  lemma LoadStopsAtBadFrame(e: Env, log: Log, body: seq<byte>, rest: seq<byte>)
    requires CodecLaw(e) && AllFit(e, log) && |body| < U64_LIMIT
    requires e.decode(body) == None || |body| > e.maxFrame
    ensures Load(e, Image(e, log) + (ToLittleEndian(|body|, LENGTH_SIZE) + body + rest)) == log
  {
    hide DecodeFrames, Frames, ToLittleEndian, CodecLaw;
    var bad := ToLittleEndian(|body|, LENGTH_SIZE) + body + rest;
    BadFrame(e, body, rest);
    DecodeBefore(e, log, bad);
    LoadAfterHeader(e, Frames(e, log), bad);
  }

  lemma LoadAfterHeader(e: Env, a: seq<byte>, b: seq<byte>)
    ensures Load(e, (HEADER + a) + b) == DecodeFrames(e, a + b)
  {
    hide DecodeFrames;
    assert ((HEADER + a) + b)[HEADER_SIZE..] == a + b;
  }

  /** Only a file that begins with the four magic bytes and the version holds records. */
  lemma LoadNeedsHeader(e: Env, bytes: seq<byte>)
    ensures Load(e, bytes) != [] ==> |bytes| >= 5 && bytes[..5] == [0x44, 0x54, 0x42, 0x4C, 1]
  {
    hide DecodeFrames;
  }

  // ----- cut files ---------------------------------------------------------------

  /** How many frames lie wholly inside the first `k` bytes after the header. */
  function WholeFrames(e: Env, log: Log, k: nat): (n: nat)
    requires Encodable(e, log)
    ensures n <= |log|
  {
    if log == [] || k < |Frame(e, log[0])| then 0
    else 1 + WholeFrames(e, log[1..], k - |Frame(e, log[0])|)
  }

  /** `WholeFrames` is the one count whose frames fit in `k` bytes while one more would not. */
  lemma {:induction false} WholeFramesIsExact(e: Env, log: Log, k: nat, n: nat)
    requires Encodable(e, log) && n <= |log|
    ensures n == WholeFrames(e, log, k) <==>
            |Frames(e, log[..n])| <= k && (n < |log| ==> k < |Frames(e, log[..n + 1])|)
    decreases |log|
  {
    if log != [] {
      var f := |Frame(e, log[0])|;
      if n == 0 {
        assert log[..1][1..] == [];
        assert |Frames(e, log[..1])| == f;
      } else {
        assert log[..n][1..] == log[1..][..n - 1];
        if n < |log| { assert log[..n + 1][1..] == log[1..][..n]; }
        if f <= k { WholeFramesIsExact(e, log[1..], k - f, n - 1); }
      }
    }
  }

  lemma DecodeNothing(e: Env)
    ensures DecodeFrames(e, []) == []
  {
  }

  lemma DecodeInsideFrame(e: Env, r: Record, rest: seq<byte>, k: nat)
    requires CodecLaw(e) && Fits(e, r) && k < |Frame(e, r)|
    ensures DecodeFrames(e, (Frame(e, r) + rest)[..k]) == []
  {
    var bs := (Frame(e, r) + rest)[..k];
    if LENGTH_SIZE <= k {
      assert bs[..LENGTH_SIZE] == ToLittleEndian(|e.encode(r).value|, LENGTH_SIZE);
      LengthRoundTrip(|e.encode(r).value|);
    }
  }

  lemma {:induction false} DecodeOfCut(e: Env, log: Log, k: nat)
    requires CodecLaw(e) && AllFit(e, log) && k <= |Frames(e, log)|
    ensures DecodeFrames(e, Frames(e, log)[..k]) == log[..WholeFrames(e, log, k)]
    decreases |log|
  {
    hide Frame, CodecLaw, DecodeFrames;
    DecodeNothing(e);
    if log != [] {
      var f, rest := Frame(e, log[0]), Frames(e, log[1..]);
      if k < |f| {
        DecodeInsideFrame(e, log[0], rest, k);
      } else {
        var j := k - |f|;
        assert (f + rest)[..k] == f + rest[..j];
        DecodeFirst(e, log[0], rest[..j]);
        DecodeOfCut(e, log[1..], j);
        assert log[..1 + WholeFrames(e, log[1..], j)] == [log[0]] + log[1..][..WholeFrames(e, log[1..], j)];
      }
    }
  }

  /** A file cut anywhere at or past its header loads exactly the records whose frames are whole. */
  lemma LoadOfCut(e: Env, log: Log, cut: nat)
    requires CodecLaw(e) && AllFit(e, log)
    requires HEADER_SIZE <= cut <= |Image(e, log)|
    ensures Load(e, Image(e, log)[..cut]) == log[..WholeFrames(e, log, cut - HEADER_SIZE)]
  {
    DecodeOfCut(e, log, cut - HEADER_SIZE);
    assert Image(e, log)[..cut] == HEADER + Frames(e, log)[..cut - HEADER_SIZE];
  }

  // ----- the two readers -----------------------------------------------------------

  /** What remains to be decoded from position `pos` of a byte string. */
  lemma DecodeAt(e: Env, bytes: seq<byte>, pos: nat)
    requires pos <= |bytes|
    ensures var at := pos + LENGTH_SIZE;
      DecodeFrames(e, bytes[pos..]) ==
      if |bytes| < at then [] else
      var end := at + FromLittleEndian(bytes[pos..at]);
      if end - at > e.maxFrame || end > |bytes| then [] else
      match e.decode(bytes[at..end])
      case None => []
      case Some(r) => [r] + DecodeFrames(e, bytes[end..])
  {
    var here := bytes[pos..];
    if LENGTH_SIZE <= |here| {
      assert here[..LENGTH_SIZE] == bytes[pos..pos + LENGTH_SIZE];
      var len := FromLittleEndian(here[..LENGTH_SIZE]);
      if LENGTH_SIZE + len <= |here| {
        assert here[LENGTH_SIZE..LENGTH_SIZE + len] == bytes[pos + LENGTH_SIZE..pos + LENGTH_SIZE + len];
        assert here[LENGTH_SIZE + len..] == bytes[pos + LENGTH_SIZE + len..];
      }
    }
  }

  /** The byte-slice decoder. */
  method DecodeFromBytes(e: Env, bytes: seq<byte>) returns (records: Log)
    ensures records == if HEADER_SIZE <= |bytes| then DecodeFrames(e, bytes[HEADER_SIZE..]) else []
  {
    hide DecodeFrames, FromLittleEndian;
    records := [];
    var pos := HEADER_SIZE;
    while pos + LENGTH_SIZE <= |bytes|
      invariant HEADER_SIZE <= pos
      invariant pos <= |bytes| || pos == HEADER_SIZE
      invariant HEADER_SIZE <= |bytes| ==>
        records + DecodeFrames(e, bytes[pos..]) == DecodeFrames(e, bytes[HEADER_SIZE..])
      invariant |bytes| < HEADER_SIZE ==> records == []
      decreases |bytes| - pos
    {
      DecodeAt(e, bytes, pos);
      var len := FromLittleEndian(bytes[pos..pos + LENGTH_SIZE]);
      pos := pos + LENGTH_SIZE;
      if len > e.maxFrame { return; }
      var end := pos + len;
      if end > |bytes| { return; }
      match e.decode(bytes[pos..end]) {
        case Some(record) => records := records + [record];
        case None => return;
      }
      pos := end;
    }
    if pos <= |bytes| { DecodeAt(e, bytes, pos); }
  }

  /** A buffered reader over a file's bytes. */
  class ByteReader {
    const data: seq<byte>
    var pos: nat

    ghost predicate Valid() reads this { pos <= |data| }

    constructor (bytes: seq<byte>)
      ensures data == bytes && pos == 0
    {
      data := bytes;
      pos := 0;
    }

    /** `read_exact`: all of the asked bytes, or end of file. */
    method ReadExact(n: nat) returns (chunk: Option<seq<byte>>)
      requires Valid()
      modifies this
      ensures Valid()
      ensures chunk.Some? <==> old(pos) + n <= |data|
      ensures chunk.Some? ==> pos == old(pos) + n && chunk.value == data[old(pos)..pos]
    {
      if pos + n <= |data| {
        chunk := Some(data[pos..pos + n]);
        pos := pos + n;
      } else {
        chunk := None;
        pos := |data|;
      }
    }
  }

  /** The streaming decoder. */
  method DecodeFromReader(e: Env, reader: ByteReader) returns (records: Log)
    requires reader.Valid()
    modifies reader
    ensures reader.Valid()
    ensures records == DecodeFrames(e, old(reader.data[reader.pos..]))
  {
    hide DecodeFrames, FromLittleEndian;
    records := [];
    ghost var all := reader.data[reader.pos..];
    while true
      invariant reader.Valid()
      invariant records + DecodeFrames(e, reader.data[reader.pos..]) == DecodeFrames(e, all)
      decreases |reader.data| - reader.pos
    {
      DecodeAt(e, reader.data, reader.pos);
      var length := reader.ReadExact(LENGTH_SIZE);
      if length.None? { return; }
      var len := FromLittleEndian(length.value);
      if len > e.maxFrame { return; }
      var frame := reader.ReadExact(len);
      if frame.None? { return; }
      match e.decode(frame.value) {
        case Some(record) => records := records + [record];
        case None => return;
      }
    }
  }

  /** `load_records_from_stream`. */
  method LoadFromStream(e: Env, bytes: seq<byte>) returns (records: Log)
    ensures records == Load(e, bytes)
  {
    if !(HEADER <= bytes) { return []; }
    records := DecodeFromBytes(e, bytes);
  }

  /** `load_records_from_path`, on a file that exists. */
  method LoadFromPath(e: Env, bytes: seq<byte>) returns (records: Log)
    ensures records == Load(e, bytes)
  {
    var reader := new ByteReader(bytes);
    var header := reader.ReadExact(HEADER_SIZE);
    if header.None? || header.value != HEADER { return []; }
    assert header.value == bytes[..HEADER_SIZE];
    records := DecodeFromReader(e, reader);
  }

  /** The two readers agree on every byte string. */
  method ReadersAgree(e: Env, bytes: seq<byte>) returns (fromStream: Log, fromPath: Log)
    ensures fromStream == fromPath == Load(e, bytes)
  {
    fromStream := LoadFromStream(e, bytes);
    fromPath := LoadFromPath(e, bytes);
  }
}
