/** Splitting a long INSERT: finding the value tuples in the text after VALUES
    and regrouping them into statements of limited size. Text is bytes. */
module InsertSplit {
  import opened Prelude

  type Text = seq<byte>

  const SINGLE: byte := 0x27
  const DOUBLE: byte := 0x22
  const BACKTICK: byte := 0x60
  const BACKSLASH: byte := 0x5C
  const OPEN: byte := 0x28
  const CLOSE: byte := 0x29
  const COMMA: byte := 0x2C

  // ----- the scanner as a machine over bytes ------------------------------------------

  datatype Control = Control(single: bool, double: bool, backtick: bool, escape: bool, depth: nat)

  const CLEAN := Control(false, false, false, false, 0)

  function Step(c: Control, b: byte): (c': Control) {
    if c.escape then c.(escape := false)
    else if (c.single || c.double) && b == BACKSLASH then c.(escape := true)
    else if b == SINGLE && !c.double && !c.backtick then c.(single := !c.single)
    else if b == DOUBLE && !c.single && !c.backtick then c.(double := !c.double)
    else if b == BACKTICK && !c.single && !c.double then c.(backtick := !c.backtick)
    else if c.single || c.double || c.backtick then c
    else if b == OPEN then c.(depth := c.depth + 1)
    else if b == CLOSE && c.depth > 0 then c.(depth := c.depth - 1)
    else c
  }

  function Run(c: Control, bs: Text): (c': Control) {
    if bs == [] then c else Step(Run(c, bs[..|bs| - 1]), bs[|bs| - 1])
  }

  /** The tuples found in `bs`, from control `c` with `cur` read of an open one. */
  function Tuples(c: Control, cur: Text, bs: Text): (ts: seq<Text>)
    decreases |bs|
  {
    if bs == [] then []
    else
      var c' := Step(c, bs[0]);
      var cur' := if c.depth == 0 && c'.depth == 0 then [] else (if c.depth == 0 then [] else cur) + [bs[0]];
      if c.depth > 0 && c'.depth == 0 then [cur'] + Tuples(c', [], bs[1..]) else Tuples(c', cur', bs[1..])
  }

  // ----- what a tuple is ------------------------------------------------------------------

  /** The machine is inside the text from its first byte until its last. */
  ghost predicate Inside(bs: Text) {
    forall k :: 0 < k <= |bs| ==> Run(CLEAN, bs[..k]).depth > 0
  }

  /** A balanced parenthesised text, its quotes and escapes closed, that is not
      balanced before its end. */
  ghost predicate IsTuple(t: Text) {
    t != [] && Inside(t[..|t| - 1]) && Run(CLEAN, t) == CLEAN && t[0] == OPEN && t[|t| - 1] == CLOSE
  }

  /** Text outside tuples: nothing is opened in it, and its quotes are closed. */
  ghost predicate IsGap(g: Text) {
    Run(CLEAN, g) == CLEAN && forall k :: 0 <= k <= |g| ==> Run(CLEAN, g[..k]).depth == 0
  }

  lemma RunSnoc(c: Control, bs: Text, b: byte)
    ensures Run(c, bs + [b]) == Step(Run(c, bs), b)
  {
    assert (bs + [b])[..|bs|] == bs;
  }

  lemma InsideSnoc(bs: Text, b: byte)
    requires Inside(bs) && Run(CLEAN, bs + [b]).depth > 0
    ensures Inside(bs + [b])
  {
    forall k | 0 < k <= |bs + [b]| ensures Run(CLEAN, (bs + [b])[..k]).depth > 0 {
      if k <= |bs| { assert (bs + [b])[..k] == bs[..k]; } else { assert (bs + [b])[..k] == bs + [b]; }
    }
  }

  /** `cur` is what has been read of an open tuple. */
  ghost predicate Reading(c: Control, cur: Text) {
    c.depth > 0 ==> cur != [] && cur[0] == OPEN && Inside(cur) && Run(CLEAN, cur) == c
  }

  lemma ReadOne(c: Control, cur: Text, b: byte)
    requires Reading(c, cur)
    ensures var c' := Step(c, b);
      && (c.depth == 0 && c'.depth > 0 ==> c == CLEAN && Reading(c', [b]))
      && (c.depth > 0 && c'.depth > 0 ==> Reading(c', cur + [b]))
      && (c.depth > 0 && c'.depth == 0 ==> c' == CLEAN && IsTuple(cur + [b]))
  {
    var c' := Step(c, b);
    if c.depth > 0 {
      RunSnoc(CLEAN, cur, b);
      if c'.depth > 0 { InsideSnoc(cur, b); }
      assert (cur + [b])[..|cur|] == cur;
    } else if c'.depth > 0 {
      RunSnoc(CLEAN, [], b);
      assert [] + [b] == [b];
      assert Inside([]);
      InsideSnoc([], b);
    }
  }

  /** Everything the scanner returns is a tuple. */
  lemma {:induction false} ScannedAreTuples(c: Control, cur: Text, bs: Text)
    requires Reading(c, cur)
    ensures forall i :: 0 <= i < |Tuples(c, cur, bs)| ==> IsTuple(Tuples(c, cur, bs)[i])
    decreases |bs|
  {
    hide Step, Reading, IsTuple;
    if bs != [] {
      var c' := Step(c, bs[0]);
      ReadOne(c, cur, bs[0]);
      NotReading(CLEAN, []);
      if c.depth > 0 && c'.depth == 0 {
        ScannedAreTuples(c', [], bs[1..]);
      } else if c.depth == 0 && c'.depth == 0 {
        NotReading(c', []);
        ScannedAreTuples(c', [], bs[1..]);
      } else if c.depth == 0 {
        assert [] + [bs[0]] == [bs[0]];
        ScannedAreTuples(c', [bs[0]], bs[1..]);
      } else {
        ScannedAreTuples(c', cur + [bs[0]], bs[1..]);
      }
    }
  }

  lemma NotReading(c: Control, cur: Text)
    ensures c.depth == 0 ==> Reading(c, cur)
  {
  }

  lemma {:induction false} ScanRestOfTuple(t: Text, k: nat, rest: Text)
    requires IsTuple(t) && 0 < k < |t|
    ensures Tuples(Run(CLEAN, t[..k]), t[..k], t[k..] + rest) == [t] + Tuples(CLEAN, [], rest)
    decreases |t| - k
  {
    var c, bs := Run(CLEAN, t[..k]), t[k..] + rest;
    assert t[..k + 1] == t[..k] + [t[k]];
    RunSnoc(CLEAN, t[..k], t[k]);
    assert bs[0] == t[k] && bs[1..] == t[k + 1..] + rest;
    assert t[..|t| - 1][..k] == t[..k];
    if k + 1 == |t| {
      assert t[..k + 1] == t && t[k + 1..] + rest == rest;
    } else {
      assert t[..|t| - 1][..k + 1] == t[..k + 1];
      ScanRestOfTuple(t, k + 1, rest);
    }
  }

  /** A tuple at the front is found first, and the scan goes on cleanly behind it. */
  lemma ScanTuple(t: Text, rest: Text)
    requires IsTuple(t)
    ensures Tuples(CLEAN, [], t + rest) == [t] + Tuples(CLEAN, [], rest)
  {
    assert |t| > 1;
    var bs := t + rest;
    RunSnoc(CLEAN, [], t[0]);
    assert t[..1] == [] + [t[0]];
    assert bs[0] == t[0] && bs[1..] == t[1..] + rest;
    ScanRestOfTuple(t, 1, rest);
  }

  lemma {:induction false} ScanFlat(g: Text, k: nat, rest: Text)
    requires IsGap(g) && k <= |g|
    ensures Tuples(Run(CLEAN, g[..k]), [], g[k..] + rest) == Tuples(CLEAN, [], rest)
    decreases |g| - k
  {
    if k == |g| {
      assert g[..k] == g && g[k..] + rest == rest;
    } else {
      assert g[..k + 1] == g[..k] + [g[k]];
      RunSnoc(CLEAN, g[..k], g[k]);
      assert (g[k..] + rest)[0] == g[k] && (g[k..] + rest)[1..] == g[k + 1..] + rest;
      ScanFlat(g, k + 1, rest);
    }
  }

  /** The scanner finds exactly the tuples between gaps: separators, spaces and
      closed quotations are passed over, and a tuple is taken whole. */
  lemma ScanGapAndTuple(gap: Text, t: Text, rest: Text)
    requires IsGap(gap)
    ensures Tuples(CLEAN, [], gap) == []
    ensures IsTuple(t) ==> Tuples(CLEAN, [], gap + t + rest) == [t] + Tuples(CLEAN, [], rest)
  {
    assert gap[..0] == [] && gap[0..] + [] == gap;
    ScanFlat(gap, 0, []);
    if IsTuple(t) {
      assert gap + t + rest == gap[0..] + (t + rest);
      ScanFlat(gap, 0, t + rest);
      ScanTuple(t, rest);
    }
  }

  // ----- regrouped statements --------------------------------------------------------------

  function Join(ts: seq<Text>): (r: Text) {
    if ts == [] then [] else if |ts| == 1 then ts[0] else Join(ts[..|ts| - 1]) + [COMMA] + ts[|ts| - 1]
  }

  ghost predicate AllTuples(ts: seq<Text>) {
    forall i :: 0 <= i < |ts| ==> IsTuple(ts[i])
  }

  lemma {:induction false} ScanJoinedThen(ts: seq<Text>, rest: Text)
    requires AllTuples(ts)
    ensures Tuples(CLEAN, [], Join(ts) + rest) == ts + Tuples(CLEAN, [], rest)
    decreases |ts|
  {
    hide IsTuple, Tuples;
    if ts == [] {
      assert Join(ts) + rest == rest;
    } else if |ts| == 1 {
      ScanTuple(ts[0], rest);
    } else {
      var n := |ts| - 1;
      var tail := [COMMA] + (ts[n] + rest);
      assert Join(ts) + rest == Join(ts[..n]) + tail;
      ScanJoinedThen(ts[..n], tail);
      ScanComma(ts[n] + rest);
      ScanTuple(ts[n], rest);
      assert ts == ts[..n] + [ts[n]];
    }
  }

  lemma ScanComma(rest: Text)
    ensures Tuples(CLEAN, [], [COMMA] + rest) == Tuples(CLEAN, [], rest)
  {
    assert ([COMMA] + rest)[1..] == rest;
  }

  /** Rescanning tuples joined by commas gives them back, whatever is quoted or nested in them. */
  lemma RescanJoined(ts: seq<Text>)
    requires AllTuples(ts)
    ensures Tuples(CLEAN, [], Join(ts)) == ts
  {
    ScanJoinedThen(ts, []);
    assert Join(ts) + [] == Join(ts);
    assert Tuples(CLEAN, [], []) == [];
  }

  predicate IsSpace(b: byte) {
    b == 0x20 || 0x09 <= b <= 0x0D
  }

  function TrimStart(t: Text): (r: Text) {
    if t != [] && IsSpace(t[0]) then TrimStart(t[1..]) else t
  }

  function TrimEnd(t: Text): (r: Text) {
    if t != [] && IsSpace(t[|t| - 1]) then TrimEnd(t[..|t| - 1]) else t
  }

  function Flatten(groups: seq<seq<Text>>): (ts: seq<Text>) {
    if groups == [] then [] else Flatten(groups[..|groups| - 1]) + groups[|groups| - 1]
  }

  lemma FlattenSnoc(groups: seq<seq<Text>>, g: seq<Text>)
    ensures Flatten(groups + [g]) == Flatten(groups) + g
  {
    assert (groups + [g])[..|groups|] == groups;
  }

  function AtLeastOne(n: nat): (m: nat) { if n == 0 then 1 else n }

  /** One emitted statement and the tuples in it. */
  ghost predicate IsChunk(s: Text, g: seq<Text>, prefix: Text, maxBytes: nat, maxTuples: nat) {
    && s == prefix + Join(g)
    && AllTuples(g)
    && 1 <= |g| <= AtLeastOne(maxTuples)
    && (|s| <= maxBytes || |g| == 1)
    && Tuples(CLEAN, [], Join(g)) == g
  }

  /** A statement is closed only because its next tuple would not fit. */
  ghost predicate IsFull(s: Text, g: seq<Text>, next: Text, maxBytes: nat, maxTuples: nat) {
    |s| + 1 + |next| > maxBytes || |g| >= maxTuples
  }

  ghost predicate Chunks(out: seq<Text>, groups: seq<seq<Text>>, prefix: Text, maxBytes: nat, maxTuples: nat) {
    && |out| == |groups|
    && (forall i :: 0 <= i < |out| ==> IsChunk(out[i], groups[i], prefix, maxBytes, maxTuples))
    && (forall i :: 0 <= i < |out| - 1 ==> NextIsFull(out, groups, i, maxBytes, maxTuples))
  }

  /** Statement `i` is followed by another, and is full. */
  ghost predicate NextIsFull(out: seq<Text>, groups: seq<seq<Text>>, i: nat, maxBytes: nat, maxTuples: nat) {
    && i + 1 < |out| == |groups| && groups[i + 1] != []
    && IsFull(out[i], groups[i], groups[i + 1][0], maxBytes, maxTuples)
  }

  lemma TrimmedTuple(t: Text)
    requires IsTuple(t)
    ensures TrimEnd(TrimStart(t)) == t
  {
  }

  // ----- the two loops --------------------------------------------------------------------------

  /** `extract_insert_value_tuples`. */
  method ExtractTuples(tail: Text) returns (tuples: seq<Text>)
    ensures tuples == Tuples(CLEAN, [], tail)
  {
    hide Step;
    tuples := [];
    var c := CLEAN;
    var tupleStart: Option<nat> := None;
    var index := 0;
    assert tail[0..] == tail;
    while index < |tail|
      invariant 0 <= index <= |tail|
      invariant tupleStart.Some? <==> c.depth > 0
      invariant tupleStart.Some? ==> tupleStart.value < index
      invariant tuples + Tuples(c, if tupleStart.Some? then tail[tupleStart.value..index] else [], tail[index..])
             == Tuples(CLEAN, [], tail)
    {
      ghost var rest := tail[index..];
      assert rest[0] == tail[index] && rest[1..] == tail[index + 1..];
      var depth := c.depth;
      c := Next(c, tail[index]);
      if depth == 0 && c.depth > 0 {
        tupleStart := Some(index);
        assert tail[index..index + 1] == [] + [tail[index]];
      } else if depth > 0 && c.depth == 0 {
        SliceSnoc(tail, tupleStart.value, index);
        tuples := tuples + [tail[tupleStart.value..index + 1]];
        tupleStart := None;
      } else if tupleStart.Some? {
        SliceSnoc(tail, tupleStart.value, index);
      }
      index := index + 1;
    }
  }

  lemma SliceSnoc(s: Text, from: nat, to: nat)
    requires from <= to < |s|
    ensures s[from..to + 1] == s[from..to] + [s[to]]
  {
  }

  /** The body of the scanning loop on its quote, escape and depth flags. */
  method Next(c: Control, ch: byte) returns (c': Control)
    ensures c' == Step(c, ch)
    ensures c'.depth <= c.depth + 1 && c.depth <= c'.depth + 1
  {
    c' := c;
    if c.escape {
      c' := c'.(escape := false);
      return;
    }
    if (c.single || c.double) && ch == BACKSLASH {
      c' := c'.(escape := true);
      return;
    }
    if ch == SINGLE && !c.double && !c.backtick {
      c' := c'.(single := !c.single);
      return;
    }
    if ch == DOUBLE && !c.single && !c.backtick {
      c' := c'.(double := !c.double);
      return;
    }
    if ch == BACKTICK && !c.single && !c.double {
      c' := c'.(backtick := !c.backtick);
      return;
    }
    if c.single || c.double || c.backtick { return; }
    if ch == OPEN {
      c' := c'.(depth := c.depth + 1);
    } else if ch == CLOSE && c.depth > 0 {
      c' := c'.(depth := c.depth - 1);
    }
  }

  /** `stream_import_insert_values_statements`, from the split into prefix and
      value text on. `accepts(i)` is the callback's answer to the i-th statement;
      a refusal stops the loop. */
  method SplitInsert(prefix: Text, tail: Text, maxBytes: nat, maxTuples: nat, accepts: nat -> bool)
    returns (out: seq<Text>, ok: bool, ghost groups: seq<seq<Text>>)
    ensures var ts := Tuples(CLEAN, [], tail);
      && (|ts| <= 1 ==> out == [prefix + tail])
      && (|ts| > 1 ==> Chunks(out, groups, prefix, maxBytes, maxTuples) && Flatten(groups) <= ts)
      && (|ts| > 1 && ok ==> Flatten(groups) == ts)
      && (|ts| > 1 ==> |groups| == |out| && forall i :: 0 <= i < |out| ==>
           && groups[i] != [] && out[i] == prefix + Join(groups[i])
           && (|groups[i]| == 1 || (|out[i]| <= maxBytes && |groups[i]| <= maxTuples)))
      && (|ts| > 1 ==> forall i, j :: 0 <= i && j == i + 1 && j < |out| ==>
           |out[i]| + 1 + |groups[j][0]| > maxBytes || |groups[i]| >= maxTuples)
    ensures ok <==> forall i :: 0 <= i < |out| ==> accepts(i)
    ensures !ok ==> out != [] && !accepts(|out| - 1)
  {
    groups := [];
    var tuples := ExtractTuples(tail);
    if |tuples| <= 1 {
      return [prefix + tail], accepts(0), groups;
    }
    NotReading(CLEAN, []);
    ScannedAreTuples(CLEAN, [], tail);
    out, ok, groups := Regroup(prefix, tuples, maxBytes, maxTuples, accepts);
    ChunksMeaning(out, groups, prefix, maxBytes, maxTuples);
  }

  /** Each statement is the prefix and its tuples, more than one of them only within
      both limits; and it is followed by another only when one more tuple would have
      broken a limit. */
  lemma ChunksMeaning(out: seq<Text>, groups: seq<seq<Text>>, prefix: Text, maxBytes: nat, maxTuples: nat)
    requires Chunks(out, groups, prefix, maxBytes, maxTuples)
    ensures |groups| == |out| && forall i :: 0 <= i < |out| ==>
      && groups[i] != [] && out[i] == prefix + Join(groups[i])
      && (|groups[i]| == 1 || (|out[i]| <= maxBytes && |groups[i]| <= maxTuples))
    ensures forall i, j :: 0 <= i && j == i + 1 && j < |out| ==>
      groups[j] != [] && (|out[i]| + 1 + |groups[j][0]| > maxBytes || |groups[i]| >= maxTuples)
  {
    hide Tuples, Join, IsTuple;
    forall i, j | 0 <= i && j == i + 1 && j < |out|
      ensures groups[j] != [] && (|out[i]| + 1 + |groups[j][0]| > maxBytes || |groups[i]| >= maxTuples)
    {
      assert NextIsFull(out, groups, i, maxBytes, maxTuples);
    }
  }

  method Regroup(prefix: Text, tuples: seq<Text>, maxBytes: nat, maxTuples: nat, accepts: nat -> bool)
    returns (out: seq<Text>, ok: bool, ghost groups: seq<seq<Text>>)
    requires AllTuples(tuples)
    ensures Chunks(out, groups, prefix, maxBytes, maxTuples) && Flatten(groups) <= tuples
    ensures ok ==> Flatten(groups) == tuples
    ensures ok <==> forall i :: 0 <= i < |out| ==> accepts(i)
    ensures !ok ==> out != [] && !accepts(|out| - 1)
  {
    hide IsTuple, Tuples, Chunks, IsChunk, Join, Flatten, IsFull, TrimStart, TrimEnd, Follows;
    out, groups := [], [];
    NoChunks(prefix, maxBytes, maxTuples);
    var current := prefix;
    var inChunk := 0;
    ghost var chunk: seq<Text> := [];
    var i := 0;
    while i < |tuples|
      invariant 0 <= i <= |tuples| && inChunk == |chunk|
      invariant forall k :: 0 <= k < |out| ==> accepts(k)
      invariant Chunks(out, groups, prefix, maxBytes, maxTuples)
      invariant Flatten(groups) + chunk == tuples[..i]
      invariant current == prefix + Join(chunk) && AllTuples(chunk)
      invariant chunk == [] <==> |current| == |prefix|
      invariant chunk == [] ==> i == 0 && out == [] && groups == []
      invariant chunk != [] ==> IsChunk(current, chunk, prefix, maxBytes, maxTuples)
      invariant chunk != [] ==> Follows(out, groups, chunk, maxBytes, maxTuples)
    {
      var tuple := TrimEnd(TrimStart(tuples[i]));
      TrimmedTuple(tuples[i]);
      assert tuples[..i + 1] == tuples[..i] + [tuple];
      var additional := if |current| > |prefix| then |tuple| + 1 else |tuple|;
      if |current| > |prefix| && (|current| + additional > maxBytes || inChunk >= maxTuples) {
        AddChunk(out, groups, current, chunk, tuple, prefix, maxBytes, maxTuples);
        FlattenSnoc(groups, chunk);
        out, groups := out + [current], groups + [chunk];
        if !accepts(|out| - 1) { return out, false, groups; }
        current, inChunk, chunk := prefix, 0, [];
        NoChunks(prefix, maxBytes, maxTuples);
        assert chunk + [tuple] == [tuple];
      } else {
        FollowsGrows(out, groups, chunk, tuple, maxBytes, maxTuples);
      }
      ExtendChunk(chunk, tuple, prefix, maxBytes, maxTuples);
      if |current| > |prefix| { current := current + [COMMA]; }
      current := current + tuple;
      inChunk := inChunk + 1;
      chunk := chunk + [tuple];
      i := i + 1;
    }
    assert tuples[..i] == tuples;
    if |current| > |prefix| {
      AddChunk(out, groups, current, chunk, [], prefix, maxBytes, maxTuples);
      FlattenSnoc(groups, chunk);
      out, groups := out + [current], groups + [chunk];
      return out, accepts(|out| - 1), groups;
    }
    return out, true, groups;
  }

  /** The open chunk may follow the last emitted one, which is full. */
  ghost predicate Follows(out: seq<Text>, groups: seq<seq<Text>>, chunk: seq<Text>, maxBytes: nat, maxTuples: nat) {
    chunk != [] && |out| == |groups|
    && (out != [] ==> IsFull(out[|out| - 1], groups[|out| - 1], chunk[0], maxBytes, maxTuples))
  }

  lemma NoChunks(prefix: Text, maxBytes: nat, maxTuples: nat)
    ensures Chunks([], [], prefix, maxBytes, maxTuples) && Flatten([]) == []
    ensures prefix + Join([]) == prefix && AllTuples([])
  {
  }

  lemma AddChunk(out: seq<Text>, groups: seq<seq<Text>>, s: Text, g: seq<Text>, next: Text,
                 prefix: Text, maxBytes: nat, maxTuples: nat)
    requires Chunks(out, groups, prefix, maxBytes, maxTuples)
    requires IsChunk(s, g, prefix, maxBytes, maxTuples) && Follows(out, groups, g, maxBytes, maxTuples)
    ensures Chunks(out + [s], groups + [g], prefix, maxBytes, maxTuples)
    ensures |s| + 1 + |next| > maxBytes || |g| >= maxTuples ==>
      Follows(out + [s], groups + [g], [next], maxBytes, maxTuples)
  {
    hide IsChunk, IsFull;
    var out', groups' := out + [s], groups + [g];
    FullMeaning(s, g, next, maxBytes, maxTuples);
    forall i | 0 <= i < |out'| ensures IsChunk(out'[i], groups'[i], prefix, maxBytes, maxTuples) {
      if i < |out| {
        assert out'[i] == out[i] && groups'[i] == groups[i];
      } else {
        assert out'[i] == s && groups'[i] == g;
      }
    }
    forall i | 0 <= i < |out'| - 1 ensures NextIsFull(out', groups', i, maxBytes, maxTuples) {
      assert out'[i] == out[i] && groups'[i] == groups[i];
      if i + 1 < |out| {
        assert NextIsFull(out, groups, i, maxBytes, maxTuples);
        assert groups'[i + 1] == groups[i + 1];
      } else {
        assert groups'[i + 1] == g;
      }
    }
  }

  lemma FullMeaning(s: Text, g: seq<Text>, next: Text, maxBytes: nat, maxTuples: nat)
    ensures IsFull(s, g, next, maxBytes, maxTuples) <==> |s| + 1 + |next| > maxBytes || |g| >= maxTuples
  {
  }

  lemma FollowsGrows(out: seq<Text>, groups: seq<seq<Text>>, chunk: seq<Text>, t: Text, maxBytes: nat, maxTuples: nat)
    requires if chunk == [] then out == [] && groups == [] else Follows(out, groups, chunk, maxBytes, maxTuples)
    ensures Follows(out, groups, chunk + [t], maxBytes, maxTuples)
  {
  }

  lemma ExtendChunk(chunk: seq<Text>, t: Text, prefix: Text, maxBytes: nat, maxTuples: nat)
    requires AllTuples(chunk) && IsTuple(t)
    requires chunk != [] ==> |prefix + Join(chunk)| + |t| + 1 <= maxBytes && |chunk| < maxTuples
    ensures AllTuples(chunk + [t]) && |t| > 1
    ensures prefix + Join(chunk + [t]) == prefix + Join(chunk) + (if chunk == [] then [] else [COMMA]) + t
    ensures IsChunk(prefix + Join(chunk + [t]), chunk + [t], prefix, maxBytes, maxTuples)
  {
    hide Tuples, Join, IsTuple;
    TupleLength(t);
    JoinSnoc(chunk, t);
    RescanJoined(chunk + [t]);
    assert prefix + (Join(chunk) + [COMMA] + t) == prefix + Join(chunk) + [COMMA] + t;
    assert prefix + Join([]) + [] + t == prefix + t by { JoinNone(); }
  }

  lemma TupleLength(t: Text)
    requires IsTuple(t)
    ensures |t| > 1
  {
  }

  lemma JoinNone()
    ensures Join([]) == []
  {
  }

  /** Tuples are joined by single commas. */
  lemma JoinSnoc(ts: seq<Text>, t: Text)
    ensures Join(ts + [t]) == if ts == [] then t else Join(ts) + [COMMA] + t
    ensures COMMA == ',' as int
  {
    assert (ts + [t])[..|ts|] == ts;
  }
}
