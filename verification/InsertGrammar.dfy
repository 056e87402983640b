/** What the tuple scanner finds, said by a grammar of quotations and parentheses
    instead of by the machine's flags. */
module InsertGrammar {
  import opened Prelude
  import opened InsertSplit

  // ----- the grammar --------------------------------------------------------------------

  /** The rest of a quotation: a backslash takes the next byte with it, whatever
      it is, and the first other `q` is the last byte. */
  predicate QuotedRest(q: byte, t: Text)
    decreases |t|
  {
    t != [] &&
    if t[0] == q then |t| == 1
    else if t[0] == BACKSLASH then |t| >= 2 && QuotedRest(q, t[2..])
    else QuotedRest(q, t[1..])
  }

  /** The rest of a backtick quotation, which knows no escapes. */
  predicate TickedRest(t: Text)
    decreases |t|
  {
    t != [] && if t[0] == BACKTICK then |t| == 1 else TickedRest(t[1..])
  }

  predicate IsQuotation(t: Text) {
    t != [] &&
    (|| ((t[0] == SINGLE || t[0] == DOUBLE) && QuotedRest(t[0], t[1..]))
     || (t[0] == BACKTICK && TickedRest(t[1..])))
  }

  predicate IsQuote(b: byte) { b == SINGLE || b == DOUBLE || b == BACKTICK }

  /** Neither a quote nor a parenthesis. */
  predicate IsPlain(b: byte) { !IsQuote(b) && b != OPEN && b != CLOSE }

  /** A parenthesised group: any run of groups, quotations and plain bytes in parentheses. */
  ghost predicate IsGroup(t: Text)
    decreases |t|, 0
  {
    |t| >= 2 && t[0] == OPEN && t[|t| - 1] == CLOSE && AreItems(t[1..|t| - 1])
  }

  ghost predicate AreItems(t: Text)
    decreases |t|, 2
  {
    t == [] || exists k :: 0 < k <= |t| && IsItem(t[..k]) && AreItems(t[k..])
  }

  ghost predicate IsItem(t: Text)
    decreases |t|, 1
  {
    IsGroup(t) || IsQuotation(t) || (|t| == 1 && IsPlain(t[0]))
  }

  // ----- the machine on the grammar ----------------------------------------------------------

  function AtDepth(d: nat): (c: Control) { Control(false, false, false, false, d) }

  /** Inside the quotation that `q` opens. */
  function InQuote(q: byte, d: nat): (c: Control) { Control(q == SINGLE, q == DOUBLE, q == BACKTICK, false, d) }

  lemma {:induction false} RunConcat(c: Control, a: Text, b: Text)
    ensures Run(c, a + b) == Run(Run(c, a), b)
    decreases |b|
  {
    hide Step;
    if b == [] {
      assert a + b == a;
    } else {
      var n := |b| - 1;
      RunConcat(c, a, b[..n]);
      assert (a + b)[..|a + b| - 1] == a + b[..n];
    }
  }

  lemma RunCons(c: Control, t: Text)
    requires t != []
    ensures Run(c, t) == Run(Step(c, t[0]), t[1..])
  {
    hide Step;
    assert t == [t[0]] + t[1..];
    RunConcat(c, [t[0]], t[1..]);
    assert [t[0]][..0] == [];
  }

  /** Every state on the way through `t` has depth at least `d`. */
  ghost predicate Above(c: Control, t: Text, d: nat) {
    forall k :: 0 <= k <= |t| ==> Run(c, t[..k]).depth >= d
  }

  /** Every state on the way through `t` has the same depth. */
  ghost predicate Level(c: Control, t: Text) {
    forall k :: 0 <= k <= |t| ==> Run(c, t[..k]).depth == c.depth
  }

  lemma LevelCons(c: Control, t: Text)
    requires t != [] && Step(c, t[0]).depth == c.depth && Level(Step(c, t[0]), t[1..])
    ensures Level(c, t)
  {
    hide Step;
    forall k | 0 <= k <= |t| ensures Run(c, t[..k]).depth == c.depth {
      if k > 0 {
        RunCons(c, t[..k]);
        assert t[..k][1..] == t[1..][..k - 1];
      }
    }
  }

  lemma AboveConcat(c: Control, a: Text, b: Text, d: nat)
    ensures Above(c, a + b, d) <==> Above(c, a, d) && Above(Run(c, a), b, d)
  {
    hide Step, Run;
    forall k | 0 <= k <= |a| ensures (a + b)[..k] == a[..k] {}
    forall k | 0 <= k <= |b| ensures Run(c, (a + b)[..|a| + k]) == Run(Run(c, a), b[..k]) {
      assert (a + b)[..|a| + k] == a + b[..k];
      RunConcat(c, a, b[..k]);
    }
    if Above(c, a + b, d) {
      forall k | 0 <= k <= |a| ensures Run(c, a[..k]).depth >= d { assert (a + b)[..k] == a[..k]; }
      forall k | 0 <= k <= |b| ensures Run(Run(c, a), b[..k]).depth >= d {
        assert Run(c, (a + b)[..|a| + k]).depth >= d;
      }
    }
    if Above(c, a, d) && Above(Run(c, a), b, d) {
      forall k | 0 <= k <= |a + b| ensures Run(c, (a + b)[..k]).depth >= d {
        if k > |a| {
          assert Run(c, (a + b)[..|a| + (k - |a|)]) == Run(Run(c, a), b[..k - |a|]);
        } else {
          assert (a + b)[..k] == a[..k];
        }
      }
    }
  }

  lemma {:induction false} RunQuotedRest(q: byte, d: nat, t: Text)
    requires (q == SINGLE || q == DOUBLE) && QuotedRest(q, t)
    ensures Run(InQuote(q, d), t) == AtDepth(d) && Level(InQuote(q, d), t)
    decreases |t|
  {
    var c := InQuote(q, d);
    RunCons(c, t);
    if t[0] == q {
      assert t[1..] == [];
    } else if t[0] == BACKSLASH {
      RunCons(c.(escape := true), t[1..]);
      assert t[1..][1..] == t[2..];
      RunQuotedRest(q, d, t[2..]);
      LevelCons(c.(escape := true), t[1..]);
    } else {
      RunQuotedRest(q, d, t[1..]);
    }
    LevelCons(c, t);
  }

  lemma {:induction false} RunTickedRest(d: nat, t: Text)
    requires TickedRest(t)
    ensures Run(InQuote(BACKTICK, d), t) == AtDepth(d) && Level(InQuote(BACKTICK, d), t)
    decreases |t|
  {
    RunCons(InQuote(BACKTICK, d), t);
    if t[0] == BACKTICK { assert t[1..] == []; } else { RunTickedRest(d, t[1..]); }
    LevelCons(InQuote(BACKTICK, d), t);
  }

  lemma RunQuotation(d: nat, t: Text)
    requires IsQuotation(t)
    ensures Run(AtDepth(d), t) == AtDepth(d) && Level(AtDepth(d), t)
  {
    hide Run, Level;
    RunCons(AtDepth(d), t);
    assert Step(AtDepth(d), t[0]) == InQuote(t[0], d);
    if t[0] == BACKTICK { RunTickedRest(d, t[1..]); } else { RunQuotedRest(t[0], d, t[1..]); }
    LevelCons(AtDepth(d), t);
  }

  lemma LevelIsAbove(c: Control, t: Text)
    requires Level(c, t)
    ensures Above(c, t, c.depth)
  {
  }

  lemma {:induction false} RunItems(d: nat, t: Text)
    requires AreItems(t)
    ensures Run(AtDepth(d), t) == AtDepth(d) && Above(AtDepth(d), t, d)
    decreases |t|, 2
  {
    hide Step, IsItem, Above;
    if t == [] {
      AboveNothing(AtDepth(d));
    } else {
      var k :| 0 < k <= |t| && IsItem(t[..k]) && AreItems(t[k..]);
      RunItem(d, t[..k]);
      RunItems(d, t[k..]);
      assert t == t[..k] + t[k..];
      RunConcat(AtDepth(d), t[..k], t[k..]);
      AboveConcat(AtDepth(d), t[..k], t[k..], d);
    }
  }

  lemma AboveNothing(c: Control)
    ensures Above(c, [], c.depth)
  {
  }

  lemma {:induction false} RunItem(d: nat, t: Text)
    requires IsItem(t)
    ensures Run(AtDepth(d), t) == AtDepth(d) && Above(AtDepth(d), t, d)
    decreases |t|, 1
  {
    hide Above, IsQuotation;
    if IsGroup(t) {
      RunGroup(d, t);
    } else if IsQuotation(t) {
      RunQuotation(d, t);
      LevelIsAbove(AtDepth(d), t);
    } else {
      RunCons(AtDepth(d), t);
      LevelCons(AtDepth(d), t);
      LevelIsAbove(AtDepth(d), t);
    }
  }

  lemma {:induction false} RunGroup(d: nat, t: Text)
    requires IsGroup(t)
    ensures Run(AtDepth(d), t) == AtDepth(d) && Above(AtDepth(d), t, d)
    ensures Above(AtDepth(d + 1), t[1..|t| - 1], d + 1) && Run(AtDepth(d), t[..|t| - 1]) == AtDepth(d + 1)
    decreases |t|, 0
  {
    hide Above, AreItems;
    var inner := t[1..|t| - 1];
    RunItems(d + 1, inner);
    var front := t[..|t| - 1];
    RunCons(AtDepth(d), front);
    assert front[1..] == inner && front[0] == OPEN;
    assert t == [OPEN] + inner + [CLOSE];
    RunSnoc(AtDepth(d), front, CLOSE);
    assert front + [CLOSE] == t;
    AboveGroup(d, inner);
  }

  lemma AboveGroup(d: nat, inner: Text)
    requires Run(AtDepth(d + 1), inner) == AtDepth(d + 1) && Above(AtDepth(d + 1), inner, d + 1)
    ensures Above(AtDepth(d), [OPEN] + inner + [CLOSE], d)
  {
    assert Run(AtDepth(d), [OPEN]) == AtDepth(d + 1) by { RunCons(AtDepth(d), [OPEN]); }
    assert Run(AtDepth(d + 1), [CLOSE]) == AtDepth(d) by { RunCons(AtDepth(d + 1), [CLOSE]); }
    assert [OPEN][..0] == [] && [OPEN][..1] == [OPEN] && [CLOSE][..0] == [] && [CLOSE][..1] == [CLOSE];
    assert Above(AtDepth(d), [OPEN], d) && Above(AtDepth(d + 1), [CLOSE], d);
    AboveConcat(AtDepth(d), [OPEN], inner, d);
    RunConcat(AtDepth(d), [OPEN], inner);
    AboveConcat(AtDepth(d), [OPEN] + inner, [CLOSE], d);
  }

  // ----- the grammar of what the machine reads --------------------------------------------------

  predicate Unquoted(c: Control) { !c.single && !c.double && !c.backtick }

  /** Where a quotation that is closed again ends. */
  lemma {:induction false} SplitQuoted(q: byte, d: nat, t: Text) returns (k: nat)
    requires (q == SINGLE || q == DOUBLE) && Unquoted(Run(InQuote(q, d), t))
    ensures 0 < k <= |t| && QuotedRest(q, t[..k])
    decreases |t|
  {
    var c := InQuote(q, d);
    if t == [] { assert false; }
    RunCons(c, t);
    if t[0] == q {
      return 1;
    } else if t[0] == BACKSLASH {
      if |t| == 1 { assert false; }
      RunCons(c.(escape := true), t[1..]);
      assert t[1..][1..] == t[2..];
      var j := SplitQuoted(q, d, t[2..]);
      assert t[..2 + j][2..] == t[2..][..j];
      return 2 + j;
    } else {
      var j := SplitQuoted(q, d, t[1..]);
      assert t[..1 + j][1..] == t[1..][..j];
      return 1 + j;
    }
  }

  lemma {:induction false} SplitTicked(d: nat, t: Text) returns (k: nat)
    requires Unquoted(Run(InQuote(BACKTICK, d), t))
    ensures 0 < k <= |t| && TickedRest(t[..k])
    decreases |t|
  {
    if t == [] { assert false; }
    RunCons(InQuote(BACKTICK, d), t);
    if t[0] == BACKTICK { return 1; }
    var j := SplitTicked(d, t[1..]);
    assert t[..1 + j][1..] == t[1..][..j];
    return 1 + j;
  }

  lemma SplitQuotation(d: nat, t: Text) returns (k: nat)
    requires t != [] && IsQuote(t[0]) && Unquoted(Run(AtDepth(d), t))
    ensures 0 < k <= |t| && IsQuotation(t[..k])
  {
    hide Run, QuotedRest, TickedRest;
    RunCons(AtDepth(d), t);
    assert Step(AtDepth(d), t[0]) == InQuote(t[0], d);
    var j;
    if t[0] == BACKTICK { j := SplitTicked(d, t[1..]); } else { j := SplitQuoted(t[0], d, t[1..]); }
    assert t[..1 + j][1..] == t[1..][..j];
    return 1 + j;
  }

  /** The depth falls only at a parenthesis outside quotations. */
  lemma StepDown(c: Control, b: byte)
    ensures c.depth <= Step(c, b).depth + 1
    ensures Step(c, b).depth < c.depth ==>
      b == CLOSE && c == AtDepth(c.depth) && Step(c, b) == AtDepth(c.depth - 1)
  {
  }

  /** The first return to depth `d`. */
  lemma FirstReturn(d: nat, t: Text) returns (j: nat)
    requires t != [] && t[0] == OPEN && Run(AtDepth(d), t).depth == d
    ensures 1 < j <= |t| && Run(AtDepth(d), t[..j]).depth == d
    ensures forall k :: 0 < k < j ==> Run(AtDepth(d), t[..k]).depth > d
  {
    hide Step;
    RunOpened(d, t[..1]);
    assert t[..|t|] == t;
    j := 1;
    while Run(AtDepth(d), t[..j]).depth > d
      invariant 1 <= j <= |t|
      invariant forall k :: 0 < k < j ==> Run(AtDepth(d), t[..k]).depth > d
      invariant j == 1 ==> Run(AtDepth(d), t[..1]).depth > d
      invariant Run(AtDepth(d), t[..j]).depth >= d
      decreases |t| - j
    {
      assert t[..j + 1] == t[..j] + [t[j]];
      RunSnoc(AtDepth(d), t[..j], t[j]);
      StepDown(Run(AtDepth(d), t[..j]), t[j]);
      j := j + 1;
    }
  }

  /** What is read from an opening parenthesis to the first return is a group. */
  lemma ReturnIsGroup(d: nat, t: Text)
    requires |t| > 1 && t[0] == OPEN && Run(AtDepth(d), t).depth == d
    requires forall k :: 0 < k < |t| ==> Run(AtDepth(d), t[..k]).depth > d
    ensures IsGroup(t) && Run(AtDepth(d), t) == AtDepth(d)
    decreases |t|, 0
  {
    hide Step, Run, AreItems;
    ReturnedInner(d, t);
    ParseItems(d + 1, t[1..|t| - 1]);
  }

  lemma ReturnedInner(d: nat, t: Text)
    requires |t| > 1 && t[0] == OPEN && Run(AtDepth(d), t).depth == d
    requires forall k :: 0 < k < |t| ==> Run(AtDepth(d), t[..k]).depth > d
    ensures t[|t| - 1] == CLOSE && Run(AtDepth(d), t) == AtDepth(d)
    ensures Run(AtDepth(d + 1), t[1..|t| - 1]) == AtDepth(d + 1) && Above(AtDepth(d + 1), t[1..|t| - 1], d + 1)
  {
    hide Step, Run;
    var n := |t| - 1;
    var front, inner := t[..n], t[1..n];
    assert t == front + [t[n]];
    RunSnoc(AtDepth(d), front, t[n]);
    StepDown(Run(AtDepth(d), front), t[n]);
    RunOpened(d, front);
    assert front[1..] == inner;
    forall k | 0 <= k <= |inner| ensures Run(AtDepth(d + 1), inner[..k]).depth >= d + 1 {
      RunOpened(d, t[..k + 1]);
      assert t[..k + 1][1..] == inner[..k];
      assert 0 < k + 1 < |t|;
    }
  }

  lemma RunOpened(d: nat, t: Text)
    requires t != [] && t[0] == OPEN
    ensures Run(AtDepth(d), t) == Run(AtDepth(d + 1), t[1..])
  {
    hide Run;
    RunCons(AtDepth(d), t);
  }

  lemma {:induction false} ParseItems(d: nat, t: Text)
    requires d > 0 && Run(AtDepth(d), t) == AtDepth(d) && Above(AtDepth(d), t, d)
    ensures AreItems(t)
    decreases |t|, 3
  {
    if t != [] {
      var k := FirstItem(d, t);
      assert t == t[..k] + t[k..];
      RunConcat(AtDepth(d), t[..k], t[k..]);
      AboveConcat(AtDepth(d), t[..k], t[k..], d);
      ParseItems(d, t[k..]);
    }
  }

  lemma FirstItem(d: nat, t: Text) returns (k: nat)
    requires t != [] && d > 0 && Run(AtDepth(d), t) == AtDepth(d) && Above(AtDepth(d), t, d)
    ensures 0 < k <= |t| && IsItem(t[..k]) && Run(AtDepth(d), t[..k]) == AtDepth(d)
    decreases |t|, 2
  {
    hide AreItems, IsQuotation;
    RunCons(AtDepth(d), t[..1]);
    if t[0] == OPEN {
      k := FirstReturn(d, t);
      forall i | 0 < i < k ensures Run(AtDepth(d), t[..k][..i]).depth > d { assert t[..k][..i] == t[..i]; }
      GroupAtFront(d, t, k);
    } else if IsQuote(t[0]) {
      k := SplitQuotation(d, t);
      RunQuotation(d, t[..k]);
    } else {
      assert Run(AtDepth(d), t[..1]).depth >= d;
      return 1;
    }
  }

  lemma GroupAtFront(d: nat, t: Text, k: nat)
    requires 1 < k <= |t| && t[0] == OPEN && Run(AtDepth(d), t[..k]).depth == d
    requires forall i :: 0 < i < k ==> Run(AtDepth(d), t[..k][..i]).depth > d
    ensures IsGroup(t[..k]) && Run(AtDepth(d), t[..k]) == AtDepth(d)
    decreases k, 1
  {
    ReturnIsGroup(d, t[..k]);
  }

  /** The tuples are exactly the groups of the grammar. */
  lemma TuplesAreGroups(t: Text)
    ensures IsTuple(t) <==> IsGroup(t)
  {
    if IsTuple(t) {
      forall k | 0 < k < |t| ensures Run(AtDepth(0), t[..k]).depth > 0 { assert t[..|t| - 1][..k] == t[..k]; }
      ReturnIsGroup(0, t);
    }
    if IsGroup(t) { GroupIsTuple(t); }
  }

  lemma GroupIsTuple(t: Text)
    requires IsGroup(t)
    ensures IsTuple(t)
  {
    hide AreItems, Run, Step;
    RunGroup(0, t);
    var front := t[..|t| - 1];
    forall k | 0 < k <= |front| ensures Run(CLEAN, front[..k]).depth > 0 {
      RunOpened(0, front[..k]);
      assert front[..k][1..] == t[1..|t| - 1][..k - 1];
    }
  }

  // ----- the whole scan -------------------------------------------------------------------------

  function Scan(bs: Text): (ts: seq<Text>) { Tuples(CLEAN, [], bs) }

  /** A text between tuples is passed over. */
  lemma GapIsSkipped(g: Text, rest: Text)
    requires IsQuotation(g) || (|g| == 1 && !IsQuote(g[0]) && g[0] != OPEN)
    ensures Scan(g + rest) == Scan(rest)
  {
    hide Tuples;
    assert IsGap(g) by {
      if IsQuotation(g) {
        RunQuotation(0, g);
      } else {
        RunCons(CLEAN, g);
        LevelCons(CLEAN, g);
      }
    }
    assert g[..0] == [] && g[0..] == g;
    ScanFlat(g, 0, rest);
  }

  lemma {:induction false} FirstTupleCloses(c: Control, cur: Text, bs: Text) returns (k: nat)
    requires c.depth > 0 && Reading(c, cur) && Tuples(c, cur, bs) != []
    ensures 0 < k <= |bs| && IsTuple(cur + bs[..k])
    decreases |bs|
  {
    hide Step, IsTuple, Reading;
    ReadOne(c, cur, bs[0]);
    assert cur + bs[..1] == cur + [bs[0]];
    if Step(c, bs[0]).depth == 0 { return 1; }
    var j := FirstTupleCloses(Step(c, bs[0]), cur + [bs[0]], bs[1..]);
    assert (cur + [bs[0]]) + bs[1..][..j] == cur + bs[..1 + j];
    return 1 + j;
  }

  lemma {:induction false} QuoteCloses(c: Control, bs: Text) returns (k: nat)
    requires c.depth == 0 && Tuples(c, [], bs) != []
    ensures k <= |bs| && Unquoted(Run(c, bs[..k]))
    decreases |bs|
  {
    hide Step;
    if Unquoted(c) { return 0; }
    QuotedStaysFlat(c, bs[0]);
    var j := QuoteCloses(Step(c, bs[0]), bs[1..]);
    RunCons(c, bs[..1 + j]);
    assert bs[..1 + j][1..] == bs[1..][..j];
    return 1 + j;
  }

  lemma QuotedStaysFlat(c: Control, b: byte)
    requires !Unquoted(c)
    ensures Step(c, b).depth == c.depth
  {
  }

  /** The whole scan by the grammar: at the front of the text a group is a tuple,
      a quotation or a byte that opens nothing is passed over, and where a quotation
      or a parenthesis opens that is never closed there are no more tuples. */
  lemma ScanMeaning(bs: Text)
    ensures bs == [] ==> Scan(bs) == []
    ensures forall k :: 0 < k <= |bs| && IsGroup(bs[..k]) ==> Scan(bs) == [bs[..k]] + Scan(bs[k..])
    ensures forall k :: 0 < k <= |bs| && IsQuotation(bs[..k]) ==> Scan(bs) == Scan(bs[k..])
    ensures bs != [] && !IsQuote(bs[0]) && bs[0] != OPEN ==> Scan(bs) == Scan(bs[1..])
    ensures bs != [] && bs[0] == OPEN && (forall k :: 0 < k <= |bs| ==> !IsGroup(bs[..k])) ==> Scan(bs) == []
    ensures bs != [] && IsQuote(bs[0]) && (forall k :: 0 < k <= |bs| ==> !IsQuotation(bs[..k])) ==> Scan(bs) == []
  {
    hide Tuples, IsGroup, IsQuotation;
    ScanNothing();
    forall k | 0 < k <= |bs| && IsGroup(bs[..k]) ensures Scan(bs) == [bs[..k]] + Scan(bs[k..]) {
      TuplesAreGroups(bs[..k]);
      ScanTuple(bs[..k], bs[k..]);
      assert bs == bs[..k] + bs[k..];
    }
    forall k | 0 < k <= |bs| && IsQuotation(bs[..k]) ensures Scan(bs) == Scan(bs[k..]) {
      GapIsSkipped(bs[..k], bs[k..]);
      assert bs == bs[..k] + bs[k..];
    }
    if bs != [] && !IsQuote(bs[0]) && bs[0] != OPEN {
      GapIsSkipped(bs[..1], bs[1..]);
      assert bs == bs[..1] + bs[1..];
    }
    if bs != [] && Scan(bs) != [] { SomethingCloses(bs); }
  }

  lemma ScanNothing()
    ensures Scan([]) == []
  {
  }

  lemma SomethingCloses(bs: Text)
    requires bs != [] && Scan(bs) != []
    ensures bs[0] == OPEN ==> exists k :: 0 < k <= |bs| && IsGroup(bs[..k])
    ensures IsQuote(bs[0]) ==> exists k :: 0 < k <= |bs| && IsQuotation(bs[..k])
  {
    hide IsGroup, IsQuotation, Tuples;
    if bs[0] == OPEN {
      var k := OpenCloses(bs);
    } else if IsQuote(bs[0]) {
      var k := QuoteEnds(bs);
    }
  }

  lemma OpenCloses(bs: Text) returns (k: nat)
    requires bs != [] && Scan(bs) != [] && bs[0] == OPEN
    ensures 0 < k <= |bs| && IsGroup(bs[..k])
  {
    hide IsGroup, IsTuple, Run, Reading;
    NotReading(CLEAN, []);
    ReadOne(CLEAN, [], OPEN);
    assert [] + [OPEN] == [OPEN];
    assert Tuples(CLEAN, [], bs) == Tuples(AtDepth(1), [OPEN], bs[1..]);
    var j := FirstTupleCloses(AtDepth(1), [OPEN], bs[1..]);
    assert [OPEN] + bs[1..][..j] == bs[..1 + j];
    TuplesAreGroups(bs[..1 + j]);
    return 1 + j;
  }

  lemma QuoteEnds(bs: Text) returns (k: nat)
    requires bs != [] && Scan(bs) != [] && IsQuote(bs[0])
    ensures 0 < k <= |bs| && IsQuotation(bs[..k])
  {
    hide IsQuotation, Run;
    assert Tuples(CLEAN, [], bs) == Tuples(InQuote(bs[0], 0), [], bs[1..]);
    var j := QuoteCloses(InQuote(bs[0], 0), bs[1..]);
    assert bs[..1 + j][1..] == bs[1..][..j];
    RunCons(CLEAN, bs[..1 + j]);
    k := SplitQuotation(0, bs[..1 + j]);
    assert bs[..1 + j][..k] == bs[..k];
  }

  // ----- a case in bytes --------------------------------------------------------------------------

  lemma QuotedGroup(t: Text)
    requires IsQuotation(t)
    ensures IsGroup([OPEN] + t + [CLOSE])
  {
    hide IsQuotation;
    var g := [OPEN] + t + [CLOSE];
    assert g[1..|g| - 1] == t && t[..|t|] == t && t[|t|..] == [];
    assert IsItem(t[..|t|]) && AreItems(t[|t|..]);
  }

  /** The texts `('it\'s')`, `(")")` and ``(`(`)``, joined by commas, are three tuples. */
  lemma QuotationsExample()
    ensures var a, b, c := [40, 39, 105, 116, 92, 39, 115, 39, 41], [40, 34, 41, 34, 41], [40, 96, 40, 96, 41];
      Scan(a + ([44] + (b + ([44] + c)))) == [a, b, c]
  {
    hide Tuples, IsGroup, IsQuotation;
    QuotedBodies();
    var x, y, z := [39, 105, 116, 92, 39, 115, 39], [34, 41, 34], [96, 40, 96];
    ThreeQuoted(x, y, z);
    assert [40] + x + [41] == [40, 39, 105, 116, 92, 39, 115, 39, 41];
    assert [40] + y + [41] == [40, 34, 41, 34, 41];
    assert [40] + z + [41] == [40, 96, 40, 96, 41];
  }

  lemma ThreeQuoted(x: Text, y: Text, z: Text)
    requires IsQuotation(x) && IsQuotation(y) && IsQuotation(z)
    ensures var a, b, c := [OPEN] + x + [CLOSE], [OPEN] + y + [CLOSE], [OPEN] + z + [CLOSE];
      Scan(a + ([COMMA] + (b + ([COMMA] + c)))) == [a, b, c]
  {
    hide Tuples, IsGroup, IsTuple, IsQuotation;
    var a, b, c := [OPEN] + x + [CLOSE], [OPEN] + y + [CLOSE], [OPEN] + z + [CLOSE];
    QuotedGroup(x);
    QuotedGroup(y);
    QuotedGroup(z);
    TuplesAreGroups(a);
    TuplesAreGroups(b);
    TuplesAreGroups(c);
    ScanTuple(a, [COMMA] + (b + ([COMMA] + c)));
    ScanComma(b + ([COMMA] + c));
    ScanTuple(b, [COMMA] + c);
    ScanComma(c);
    assert c == c + [];
    ScanTuple(c, []);
    ScanNothing();
  }

  lemma QuotedBodies()
    ensures IsQuotation([39, 105, 116, 92, 39, 115, 39]) && IsQuotation([34, 41, 34]) && IsQuotation([96, 40, 96])
  {
    var t := [105, 116, 92, 39, 115, 39];
    assert t[1..] == [116, 92, 39, 115, 39] && t[1..][1..] == [92, 39, 115, 39];
    assert [92, 39, 115, 39][2..] == [115, 39] && [115, 39][1..] == [39];
    assert QuotedRest(39, [39]);
    assert QuotedRest(39, [115, 39]);
    assert QuotedRest(39, [92, 39, 115, 39]);
    assert QuotedRest(39, t[1..]);
    assert QuotedRest(39, t);
    assert [39, 105, 116, 92, 39, 115, 39][1..] == t;
    assert [41, 34][1..] == [34] && [34, 41, 34][1..] == [41, 34] && QuotedRest(34, [34]);
    assert [40, 96][1..] == [96] && [96, 40, 96][1..] == [40, 96] && TickedRest([96]);
  }
}
