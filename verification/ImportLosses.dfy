/** Which acknowledged statements an import loses: a duplicate key rolls the whole
    open batch back, and the import goes on without it. */
module ImportLosses {
  import opened Prelude
  import opened ImportWire
  import opened ImportClient
  import opened ImportRuns

  // ----- what was committed --------------------------------------------------------------

  /** The statements of the batches that the server committed, in order. */
  function CommittedContents(closed: seq<Closed>): (r: Batch) {
    if closed == [] then []
    else
      var last := closed[|closed| - 1];
      CommittedContents(closed[..|closed| - 1]) + if last.copies > 0 then last.statements else []
  }

  /** Every batch was committed, or had nothing to lose. */
  ghost predicate NothingLost(closed: seq<Closed>) {
    forall i :: 0 <= i < |closed| ==> closed[i].copies > 0 || closed[i].statements == []
  }

  ghost predicate AllCounted(closed: seq<Closed>) {
    forall i :: 0 <= i < |closed| ==> closed[i].counted
  }

  lemma {:induction false} CommittedIsShorter(closed: seq<Closed>)
    ensures |CommittedContents(closed)| <= |Contents(closed)|
    ensures CommittedContents(closed) == Contents(closed) <==> NothingLost(closed)
    decreases |closed|
  {
    if closed != [] {
      var n := |closed| - 1;
      var last := closed[n];
      CommittedIsShorter(closed[..n]);
      assert closed == closed[..n] + [last];
      LostSnoc(closed[..n], last);
      var kept := if last.copies > 0 then last.statements else [];
      SameBack(CommittedContents(closed[..n]), Contents(closed[..n]), kept, last.statements);
    }
  }

  lemma LostSnoc(closed: seq<Closed>, last: Closed)
    ensures NothingLost(closed + [last]) <==> NothingLost(closed) && (last.copies > 0 || last.statements == [])
  {
    var all := closed + [last];
    assert all[|closed|] == last && forall i :: 0 <= i < |closed| ==> all[i] == closed[i];
  }

  lemma SameBack(a: Batch, b: Batch, x: Batch, y: Batch)
    requires |a| <= |b| && (x == y || x == [])
    ensures |a + x| <= |b + y|
    ensures a + x == b + y <==> a == b && x == y
  {
    if a + x == b + y {
      assert (a + x)[..|a|] == a && (b + y)[..|b|] == b;
      assert (a + x)[|a|..] == x && (b + y)[|b|..] == y;
    }
  }

  /** Each committed statement stands in a batch that is among the server's commits. */
  lemma {:induction false} CommittedIsInCommits(closed: seq<Closed>, s: Statement)
    requires s in CommittedContents(closed)
    ensures exists b :: b in Expanded(closed) && s in b
    decreases |closed|
  {
    var n := |closed| - 1;
    var last := closed[n];
    if s in CommittedContents(closed[..n]) {
      CommittedIsInCommits(closed[..n], s);
      var b :| b in Expanded(closed[..n]) && s in b;
      assert b in Expanded(closed);
    } else {
      var copies := Copies(last.statements, last.copies);
      assert copies[0] == last.statements;
      assert Expanded(closed)[|Expanded(closed[..n])|] == copies[0];
      assert last.statements in Expanded(closed);
    }
  }

  // ----- when a batch is closed uncounted ---------------------------------------------------

  /** The answer to the statement, or to the commit that is due behind it, is a duplicate key. */
  ghost predicate RollsBack(es: Events, c: Client, batchSize: nat, s: Statement, aged: bool) {
    && c.enabled && IsDml(s)
    && var c1 := OpenBatch(es, c);
       && c1.active
       && (|| Decided(es, c1.wire.next, c1.wire.live, Some(c1.pending), Reject(DuplicateKey))
           || (&& Decided(es, c1.wire.next, c1.wire.live, Some(c1.pending), Accept)
               && EndsInDuplicate(es, ExecuteDml(es, c1, s).0, batchSize, aged)))
  }

  /** A batch that is full or old has its commit answered with a duplicate key. */
  ghost predicate EndsInDuplicate(es: Events, c: Client, batchSize: nat, aged: bool) {
    && c.active && (c.dmlInBatch >= batchSize || aged)
    && Decided(es, c.wire.next, c.wire.live, Some(c.pending), Reject(DuplicateKey))
  }

  lemma CountedSnoc(closed: seq<Closed>, last: Closed)
    ensures AllCounted(closed + [last]) <==> AllCounted(closed) && last.counted
  {
    var all := closed + [last];
    assert all[|closed|] == last && forall i :: 0 <= i < |closed| ==> all[i] == closed[i];
  }

  lemma CommitCounts(es: Events, c: Client)
    ensures AllCounted(CommitBatch(es, c).0.closed) <==> AllCounted(c.closed)
    ensures !AllCounted(RollbackBatch(es, c).closed)
  {
    hide Execute, AllCounted;
    var w := Execute(es, c.wire, Open(c), Commit, 0).0;
    CountedSnoc(c.closed, Closed(c.pending, true, c.extra + (|w.commits| - |c.wire.commits|)));
    CountedSnoc(c.closed, Closed(c.pending, false, c.extra));
  }

  lemma DmlCounts(es: Events, c: Client, s: Statement)
    requires Counters(c) && IsDml(s)
    ensures AllCounted(ExecuteDml(es, c, s).0.closed) <==>
      AllCounted(c.closed) && !(c.active && Decided(es, c.wire.next, c.wire.live, Open(c), Reject(DuplicateKey)))
  {
    hide Execute, AllCounted, Decided, RollbackBatch, Counted, Contents;
    SqlFate(es, c.wire, Open(c), s);
    CommitCounts(es, c.(wire := Execute(es, c.wire, Open(c), s, 0).0));
  }

  lemma DueCounts(es: Events, c: Client, batchSize: nat, aged: bool)
    requires Counters(c) && Aligned(c)
    ensures AllCounted(CommitIfDue(es, c, batchSize, aged).0.closed) <==>
      AllCounted(c.closed) && !EndsInDuplicate(es, c, batchSize, aged)
  {
    hide Execute, AllCounted, Decided, RollbackBatch, Counted, Contents;
    if c.active {
      CommitFate(es, c.wire, c.pending);
      CommitCounts(es, c);
      CommitCounts(es, CommitBatch(es, c).0);
    }
  }

  lemma OpenCounts(es: Events, c: Client)
    ensures OpenBatch(es, c).closed == c.closed
  {
    hide Execute;
  }

  /** In a clean session a statement closes a batch uncounted exactly when it, or the
      commit due behind it, is answered with a duplicate key. */
  lemma StepCounts(es: Events, c: Client, batchSize: nat, s: Statement, aged: bool)
    requires Steady(c) && Clean(es, Step(es, c, batchSize, s, aged).0.wire)
    ensures AllCounted(Step(es, c, batchSize, s, aged).0.closed) <==>
      AllCounted(c.closed) && !RollsBack(es, c, batchSize, s, aged)
  {
    hide Execute, AllCounted, Decided, OpenBatch, ExecuteDml, CommitIfDue, CommitBatch, Sound, Clean, EndsInDuplicate;
    SteadyCounters(c);
    if c.enabled && IsDml(s) {
      var c1 := OpenBatch(es, c);
      var (c2, o) := ExecuteDml(es, c1, s);
      if o.Success? { DmlTaint(es, c2, batchSize, s, aged); }
      OpenSound(es, c);
      OpenOrOff(es, c);
      OpenCounts(es, c);
      SteadyCounters(c1);
      DmlSound(es, c1, s);
      DmlCounters(es, c1, s);
      DmlCounts(es, c1, s);
      EndsOnlyOpen(es, c2, batchSize, aged);
      DmlOpens(es, c1, s);
      if o.Success? { DueCounts(es, c2, batchSize, aged); }
      OneAnswer(es, c1.wire.next, c1.wire.live, Some(c1.pending));
    } else {
      CommitCounts(es, c);
    }
  }

  lemma SteadyCounters(c: Client)
    requires Steady(c)
    ensures Counters(c)
  {
  }

  lemma OneAnswer(es: Events, i: nat, live: bool, open: Option<Batch>)
    ensures !(Decided(es, i, live, open, Accept) && Decided(es, i, live, open, Reject(DuplicateKey)))
  {
  }

  lemma EndsOnlyOpen(es: Events, c: Client, batchSize: nat, aged: bool)
    ensures EndsInDuplicate(es, c, batchSize, aged) ==> c.active
  {
  }

  lemma DmlOpens(es: Events, c: Client, s: Statement)
    ensures ExecuteDml(es, c, s).0.active ==> c.active
    ensures c.active ==> Open(c) == Some(c.pending)
  {
    hide Execute;
  }

  // ----- a whole dump ------------------------------------------------------------------------

  ghost predicate NeverRollsBack(es: Events, c: Client, batchSize: nat, ss: seq<Statement>, ages: seq<bool>)
    requires |ages| == |ss|
    decreases |ss|
  {
    if ss == [] then
      !(c.active && Decided(es, c.wire.next, c.wire.live, Some(c.pending), Reject(DuplicateKey)))
    else
      && !RollsBack(es, c, batchSize, ss[0], ages[0])
      && var (c1, o) := Step(es, c, batchSize, ss[0], ages[0]);
         GoesOn(ss[0], o) ==> NeverRollsBack(es, c1, batchSize, ss[1..], ages[1..])
  }

  lemma FinalizeCounts(es: Events, c: Client)
    requires Counters(c) && Aligned(c)
    ensures AllCounted(Finalize(es, c).0.closed) <==>
      && AllCounted(c.closed)
      && !(c.active && Decided(es, c.wire.next, c.wire.live, Some(c.pending), Reject(DuplicateKey)))
  {
    hide Execute, AllCounted, Decided, RollbackBatch, Counted, Contents;
    if c.active {
      CommitFate(es, c.wire, c.pending);
      CommitCounts(es, c);
      CommitCounts(es, CommitBatch(es, c).0);
    }
  }

  lemma {:induction false} RunCounts(es: Events, c: Client, batchSize: nat, ss: seq<Statement>, ages: seq<bool>)
    requires |ages| == |ss| && Steady(c) && NeverStrands(es, c, batchSize, ss, ages)
    requires Run(es, c, batchSize, ss, ages).2
    requires Clean(es, Finalize(es, Run(es, c, batchSize, ss, ages).0).0.wire)
    ensures AllCounted(Finalize(es, Run(es, c, batchSize, ss, ages).0).0.closed) <==>
      AllCounted(c.closed) && NeverRollsBack(es, c, batchSize, ss, ages)
    decreases |ss|
  {
    hide Step, Finalize, Sound, Strands, Clean, GoesOn, Follows, AllCounted, RollsBack, Run;
    RunUnfolds(es, c, batchSize, ss, ages);
    if ss == [] {
      SteadyCounters(c);
      FinalizeCounts(es, c);
    } else {
      var c1 := Step(es, c, batchSize, ss[0], ages[0]).0;
      var c2 := Run(es, c1, batchSize, ss[1..], ages[1..]).0;
      RunFollows(es, c1, batchSize, ss[1..], ages[1..]);
      FinalizeFollows(es, c2);
      FollowsClean(es, c2.wire, Finalize(es, c2).0.wire);
      FollowsClean(es, c1.wire, c2.wire);
      StepAlignment(es, c, batchSize, ss[0], ages[0]);
      StepCounts(es, c, batchSize, ss[0], ages[0]);
      RunCounts(es, c1, batchSize, ss[1..], ages[1..]);
    }
  }

  lemma CountedIsKept(closed: seq<Closed>)
    requires CountedOnce(closed) && AllCounted(closed)
    ensures NothingLost(closed)
  {
  }

  /** A completed import that is clean and never stranded has committed exactly the
      acknowledged statements if and only if every batch it closed was committed or
      empty. It has counted every batch if and only if no answer to a statement or a
      commit was a duplicate key, and then nothing is lost. */
  lemma ImportLosesNothing(es: Events, c: Client, batchSize: nat, ss: seq<Statement>, ages: seq<bool>)
    requires |ages| == |ss| && Steady(c) && NeverStrands(es, c, batchSize, ss, ages)
    requires Import(es, c, batchSize, ss, ages).2 && Clean(es, Import(es, c, batchSize, ss, ages).0.wire)
    ensures var c1 := Import(es, c, batchSize, ss, ages).0;
      && (CommittedContents(c1.closed) == c.accepted + Joined(es, c, batchSize, ss, ages) <==> NothingLost(c1.closed))
      && (AllCounted(c1.closed) <==> AllCounted(c.closed) && NeverRollsBack(es, c, batchSize, ss, ages))
      && (AllCounted(c1.closed) ==> NothingLost(c1.closed))
      && forall s :: s in CommittedContents(c1.closed) ==> exists b :: b in c1.wire.commits && s in b
  {
    hide Run, Finalize, Clean, NeverStrands, NeverRollsBack, Joined, AllCounted, NothingLost, Aligned;
    hide Counted, Contents, Expanded, CommittedContents, CountedOnce, AllDml;
    var c1 := Import(es, c, batchSize, ss, ages).0;
    RunCounts(es, c, batchSize, ss, ages);
    ImportBooks(es, c, batchSize, ss, ages);
    ImportIsSound(es, c, batchSize, ss, ages);
    CommittedIsShorter(c1.closed);
    if AllCounted(c1.closed) { CountedIsKept(c1.closed); }
    forall s | s in CommittedContents(c1.closed) ensures exists b :: b in c1.wire.commits && s in b {
      CommittedIsInCommits(c1.closed, s);
    }
  }

  // ----- cases -----------------------------------------------------------------------------------

  /** A duplicate rolls back the statement acknowledged before it, and the import completes. */
  lemma LostStatementExample()
    ensures var es := [DELIVERED, DELIVERED, DUPLICATE, DELIVERED];
      var (c, _, ok) := Import(es, START, 3, [Insert("a"), Insert("b")], [false, false]);
      ok && Clean(es, c.wire) && c.accepted == [Insert("a")] && c.wire.commits == []
  {
    hide Execute, Run, Clean;
    var es := [DELIVERED, DELIVERED, DUPLICATE, DELIVERED];
    var a, b := Insert("a"), Insert("b");
    FirstInsert(es, 3, a);
    var w := Wire(true, Some([a]), [], [], [], 2, {});
    AtOnce(es, w, Some([a]), b);
    assert Execute(es, w, Some([a]), b, 0) == (w.(next := 3), Failure(DuplicateKey));
    AtOnce(es, w.(next := 3), Some([a]), Rollback);
    assert Execute(es, w.(next := 3), Some([a]), Rollback, 0) == (w.(txn := None, next := 4), Success);
    EmptyClean(es, w.(txn := None, next := 4));
    RunTwo(es, START, 3, a, b);
  }

  /** A batch may be committed and yet closed uncounted: the reply to its commit is
      lost, and the commit after the replay is answered with a duplicate key. */
  lemma UncountedCommitExample()
    ensures var es := [DELIVERED, DELIVERED, DELIVERED.(replies := false), DELIVERED, DELIVERED, DELIVERED,
                       DUPLICATE, DELIVERED];
      var (c, _, ok) := Import(es, START, 1, [Insert("a")], [false]);
      ok && c.wire.commits == [[Insert("a")]] && c.committedBatches == 0
  {
    hide Execute, Run;
    var es := [DELIVERED, DELIVERED, DELIVERED.(replies := false), DELIVERED, DELIVERED, DELIVERED,
               DUPLICATE, DELIVERED];
    var a := Insert("a");
    FirstInsert(es, 1, a);
    CommitThenDuplicate(es, a);
    var w := Execute(es, Wire(true, Some([a]), [], [], [], 2, {}), Some([a]), Commit, 0).0;
    RollbackRecords(es, w, [a], 0);
    RunOne(es, START, 1, a);
  }

  lemma CommitThenDuplicate(es: Events, a: Statement)
    requires IsDml(a) && |es| == 8 && es[2] == DELIVERED.(replies := false)
    requires es[3] == es[4] == es[5] == DELIVERED && es[6] == DUPLICATE
    ensures var (w, o) := Execute(es, Wire(true, Some([a]), [], [], [], 2, {}), Some([a]), Commit, 0);
      o == Failure(DuplicateKey) && w.commits == [[a]]
  {
    hide Execute, Reopen, Clean, RejectsOne;
    var w := Wire(true, Some([a]), [], [], [], 2, {});
    var w1 := Wire(false, None, [[a]], [], [], 3, {});
    assert Request(es, w, true, Commit) == (w1, Lost(true)) by { assert [] + [[a]] == [[a]]; }
    ReopenFate(es, w1, Some([a]));
    var w2 := Reopen(es, w1, Some([a])).0;
    assert Repeats(es, 5);
    ExecuteUnfolds(es, w, Some([a]), Commit, 0);
    ExecuteUnfolds(es, w2, Some([a]), Commit, 1);
  }
}
