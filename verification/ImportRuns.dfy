/** What every import keeps: the client's books, whole batches among the server's
    commits, and the open batch as the connection's transaction. */
module ImportRuns {
  import opened Prelude
  import opened ImportWire
  import opened ImportClient

  // ----- the books ------------------------------------------------------------------------------

  lemma CloseBooks(c: Client, counted: bool)
    requires Counters(c)
    ensures Counters(CloseBatch(c, counted))
    ensures Expanded(CloseBatch(c, counted).closed) == Expanded(c.closed) + Copies(c.pending, c.extra)
    ensures CountedOnce(c.closed) && (counted ==> c.extra >= 1) ==> CountedOnce(CloseBatch(c, counted).closed)
  {
    hide Expanded, Counted, Contents, CountedOnce, Copies;
    Snoc(c.closed, Closed(c.pending, counted, c.extra));
    assert c.accepted + [] == c.accepted;
  }

  lemma CommitCounters(es: Events, c: Client)
    requires Counters(c) && c.active
    ensures Counters(CommitBatch(es, c).0)
    ensures CommitBatch(es, c).0.accepted == c.accepted && CommitBatch(es, c).0.enabled == c.enabled
  {
    hide Execute, Counted, Contents;
    var (w, o) := Execute(es, c.wire, Open(c), Commit, 0);
    CloseBooks(c.(wire := w, extra := c.extra + (|w.commits| - |c.wire.commits|)), true);
  }

  lemma RollbackCounters(es: Events, c: Client)
    requires Counters(c)
    ensures Counters(RollbackBatch(es, c)) && RollbackBatch(es, c).accepted == c.accepted
  {
    hide Execute, Counted, Contents;
    CloseBooks(c.(wire := Execute(es, c.wire, Open(c), Rollback, 0).0), false);
  }

  lemma OpenCounters(es: Events, c: Client)
    requires Counters(c)
    ensures var c1 := OpenBatch(es, c);
      && Counters(c1) && c1.accepted == c.accepted && c1.pending == c.pending && (c1.active || !c1.enabled)
      && (c1.active <==> c.active || Begins(es, c.wire))
      && (!c.active && c1.active ==>
           && c1.wire.live && c1.wire.txn == Some([])
           && c1.wire.next == LastTry(es, c.wire.next, c.wire.live, None, 0).0 + 1)
  {
    hide Execute, Counted, Contents, LastTry, Begins, AllDml;
    BeginFate(es, c.wire);
  }

  lemma DmlCounters(es: Events, c: Client, s: Statement)
    requires Counters(c) && IsDml(s)
    ensures var (c1, o) := ExecuteDml(es, c, s);
      && Counters(c1) && (o.Success? <==> Decided(es, c.wire.next, c.wire.live, Open(c), Accept))
      && c1.accepted == (if c.active && o.Success? then c.accepted + [s] else c.accepted)
  {
    hide Execute, Counted, Contents, Decided, RollbackBatch;
    SqlFate(es, c.wire, Open(c), s);
    var (w, o) := Execute(es, c.wire, Open(c), s, 0);
    if o == Failure(DuplicateKey) { RollbackCounters(es, c.(wire := w)); }
    assert Contents(c.closed) + (c.pending + [s]) == c.accepted + [s];
  }

  lemma DueCounters(es: Events, c: Client, batchSize: nat, aged: bool)
    requires Counters(c)
    ensures var (c1, o) := CommitIfDue(es, c, batchSize, aged);
      && Counters(c1) && c1.accepted == c.accepted
      && (o.Success? && c1.active ==> |c1.pending| < batchSize && !aged)
  {
    hide Execute, Counted, Contents, CommitBatch, RollbackBatch;
    if c.active {
      CommitCounters(es, c);
      CommitCloses(es, c);
      RollbackCounters(es, CommitBatch(es, c).0);
    }
  }

  lemma CommitCloses(es: Events, c: Client)
    ensures var (c1, o) := CommitBatch(es, c);
      if o.Success? then !c1.active else c1.active == c.active && c1.pending == c.pending
  {
    hide Execute;
  }

  /** Whatever the events, a statement keeps the books; it is added to the
      acknowledged ones exactly when the events acknowledge it into a batch; and
      behind an acknowledged statement no batch that is full or old stays open. */
  lemma StepBooks(es: Events, c: Client, batchSize: nat, s: Statement, aged: bool)
    requires Counters(c)
    ensures var (c1, o) := Step(es, c, batchSize, s, aged);
      && Counters(c1)
      && c1.accepted == (if Joins(es, c, s) then c.accepted + [s] else c.accepted)
      && (o.Success? && c1.active ==> |c1.pending| < batchSize && !aged)
  {
    hide Execute, Counters, OpenBatch, ExecuteDml, CommitIfDue, CommitBatch, Decided, Begins, LastTry;
    if c.enabled && IsDml(s) {
      OpenCounters(es, c);
      var c1 := OpenBatch(es, c);
      DmlCounters(es, c1, s);
      DueCounters(es, ExecuteDml(es, c1, s).0, batchSize, aged);
      OpenKeeps(es, c);
    } else {
      if c.active {
        CommitCounters(es, c);
        CommitCloses(es, c);
      }
      var c1 := if c.active then CommitBatch(es, c).0 else c;
      RewireCounters(c1, Execute(es, c1.wire, Open(c1), s, 0).0);
    }
  }

  lemma OpenKeeps(es: Events, c: Client)
    ensures c.active ==> OpenBatch(es, c) == c
  {
  }

  lemma RewireCounters(c: Client, w: Wire)
    requires Counters(c)
    ensures Counters(c.(wire := w))
  {
  }

  // ----- whole commits ----------------------------------------------------------------------------

  lemma CopiesGrow(a: seq<Batch>, b: Batch, n: nat, k: nat)
    ensures (a + Copies(b, n)) + Copies(b, k) == a + Copies(b, n + k)
    ensures a + Copies(b, 0) == a
  {
    assert Copies(b, n) + Copies(b, k) == Copies(b, n + k);
  }

  lemma CloseSound(c: Client, counted: bool)
    requires Sound(c) && (counted ==> c.extra >= 1)
    ensures Steady(CloseBatch(c, counted)) && !CloseBatch(c, counted).active
  {
    hide Expanded, Counted, Contents, CountedOnce, Copies, Counters;
    CloseBooks(c, counted);
    CopiesGrow(Expanded(CloseBatch(c, counted).closed), [], 0, 0);
  }

  lemma CommitSound(es: Events, c: Client)
    requires Steady(c) && c.active && Clean(es, CommitBatch(es, c).0.wire)
    ensures var (c1, o) := CommitBatch(es, c);
      && Sound(c1) && c1.enabled == c.enabled
      && (if o.Success? then Steady(c1) && !c1.active else c1.active && c1.pending == c.pending)
      && (o.Failure? ==> c1.wire.live && c1.wire.txn == None)
      && forall error :: o == Failure(error) <==> Decided(es, c.wire.next, c.wire.live, Open(c), Reject(error))
  {
    hide Execute, Expanded, Counted, Contents, CountedOnce, Copies, AllDml, Clean, Decided;
    var (w, o) := Execute(es, c.wire, Open(c), Commit, 0);
    var c1 := c.(wire := w, extra := c.extra + (|w.commits| - |c.wire.commits|));
    CommitFate(es, c.wire, c.pending);
    ExecuteRecords(es, c.wire, c.pending, Commit, 0);
    CopiesGrow(Expanded(c.closed), c.pending, c.extra, |w.commits| - |c.wire.commits|);
    if o.Success? { CloseSound(c1, true); }
  }

  lemma RollbackSound(es: Events, c: Client)
    requires Sound(c) && c.active
    ensures Steady(RollbackBatch(es, c)) && !RollbackBatch(es, c).active
  {
    hide Execute, Expanded, Counted, Contents, CountedOnce, Copies, AllDml;
    RollbackRecords(es, c.wire, c.pending, 0);
    CloseSound(c.(wire := Execute(es, c.wire, Open(c), Rollback, 0).0), false);
  }

  lemma OpenSound(es: Events, c: Client)
    requires Steady(c)
    ensures Steady(OpenBatch(es, c))
  {
    hide Execute, Expanded, Counted, Contents, CountedOnce, Copies, AllDml;
    if !c.active {
      OutsideRecords(es, c.wire, Begin, 0);
      NoneRan(c.wire, Execute(es, c.wire, None, Begin, 0).0, Begin);
      BeginFate(es, c.wire);
    }
  }

  lemma NoneRan(w: Wire, w1: Wire, s: Statement)
    requires RanOnly(w, w1, s)
    ensures !s.Sql? ==> w1.immediate == w.immediate
    ensures forall i :: 0 <= i < |w1.immediate| ==>
      (i < |w.immediate| && w1.immediate[i] == w.immediate[i]) || w1.immediate[i] == s
  {
    OneMoreCopy(s, 0);
    assert w.immediate + [] == w.immediate;
  }

  lemma DmlSound(es: Events, c: Client, s: Statement)
    requires Steady(c) && IsDml(s) && (c.active || !c.enabled) && Clean(es, ExecuteDml(es, c, s).0.wire)
    ensures var (c1, o) := ExecuteDml(es, c, s);
      Sound(c1) && (o.Success? || o == Failure(DuplicateKey) ==> Steady(c1))
  {
    hide Execute, Expanded, Counted, Contents, CountedOnce, Copies, AllDml, Clean, RollbackBatch;
    var (w, o) := Execute(es, c.wire, Open(c), s, 0);
    DmlCounters(es, c, s);
    if c.active {
      if o == Failure(DuplicateKey) { RollbackTaint(es, c.(wire := w)); }
      ExecuteRecords(es, c.wire, c.pending, s, 0);
      DmlFate(es, c.wire, c.pending, s);
      CopiesGrow(Expanded(c.closed), c.pending, 0, 0);
      CopiesGrow(Expanded(c.closed), c.pending + [s], 0, 0);
      if o == Failure(DuplicateKey) { RollbackSound(es, c.(wire := w)); }
    } else {
      OutsideRecords(es, c.wire, s, 0);
    }
  }

  lemma RollbackTaint(es: Events, c: Client)
    ensures Clean(es, RollbackBatch(es, c).wire) ==> Clean(es, c.wire)
  {
    hide Execute;
  }

  lemma DueSound(es: Events, c: Client, batchSize: nat, aged: bool)
    requires Steady(c) && Clean(es, CommitIfDue(es, c, batchSize, aged).0.wire)
    ensures var (c1, o) := CommitIfDue(es, c, batchSize, aged);
      Sound(c1) && (o.Success? || o == Failure(DuplicateKey) ==> Steady(c1))
  {
    hide Execute, Sound, Clean, RollbackBatch, CommitBatch;
    if c.active && (c.dmlInBatch >= batchSize || aged) {
      var (c1, o) := CommitBatch(es, c);
      if o == Failure(DuplicateKey) { RollbackTaint(es, c1); }
      CommitSound(es, c);
      if o == Failure(DuplicateKey) { RollbackSound(es, c1); }
    }
  }

  // ----- one statement ------------------------------------------------------------------------------

  lemma DmlTaint(es: Events, c: Client, batchSize: nat, s: Statement, aged: bool)
    ensures Clean(es, ExecuteDml(es, c, s).0.wire) ==> Clean(es, c.wire)
    ensures Clean(es, CommitIfDue(es, c, batchSize, aged).0.wire) ==> Clean(es, c.wire)
    ensures Clean(es, CommitBatch(es, c).0.wire) ==> Clean(es, c.wire)
  {
    hide Execute;
  }

  lemma BatchableSound(es: Events, c: Client, batchSize: nat, s: Statement, aged: bool)
    requires Steady(c) && c.enabled && IsDml(s)
    ensures var (c1, o) := Step(es, c, batchSize, s, aged);
      Clean(es, c1.wire) ==> Sound(c1) && (o.Success? || o == Failure(DuplicateKey) ==> Steady(c1))
  {
    hide Execute, Sound, Clean, OpenBatch, ExecuteDml, CommitIfDue;
    var c1 := OpenBatch(es, c);
    var (c2, o) := ExecuteDml(es, c1, s);
    DmlTaint(es, c2, batchSize, s, aged);
    OpenSound(es, c);
    OpenOrOff(es, c);
    if Clean(es, Step(es, c, batchSize, s, aged).0.wire) {
      DmlSound(es, c1, s);
      if o.Success? { DueSound(es, c2, batchSize, aged); }
    }
  }

  lemma OpenOrOff(es: Events, c: Client)
    ensures OpenBatch(es, c).active || !OpenBatch(es, c).enabled
  {
    hide Execute;
  }

  /** A statement outside a batch keeps everything. */
  lemma OutsideSound(es: Events, c: Client, s: Statement)
    requires Steady(c) && !c.active && !(c.enabled && IsDml(s))
    ensures Steady(c.(wire := Execute(es, c.wire, None, s, 0).0))
  {
    hide Execute, Expanded, Counted, Contents, CountedOnce, Copies, AllDml, RanOnly;
    OutsideRecords(es, c.wire, s, 0);
    NoneRan(c.wire, Execute(es, c.wire, None, s, 0).0, s);
  }

  lemma OtherSound(es: Events, c: Client, batchSize: nat, s: Statement, aged: bool)
    requires Steady(c) && !(c.enabled && IsDml(s)) && Clean(es, Step(es, c, batchSize, s, aged).0.wire)
    ensures var (c1, o) := Step(es, c, batchSize, s, aged);
      && Sound(c1)
      && (GoesOn(s, o) && !Strands(es, c, s) ==> Steady(c1))
      && (Strands(es, c, s) ==> GoesOn(s, o) && !Aligned(c1))
  {
    hide Execute, Sound, Clean, CommitBatch, Decided;
    if c.active {
      var (c1, o) := CommitBatch(es, c);
      if o.Success? { assert Clean(es, c1.wire) by { WireClean(es, c1, s); } }
      CommitSound(es, c);
      if o.Success? { OutsideSound(es, c1, s); }
    } else {
      OutsideSound(es, c, s);
    }
  }

  lemma WireClean(es: Events, c: Client, s: Statement)
    requires Clean(es, Execute(es, c.wire, Open(c), s, 0).0)
    ensures Clean(es, c.wire)
  {
    hide Execute;
  }

  /** As long as no replayed request is rejected, a statement after which the import
      goes on leaves the open batch as the connection's transaction exactly when it
      does not strand it, which the events decide beforehand. Every commit is a
      whole batch either way. */
  lemma StepAlignment(es: Events, c: Client, batchSize: nat, s: Statement, aged: bool)
    requires Steady(c) && Clean(es, Step(es, c, batchSize, s, aged).0.wire)
    ensures var (c1, o) := Step(es, c, batchSize, s, aged);
      && Sound(c1)
      && (GoesOn(s, o) ==> (Aligned(c1) <==> !Strands(es, c, s)))
      && (GoesOn(s, o) && !Strands(es, c, s) ==> Steady(c1))
      && (Strands(es, c, s) ==> GoesOn(s, o))
  {
    hide Execute, Sound, Clean, Step;
    if c.enabled && IsDml(s) {
      BatchableSound(es, c, batchSize, s, aged);
    } else {
      OtherSound(es, c, batchSize, s, aged);
    }
  }

  // ----- a whole dump ---------------------------------------------------------------------------------

  lemma FollowsTrans(w: Wire, w1: Wire, w2: Wire)
    requires Follows(w, w1) && Follows(w1, w2)
    ensures Follows(w, w2)
  {
  }

  lemma FollowsItself(w: Wire)
    ensures Follows(w, w)
  {
  }

  lemma CommitFollows(es: Events, c: Client)
    ensures Follows(c.wire, CommitBatch(es, c).0.wire) && Follows(c.wire, RollbackBatch(es, c).wire)
  {
    hide Execute, Follows;
    ExecuteFollows(es, c.wire, Open(c), Commit, 0);
    ExecuteFollows(es, c.wire, Open(c), Rollback, 0);
  }

  lemma OpenFollows(es: Events, c: Client)
    ensures Follows(c.wire, OpenBatch(es, c).wire)
  {
    hide Execute, Follows;
    FollowsItself(c.wire);
    ExecuteFollows(es, c.wire, None, Begin, 0);
  }

  lemma DmlFollows(es: Events, c: Client, s: Statement)
    ensures Follows(c.wire, ExecuteDml(es, c, s).0.wire)
  {
    hide Execute, Follows, RollbackBatch;
    ExecuteFollows(es, c.wire, Open(c), s, 0);
    var c1 := c.(wire := Execute(es, c.wire, Open(c), s, 0).0);
    CommitFollows(es, c1);
    FollowsTrans(c.wire, c1.wire, RollbackBatch(es, c1).wire);
  }

  lemma DueFollows(es: Events, c: Client, batchSize: nat, aged: bool)
    ensures Follows(c.wire, CommitIfDue(es, c, batchSize, aged).0.wire)
  {
    hide Execute, Follows, RollbackBatch, CommitBatch;
    FollowsItself(c.wire);
    CommitFollows(es, c);
    var c1 := CommitBatch(es, c).0;
    CommitFollows(es, c1);
    FollowsTrans(c.wire, c1.wire, RollbackBatch(es, c1).wire);
  }

  lemma StepFollows(es: Events, c: Client, batchSize: nat, s: Statement, aged: bool)
    ensures Follows(c.wire, Step(es, c, batchSize, s, aged).0.wire)
  {
    hide Execute, Follows, CommitBatch, OpenBatch, ExecuteDml, CommitIfDue;
    FollowsItself(c.wire);
    if c.enabled && IsDml(s) {
      var c1 := OpenBatch(es, c);
      var c2 := ExecuteDml(es, c1, s).0;
      OpenFollows(es, c);
      DmlFollows(es, c1, s);
      FollowsTrans(c.wire, c1.wire, c2.wire);
      DueFollows(es, c2, batchSize, aged);
      FollowsTrans(c.wire, c2.wire, CommitIfDue(es, c2, batchSize, aged).0.wire);
    } else {
      CommitFollows(es, c);
      var c1 := if c.active then CommitBatch(es, c).0 else c;
      ExecuteFollows(es, c1.wire, Open(c1), s, 0);
      FollowsTrans(c.wire, c1.wire, Execute(es, c1.wire, Open(c1), s, 0).0);
    }
  }

  lemma {:induction false} RunFollows(es: Events, c: Client, batchSize: nat, ss: seq<Statement>, ages: seq<bool>)
    requires |ages| == |ss|
    ensures Follows(c.wire, Run(es, c, batchSize, ss, ages).0.wire)
    decreases |ss|
  {
    hide Step, Follows;
    FollowsItself(c.wire);
    if ss != [] {
      var c1 := Step(es, c, batchSize, ss[0], ages[0]).0;
      StepFollows(es, c, batchSize, ss[0], ages[0]);
      RunFollows(es, c1, batchSize, ss[1..], ages[1..]);
      FollowsTrans(c.wire, c1.wire, Run(es, c1, batchSize, ss[1..], ages[1..]).0.wire);
    }
  }

  lemma FinalizeFollows(es: Events, c: Client)
    ensures Follows(c.wire, Finalize(es, c).0.wire)
  {
    hide Execute, Follows, RollbackBatch, CommitBatch;
    FollowsItself(c.wire);
    CommitFollows(es, c);
    var c1 := CommitBatch(es, c).0;
    CommitFollows(es, c1);
    FollowsTrans(c.wire, c1.wire, RollbackBatch(es, c1).wire);
  }

  /** The replays of an import take only events of that import; so if the server
      rejects none of its requests, none of its replays is rejected. */
  lemma QuietImport(es: Events, c: Client, batchSize: nat, ss: seq<Statement>, ages: seq<bool>)
    requires |ages| == |ss|
    ensures var c1 := Import(es, c, batchSize, ss, ages).0;
      && Follows(c.wire, c1.wire)
      && (Clean(es, c.wire) && (forall i :: c.wire.next <= i < c1.wire.next ==> !Rejects(es, i)) ==> Clean(es, c1.wire))
  {
    hide Run, Finalize, Follows, Clean, Rejects;
    var c1 := Run(es, c, batchSize, ss, ages).0;
    var c2 := Finalize(es, c1).0;
    RunFollows(es, c, batchSize, ss, ages);
    FinalizeFollows(es, c1);
    FollowsTrans(c.wire, c1.wire, c2.wire);
    var c3 := Import(es, c, batchSize, ss, ages).0;
    if Clean(es, c.wire) && forall i :: c.wire.next <= i < c3.wire.next ==> !Rejects(es, i) {
      QuietEvents(es, c.wire, c3.wire);
    }
  }

  /** One outcome for each statement, and only the last may end the import. */
  ghost predicate Answered(ss: seq<Statement>, os: seq<Outcome>, ok: bool) {
    && |os| <= |ss| && (ok ==> |os| == |ss|) && (!ok ==> os != [])
    && forall i :: 0 <= i < |os| ==> (GoesOn(ss[i], os[i]) <==> ok || i < |os| - 1)
  }

  /** Whatever the events, a run keeps the books, has one outcome for each statement
      it comes to, and acknowledges into batches exactly the statements that the
      events acknowledge, in order. */
  lemma {:induction false} RunBooks(es: Events, c: Client, batchSize: nat, ss: seq<Statement>, ages: seq<bool>)
    requires |ages| == |ss| && Counters(c)
    ensures var (c1, os, ok) := Run(es, c, batchSize, ss, ages);
      && Counters(c1) && Answered(ss, os, ok)
      && c1.accepted == c.accepted + Joined(es, c, batchSize, ss, ages)
    decreases |ss|
  {
    hide Step, Counters, Joins, GoesOn, Run, Joined, Answered;
    RunUnfolds(es, c, batchSize, ss, ages);
    if ss == [] {
      JoinedNone(es, c, batchSize, ss, ages);
    } else {
      var (c1, o) := Step(es, c, batchSize, ss[0], ages[0]);
      StepBooks(es, c, batchSize, ss[0], ages[0]);
      AnsweredLast(ss, o);
      if GoesOn(ss[0], o) {
        RunBooks(es, c1, batchSize, ss[1..], ages[1..]);
        var (_, os, ok) := Run(es, c1, batchSize, ss[1..], ages[1..]);
        AnsweredCons(ss, o, os, ok);
      }
      JoinedUnfolds(es, c, batchSize, ss, ages, c.accepted);
    }
  }

  lemma JoinedNone(es: Events, c: Client, batchSize: nat, ss: seq<Statement>, ages: seq<bool>)
    requires |ages| == |ss| == 0
    ensures c.accepted + Joined(es, c, batchSize, ss, ages) == c.accepted && Answered(ss, [], true)
  {
  }

  lemma JoinedUnfolds(es: Events, c: Client, batchSize: nat, ss: seq<Statement>, ages: seq<bool>, before: Batch)
    requires |ages| == |ss| > 0
    ensures var (c1, o) := Step(es, c, batchSize, ss[0], ages[0]);
      var after := if Joins(es, c, ss[0]) then before + [ss[0]] else before;
      before + Joined(es, c, batchSize, ss, ages) ==
        if GoesOn(ss[0], o) then after + Joined(es, c1, batchSize, ss[1..], ages[1..]) else after
  {
    hide Step, Joins, GoesOn;
    var (c1, o) := Step(es, c, batchSize, ss[0], ages[0]);
    var mine := if Joins(es, c, ss[0]) then [ss[0]] else [];
    var rest := if GoesOn(ss[0], o) then Joined(es, c1, batchSize, ss[1..], ages[1..]) else [];
    assert before + (mine + rest) == (before + mine) + rest;
  }

  lemma AnsweredLast(ss: seq<Statement>, o: Outcome)
    requires ss != []
    ensures !GoesOn(ss[0], o) ==> Answered(ss, [o], false)
  {
  }

  lemma AnsweredCons(ss: seq<Statement>, o: Outcome, os: seq<Outcome>, ok: bool)
    requires ss != [] && GoesOn(ss[0], o) && Answered(ss[1..], os, ok)
    ensures Answered(ss, [o] + os, ok)
  {
    hide GoesOn;
    forall i | 0 <= i < |[o] + os| ensures GoesOn(ss[i], ([o] + os)[i]) <==> ok || i < |[o] + os| - 1 {
      if i > 0 { assert ss[1..][i - 1] == ss[i] && ([o] + os)[i] == os[i - 1]; }
    }
  }

  lemma {:induction false} RunSound(es: Events, c: Client, batchSize: nat, ss: seq<Statement>, ages: seq<bool>)
    requires |ages| == |ss| && Steady(c) && NeverStrands(es, c, batchSize, ss, ages)
    requires Clean(es, Run(es, c, batchSize, ss, ages).0.wire)
    ensures var (c1, _, ok) := Run(es, c, batchSize, ss, ages); Sound(c1) && (ok ==> Steady(c1))
    decreases |ss|
  {
    hide Step, Sound, Aligned, Strands, Clean, GoesOn, Follows;
    if ss != [] {
      var (c1, o) := Step(es, c, batchSize, ss[0], ages[0]);
      if GoesOn(ss[0], o) {
        RunFollows(es, c1, batchSize, ss[1..], ages[1..]);
        FollowsClean(es, c1.wire, Run(es, c1, batchSize, ss[1..], ages[1..]).0.wire);
      }
      StepAlignment(es, c, batchSize, ss[0], ages[0]);
      if GoesOn(ss[0], o) { RunSound(es, c1, batchSize, ss[1..], ages[1..]); }
    }
  }

  lemma FollowsClean(es: Events, w: Wire, w1: Wire)
    requires Follows(w, w1) && Clean(es, w1)
    ensures Clean(es, w)
  {
  }

  lemma FinalizeBooks(es: Events, c: Client)
    requires Counters(c)
    ensures var (c1, ok) := Finalize(es, c); Counters(c1) && c1.accepted == c.accepted && (ok ==> !c1.active)
  {
    hide Execute, Counters, CommitBatch, RollbackBatch;
    if c.active {
      CommitCounters(es, c);
      CommitCloses(es, c);
      RollbackCounters(es, CommitBatch(es, c).0);
      RollbackCloses(es, CommitBatch(es, c).0);
    }
  }

  lemma RollbackCloses(es: Events, c: Client)
    ensures !RollbackBatch(es, c).active
  {
    hide Execute;
  }

  lemma FinalizeSound(es: Events, c: Client)
    requires Steady(c) && Clean(es, Finalize(es, c).0.wire)
    ensures var (c1, ok) := Finalize(es, c); Sound(c1) && (ok ==> Steady(c1))
  {
    hide Execute, Sound, Clean, CommitBatch, RollbackBatch;
    if c.active {
      var (c1, o) := CommitBatch(es, c);
      if o == Failure(DuplicateKey) { RollbackTaint(es, c1); }
      CommitSound(es, c);
      if o == Failure(DuplicateKey) { RollbackSound(es, c1); }
    }
  }

  /** Over a whole dump, whatever the events: the outcomes are those of the
      statements, and what is acknowledged into batches is what the events
      acknowledge; a completed import has it all in closed batches. */
  lemma ImportBooks(es: Events, c: Client, batchSize: nat, ss: seq<Statement>, ages: seq<bool>)
    requires |ages| == |ss| && Counters(c)
    ensures var (c1, os, ok) := Import(es, c, batchSize, ss, ages);
      var ran := Run(es, c, batchSize, ss, ages).2;
      && Counters(c1) && Answered(ss, os, ran) && (ok ==> ran && !c1.active)
      && c1.accepted == c.accepted + Joined(es, c, batchSize, ss, ages)
      && (ok ==> Contents(c1.closed) == c.accepted + Joined(es, c, batchSize, ss, ages))
  {
    hide Run, Finalize, Counted, Contents, AllDml, Answered, Joined;
    RunBooks(es, c, batchSize, ss, ages);
    FinalizeBooks(es, Run(es, c, batchSize, ss, ages).0);
    var c1 := Import(es, c, batchSize, ss, ages).0;
    assert Contents(c1.closed) + [] == Contents(c1.closed);
  }

  /** Over a whole dump, if no replayed request is rejected and no batch stranded:
      every commit is a whole batch in order, every counted batch was committed,
      and no batchable statement ran outside a transaction while batching was on. */
  lemma ImportIsSound(es: Events, c: Client, batchSize: nat, ss: seq<Statement>, ages: seq<bool>)
    requires |ages| == |ss| && Steady(c) && NeverStrands(es, c, batchSize, ss, ages)
    requires Clean(es, Import(es, c, batchSize, ss, ages).0.wire)
    ensures var (c1, _, ok) := Import(es, c, batchSize, ss, ages);
      && Sound(c1)
      && (ok ==> c1.wire.commits == Expanded(c1.closed))
  {
    hide Run, Finalize, Sound, Aligned, Clean, NeverStrands, Follows;
    var (c1, _, ran) := Run(es, c, batchSize, ss, ages);
    if ran {
      FinalizeFollows(es, c1);
      FollowsClean(es, c1.wire, Finalize(es, c1).0.wire);
    }
    RunSound(es, c, batchSize, ss, ages);
    if ran {
      FinalizeSound(es, c1);
      FinalizeCloses(es, c1);
      var (c2, ok) := Finalize(es, c1);
      if ok { AllClosed(c2); }
    }
  }

  lemma FinalizeCloses(es: Events, c: Client)
    ensures Finalize(es, c).1 ==> !Finalize(es, c).0.active
  {
    hide Execute;
  }

  lemma AllClosed(c: Client)
    requires Sound(c) && !c.active
    ensures c.wire.commits == Expanded(c.closed)
  {
    hide Expanded, Counted, Contents, CountedOnce, Copies;
    CopiesGrow(Expanded(c.closed), c.pending, 0, 0);
  }

  // ----- cases ------------------------------------------------------------------------------------------

  /** A new session. */
  const START := Client(Wire(false, None, [], [], [], 0, {}), true, false, [], 0, 0, [], 0, [])

  const DELIVERED := Event(true, true, Accept, true, true)
  const DUPLICATE := DELIVERED.(verdict := Reject(DuplicateKey))

  function Insert(text: string): (s: Statement) { Sql(text, Dml) }

  lemma StartIsSteady(es: Events)
    ensures Steady(START) && Clean(es, START.wire)
  {
  }

  /** A statement that is answered at once. */
  lemma AtOnce(es: Events, w: Wire, open: Option<Batch>, s: Statement)
    requires Hears(es, w.next, w.live)
    ensures var (w1, reply) := Request(es, w, open.Some?, s);
      Execute(es, w, open, s, 0) == (w1, OutcomeOf(reply))
  {
    hide Request, Reopen, Execute, Hears;
    ExecuteUnfolds(es, w, open, s, 0);
    RequestFate(es, w, open.Some?, s);
  }

  lemma RunOne(es: Events, c: Client, batchSize: nat, s: Statement)
    ensures var (c1, o) := Step(es, c, batchSize, s, false);
      var (c2, _, ran) := Run(es, c, batchSize, [s], [false]);
      c2 == c1 && (ran <==> GoesOn(s, o))
  {
    hide Step, Run, GoesOn;
    RunUnfolds(es, c, batchSize, [s], [false]);
    RunUnfolds(es, Step(es, c, batchSize, s, false).0, batchSize, [], []);
    assert [s][1..] == [] && [false][1..] == [];
  }

  lemma RunTwo(es: Events, c: Client, batchSize: nat, s: Statement, s1: Statement)
    requires GoesOn(s, Step(es, c, batchSize, s, false).1)
    ensures var (c1, o) := Step(es, Step(es, c, batchSize, s, false).0, batchSize, s1, false);
      var (c2, _, ran) := Run(es, c, batchSize, [s, s1], [false, false]);
      c2 == c1 && (ran <==> GoesOn(s1, o))
  {
    hide Step, Run, GoesOn;
    RunUnfolds(es, c, batchSize, [s, s1], [false, false]);
    RunOne(es, Step(es, c, batchSize, s, false).0, batchSize, s1);
    assert [s, s1][1..] == [s1] && [false, false][1..] == [false];
  }

  /** The first statement of a batch, answered at once. */
  lemma FirstInsert(es: Events, batchSize: nat, a: Statement)
    requires |es| >= 2 && es[0] == es[1] == DELIVERED && IsDml(a)
    ensures var c := START.(wire := Wire(true, Some([a]), [], [], [], 2, {}), active := true, pending := [a],
                            dmlInBatch := 1, accepted := [a]);
      Step(es, START, batchSize, a, false) == CommitIfDue(es, c, batchSize, false)
  {
    hide Execute, CommitIfDue;
    assert [] + [a] == [a];
    AtOnce(es, START.wire, None, Begin);
    AtOnce(es, Wire(true, Some([]), [], [], [], 1, {}), Some([]), a);
  }

  /** A statement that is not batchable closes the open batch first; when that
      commit is refused as a duplicate, the error is skipped but the batch stays
      open without a transaction, and the import goes on. */
  lemma StrandedBatchExample()
    ensures var es := [DELIVERED, DELIVERED, DUPLICATE];
      var (c, _, ran) := Run(es, START, 2, [Insert("a"), Sql("create table u (a int)", OtherSql)], [false, false]);
      ran && c.active && c.pending == [Insert("a")] && c.wire.live && c.wire.txn == None
  {
    hide Execute, Run;
    var es := [DELIVERED, DELIVERED, DUPLICATE];
    var a, create := Insert("a"), Sql("create table u (a int)", OtherSql);
    FirstInsert(es, 2, a);
    var w := Wire(true, Some([a]), [], [], [], 2, {});
    AtOnce(es, w, Some([a]), Commit);
    assert Execute(es, w, Some([a]), Commit, 0) == (w.(txn := None, next := 3), Failure(DuplicateKey));
    RunTwo(es, START, 2, a, create);
  }

  /** The reply to the second statement is lost, and the replay of the first is
      refused as a duplicate: it is skipped, and the transaction lacks it. */
  lemma DuplicateReplayExample()
    ensures var es := [DELIVERED, DELIVERED, DELIVERED.(reaches := false), DELIVERED, DELIVERED, DUPLICATE, DELIVERED];
      var (c, _, ran) := Run(es, START, 3, [Insert("a"), Insert("b")], [false, false]);
      ran && c.active && c.pending == [Insert("a"), Insert("b")] && c.wire.live && c.wire.txn == Some([Insert("b")])
  {
    hide Execute, Run;
    var es := [DELIVERED, DELIVERED, DELIVERED.(reaches := false), DELIVERED, DELIVERED, DUPLICATE, DELIVERED];
    var a, b := Insert("a"), Insert("b");
    FirstInsert(es, 3, a);
    SecondInsert(es, a, b);
    assert [a] + [b] == [a, b];
    RunTwo(es, START, 3, a, b);
  }

  lemma SecondInsert(es: Events, a: Statement, b: Statement)
    requires IsDml(a) && IsDml(b) && |es| == 7 && es[2] == DELIVERED.(reaches := false)
    requires es[3] == es[4] == es[6] == DELIVERED && es[5] == DUPLICATE
    ensures var (w, o) := Execute(es, Wire(true, Some([a]), [], [], [], 2, {}), Some([a]), b, 0);
      o.Success? && w.live && w.txn == Some([b])
  {
    hide Execute, Reopen;
    var w1 := Wire(false, None, [], [], [], 3, {});
    ReopenFate(es, w1, Some([a]));
    var w2 := Reopen(es, w1, Some([a])).0;
    assert Repeats(es, 5) && Taken(es, 5, [a]) == [];
    assert [] + [b] == [b];
    ExecuteUnfolds(es, Wire(true, Some([a]), [], [], [], 2, {}), Some([a]), b, 0);
    ExecuteUnfolds(es, w2, Some([a]), b, 1);
  }

  /** The server commits a batch but its reply is lost: the client replays the
      batch and commits it again, and counts it once. */
  lemma RepeatedCommitExample()
    ensures var es := [DELIVERED, DELIVERED, DELIVERED.(replies := false), DELIVERED, DELIVERED, DELIVERED, DELIVERED];
      var (c, _, ran) := Run(es, START, 1, [Insert("a")], [false]);
      ran && Clean(es, c.wire) && c.wire.commits == [[Insert("a")], [Insert("a")]] && c.committedBatches == 1
  {
    hide Execute, Run, Clean;
    var es := [DELIVERED, DELIVERED, DELIVERED.(replies := false), DELIVERED, DELIVERED, DELIVERED, DELIVERED];
    FirstInsert(es, 1, Insert("a"));
    CommitAgain(es, Insert("a"));
    RunOne(es, START, 1, Insert("a"));
  }

  lemma CommitAgain(es: Events, a: Statement)
    requires IsDml(a) && |es| == 7 && es[2] == DELIVERED.(replies := false)
    requires es[3] == es[4] == es[5] == es[6] == DELIVERED
    ensures var (w, o) := Execute(es, Wire(true, Some([a]), [], [], [], 2, {}), Some([a]), Commit, 0);
      o.Success? && w.commits == [[a], [a]] && Clean(es, w)
  {
    hide Execute, Reopen, Clean, RejectsOne;
    var w := Wire(true, Some([a]), [], [], [], 2, {});
    var w1 := Wire(false, None, [[a]], [], [], 3, {});
    assert Request(es, w, true, Commit) == (w1, Lost(true)) by { assert [] + [[a]] == [[a]]; }
    ReopenFate(es, w1, Some([a]));
    var w2 := Reopen(es, w1, Some([a])).0;
    assert Repeats(es, 5) && Taken(es, 5, [a]) == [a];
    ExecuteUnfolds(es, w, Some([a]), Commit, 0);
    ExecuteUnfolds(es, w2, Some([a]), Commit, 1);
    NothingRejected(es, 4, 2);
    EmptyClean(es, w1);
    RequestFate(es, w2, true, Commit);
    SameClean(es, w2, Request(es, w2, true, Commit).0);
  }

  lemma EmptyClean(es: Events, w: Wire)
    requires w.replays == {}
    ensures Clean(es, w)
  {
  }
}
