/** What becomes of every statement of a dump, batchable or not: which event decides
    it, what it leaves on the server, and when the import goes on behind it. */
module ImportFates {
  import opened Prelude
  import opened ImportWire
  import opened ImportClient
  import opened ImportRuns

  // ----- attempts -------------------------------------------------------------------------

  /** A statement is sent at most four times: after three lost attempts the fourth
      decides, answered or not. */
  lemma FourAttempts(es: Events, i: nat)
    requires forall k :: 0 <= k < 3 ==>
      !Hears(es, i + 2 * k, true) && At(es, i + 2 * k).retryable && At(es, i + 2 * k + 1).connects
    ensures LastTry(es, i, true, None, 0) == (i + 6, true)
  {
    hide Hears, LastTry;
    assert !Hears(es, i + 2 * 0, true) && !Hears(es, i + 2 * 1, true) && !Hears(es, i + 2 * 2, true);
    LastTryUnfolds(es, i, true, None, 0);
    LastTryUnfolds(es, i + 2, true, None, 1);
    LastTryUnfolds(es, i + 4, true, None, 2);
    LastTryUnfolds(es, i + 6, true, None, 3);
  }

  /** Duplicate keys are skipped for every statement, a missing table only for DROP TABLE. */
  lemma GoesOnExactly(s: Statement, o: Outcome)
    ensures GoesOn(s, o) <==>
      o in {Success, Failure(DuplicateKey)} || (o == Failure(NotFound) && s.Sql? && s.category == DropTable)
  {
  }

  // ----- rollback -------------------------------------------------------------------------

  lemma {:induction false} FailedReplayAll(es: Events, w: Wire, b: Batch)
    requires w.live && w.txn.Some? && AllDml(b)
    requires !ReplayAll(es, w, b).1 && Clean(es, ReplayAll(es, w, b).0)
    ensures Met(ReplayAll(es, w, b).0) == None
    decreases |b|
  {
    hide ReplayOne, Clean;
    ReplayAllUnfolds(es, w, b);
    if b != [] {
      var (w1, reply) := ReplayOne(es, w, b[0]);
      ReplayOneFate(es, w, b[0]);
      ReplayedLost(es, w, b[0]);
      CleanStep(es, w, w1, w.next);
      if Repeats(es, w.next) { FailedReplayAll(es, w1, b[1..]); }
    }
  }

  lemma ReplayedLost(es: Events, w: Wire, s: Statement)
    ensures var (w1, reply) := ReplayOne(es, w, s);
      && (reply.Lost? ==> Met(w1) == None)
      && (reply.Lost? <==> !Hears(es, w.next, w.live))
  {
    hide Request;
    RequestFate(es, w.(replays := w.replays + {w.next}), true, s);
  }

  lemma FailedReopen(es: Events, w: Wire, b: Batch)
    requires AllDml(b) && !Reopen(es, w, Some(b)).1 && Clean(es, Reopen(es, w, Some(b)).0)
    ensures Met(Reopen(es, w, Some(b)).0) == None
  {
    hide Clean, Request, ReplayAll, Serve, AllDml;
    var w1 := Recovered(es, w);
    if w1.live {
      var (w2, reply) := ReplayOne(es, w1, Begin);
      ReplayedLost(es, w1, Begin);
      RequestFate(es, w1.(replays := w1.replays + {w1.next}), true, Begin);
      ServeBegin(es, w1.next);
      CleanStep(es, w1, w2, w1.next);
      if reply.Done? { FailedReplayAll(es, w2, b); }
    }
  }

  /** In a clean session no transaction is left behind a rollback, even one that is lost. */
  lemma {:induction false} RollbackFate(es: Events, w: Wire, b: Batch, attempt: nat)
    requires attempt <= RETRY_LIMIT && AllDml(b) && Clean(es, Execute(es, w, Some(b), Rollback, attempt).0)
    ensures Met(Execute(es, w, Some(b), Rollback, attempt).0) == None
    decreases RETRY_LIMIT - attempt
  {
    hide Request, Reopen, Execute, Clean, AllDml;
    ExecuteUnfolds(es, w, Some(b), Rollback, attempt);
    var (w1, reply) := Request(es, w, true, Rollback);
    RequestFate(es, w, true, Rollback);
    if reply.Lost? && reply.retryable && attempt < RETRY_LIMIT {
      var (w2, ok) := Reopen(es, w1, Some(b));
      if ok { RollbackFate(es, w2, b, attempt + 1); } else { FailedReopen(es, w1, b); }
    }
  }

  // ----- one statement ----------------------------------------------------------------------

  /** A batch is open afterwards exactly when one was or the `begin` goes through, and
      batching is turned off exactly when neither is so. */
  lemma OpenFate(es: Events, c: Client)
    ensures var c1 := OpenBatch(es, c);
      && c1.active == (c.active || Begins(es, c.wire))
      && c1.enabled == (c.enabled && (c.active || Begins(es, c.wire)))
      && c1 == c.(wire := c1.wire, active := c1.active, enabled := c1.enabled)
      && (c.active ==> c1 == c)
  {
    hide Execute, Begins;
    BeginFate(es, c.wire);
  }

  /** The event at which a statement that is not batchable is first sent, and whether
      the connection is live then: behind the commit of an open batch, or at once. */
  ghost function SentAt(es: Events, c: Client): (r: (nat, bool)) {
    if c.active then (LastTry(es, c.wire.next, c.wire.live, Some(c.pending), 0).0 + 1, true)
    else (c.wire.next, c.wire.live)
  }

  /** The next request behind the open batch is finally answered with `v`. */
  ghost predicate NextDecided(es: Events, c: Client, v: Verdict) {
    Decided(es, c.wire.next, c.wire.live, Some(c.pending), v)
  }

  lemma CommittedWire(es: Events, c: Client)
    requires Steady(c) && c.active
    ensures var (c1, o) := CommitBatch(es, c);
      && (o.Success? <==> NextDecided(es, c, Accept))
      && (forall error :: o == Failure(error) <==> NextDecided(es, c, Reject(error)))
      && (o.Success? ==> (c1.wire.next, c1.wire.live) == SentAt(es, c) && c1.wire.txn == None)
      && (o.Success? <==> !c1.active) && c1.enabled == c.enabled
      && c1.committedBatches == c.committedBatches + if o.Success? then 1 else 0
  {
    hide Execute, LastTry, Hears, Sound;
    SteadyDml(c);
    CommitFate(es, c.wire, c.pending);
    ExecuteFate(es, c.wire, Some(c.pending), Commit, 0);
  }

  lemma SteadyDml(c: Client)
    requires Steady(c)
    ensures AllDml(c.pending) && Counters(c)
  {
  }

  /** A statement that is not batchable: the commit of the open batch comes first, and
      its refusal is the outcome. Behind it, or without one, the statement is sent and
      its own last attempt decides the outcome. */
  lemma OtherFate(es: Events, c: Client, batchSize: nat, s: Statement, aged: bool)
    requires Steady(c) && !(c.enabled && IsDml(s))
    ensures var (c1, o) := Step(es, c, batchSize, s, aged);
      var (i, live) := SentAt(es, c);
      if c.active && !NextDecided(es, c, Accept) then
        && !o.Success? && c1.active && forall error :: o == Failure(error) <==> NextDecided(es, c, Reject(error))
      else
        var j := LastTry(es, i, live, None, 0).0;
        && !c1.active && c1.enabled == c.enabled
        && (s.Sql? ==> (o.Success? <==> Decided(es, i, live, None, Accept)))
        && (s.Sql? ==> forall error :: o == Failure(error) <==> Decided(es, i, live, None, Reject(error)))
        && (!o.Broken? ==> c1.wire.next == j + 1)
  {
    hide Execute, LastTry, Hears, Decided, NextDecided, Sound, CommitBatch, MetAt, Serve, SentAt;
    if c.active {
      var (c0, o) := CommitBatch(es, c);
      CommittedWire(es, c);
      if o.Success? { OutsideFate(es, c0.wire, s); }
    } else {
      SentAtOnce(es, c);
      OutsideFate(es, c.wire, s);
    }
  }

  lemma SentAtOnce(es: Events, c: Client)
    ensures !c.active ==> SentAt(es, c) == (c.wire.next, c.wire.live)
  {
  }

  lemma OutsideFate(es: Events, w: Wire, s: Statement)
    ensures var (w1, o) := Execute(es, w, None, s, 0);
      var j := LastTry(es, w.next, w.live, None, 0).0;
      && (s.Sql? ==> (o.Success? <==> Decided(es, w.next, w.live, None, Accept)))
      && (s.Sql? ==> forall error :: o == Failure(error) <==> Decided(es, w.next, w.live, None, Reject(error)))
      && (!o.Broken? ==> w1.next == j + 1)
      && (o.Success? && s.Sql? && (j == w.next ==> Met(w).None?) ==> w1.txn == None)
  {
    hide Execute, LastTry, Hears, Decided;
    if s.Sql? { SqlFate(es, w, None, s); }
    ExecuteFate(es, w, None, s, 0);
  }

  /** A batchable statement while batching is on, in a session that stays clean. */
  lemma BatchableFate(es: Events, c: Client, batchSize: nat, s: Statement, aged: bool)
    requires Steady(c) && c.enabled && IsDml(s)
    ensures var (c1, o) := Step(es, c, batchSize, s, aged);
      var c0 := OpenBatch(es, c);
      var due := |c0.pending| + 1 >= batchSize || aged;
      Clean(es, c1.wire) ==>
      && c1.enabled == c0.enabled
      && (!c0.active ==>
           && c1 == c0.(wire := c1.wire) && (o.Success? <==> Decided(es, c0.wire.next, c0.wire.live, None, Accept))
           && forall error :: o == Failure(error) <==> Decided(es, c0.wire.next, c0.wire.live, None, Reject(error)))
      && (c0.active && !NextDecided(es, c0, Accept) ==>
           && !o.Success? && c1.committedBatches == c0.committedBatches
           && (forall error :: o == Failure(error) <==> NextDecided(es, c0, Reject(error)))
           && (if o == Failure(DuplicateKey) then !c1.active && Met(c1.wire) == None
               else c1.active && c1.pending == c0.pending))
      && (c0.active && NextDecided(es, c0, Accept) && !due ==>
           o.Success? && c1.active && c1.pending == c0.pending + [s] && c1.committedBatches == c0.committedBatches)
      && (c0.active && NextDecided(es, c0, Accept) && due ==>
           var c2 := ExecuteDml(es, c0, s).0;
           && c2.pending == c0.pending + [s] && c1.enabled == c.enabled
           && (o.Success? <==> NextDecided(es, c2, Accept))
           && (forall error :: o == Failure(error) <==> NextDecided(es, c2, Reject(error)))
           && (o.Success? || o == Failure(DuplicateKey) <==> !c1.active)
           && (!c1.active ==> Met(c1.wire) == None)
           && c1.committedBatches == c0.committedBatches + if o.Success? then 1 else 0)
  {
    hide Execute, LastTry, Hears, Decided, Sound, Clean, OpenBatch, ExecuteDml, CommitIfDue;
    var c0 := OpenBatch(es, c);
    var (c2, o) := ExecuteDml(es, c0, s);
    DmlTaint(es, c2, batchSize, s, aged);
    OpenSound(es, c);
    OpenOrOff(es, c);
    OpenFate(es, c);
    SteadyDml(c0);
    if Clean(es, Step(es, c, batchSize, s, aged).0.wire) {
      DmlStep(es, c0, s);
      if o.Success? {
        DmlSound(es, c0, s);
        DueFate(es, c2, batchSize, aged);
      }
    }
  }

  /** The statement itself. */
  lemma DmlStep(es: Events, c: Client, s: Statement)
    requires Counters(c) && IsDml(s) && Clean(es, ExecuteDml(es, c, s).0.wire)
    ensures var (c1, o) := ExecuteDml(es, c, s);
      && c1.enabled == c.enabled && c1.committedBatches == c.committedBatches
      && (o.Success? <==> Decided(es, c.wire.next, c.wire.live, Open(c), Accept))
      && (forall error :: o == Failure(error) <==> Decided(es, c.wire.next, c.wire.live, Open(c), Reject(error)))
      && (!c.active ==> c1 == c.(wire := c1.wire))
      && (c.active && o.Success? ==>
           c1.active && c1.pending == c.pending + [s] && c1.dmlInBatch == |c.pending| + 1)
      && (c.active && o == Failure(DuplicateKey) ==> !c1.active && Met(c1.wire) == None)
      && (c.active && !o.Success? && o != Failure(DuplicateKey) ==> c1.active && c1.pending == c.pending)
  {
    hide Execute, Decided, Clean, Contents, Counted, AllDml;
    SqlFate(es, c.wire, Open(c), s);
    var (w, o) := Execute(es, c.wire, Open(c), s, 0);
    if c.active && o == Failure(DuplicateKey) { RollbackFate(es, w, c.pending, 0); }
  }

  /** The commit of a batch that is full or old. */
  lemma DueFate(es: Events, c: Client, batchSize: nat, aged: bool)
    requires Steady(c) && Clean(es, CommitIfDue(es, c, batchSize, aged).0.wire)
    ensures var (c1, o) := CommitIfDue(es, c, batchSize, aged);
      && c1.enabled == c.enabled
      && (!(c.active && (c.dmlInBatch >= batchSize || aged)) ==> (c1, o) == (c, Success))
      && (c.active && (c.dmlInBatch >= batchSize || aged) ==>
           && (o.Success? <==> NextDecided(es, c, Accept))
           && (forall error :: o == Failure(error) <==> NextDecided(es, c, Reject(error)))
           && (o.Success? || o == Failure(DuplicateKey) <==> !c1.active)
           && (!c1.active ==> Met(c1.wire) == None)
           && c1.committedBatches == c.committedBatches + if o.Success? then 1 else 0)
  {
    hide Execute, NextDecided, Clean, Sound, CommitBatch;
    if c.active && (c.dmlInBatch >= batchSize || aged) {
      var (c0, o) := CommitBatch(es, c);
      CommittedWire(es, c);
      CommitKeepsBatch(es, c);
      SteadyDml(c);
      if o == Failure(DuplicateKey) { RollbackFate(es, c0.wire, c0.pending, 0); }
    }
  }

  lemma CommitKeepsBatch(es: Events, c: Client)
    requires c.active
    ensures var (c1, o) := CommitBatch(es, c);
      !o.Success? ==> c1.active && c1.pending == c.pending && Open(c1) == Some(c1.pending)
  {
    hide Execute;
  }

  /** The end of an import succeeds exactly when no batch is open or its commit is
      accepted or answered with a duplicate key; only an accepted one is counted. */
  lemma FinalizeFate(es: Events, c: Client)
    requires Steady(c)
    ensures var (c1, ok) := Finalize(es, c);
      && (ok <==> !c.active || NextDecided(es, c, Accept) || NextDecided(es, c, Reject(DuplicateKey)))
      && c1.committedBatches == c.committedBatches + if c.active && NextDecided(es, c, Accept) then 1 else 0
  {
    hide Execute, NextDecided, Sound, CommitBatch;
    if c.active {
      CommittedWire(es, c);
    }
  }

  // ----- what runs outside a transaction --------------------------------------------------------

  /** The client when the statement itself is sent, if it is. */
  function Before(es: Events, c: Client, s: Statement): (c0: Client) {
    if c.enabled && IsDml(s) then OpenBatch(es, c)
    else if c.active then CommitBatch(es, c).0
    else c
  }

  /** The statement is acknowledged outside any transaction: no batch is open when it
      is sent, and its last attempt is accepted and meets no transaction of the dump. */
  ghost predicate RunsOutside(es: Events, c: Client, s: Statement) {
    var c0 := Before(es, c, s);
    && s.Sql? && !c0.active && Decided(es, c0.wire.next, c0.wire.live, None, Accept)
    && (LastTry(es, c0.wire.next, c0.wire.live, None, 0).0 == c0.wire.next ==> Met(c0.wire).None?)
  }

  lemma OutsideRuns(es: Events, w: Wire, s: Statement)
    ensures var (w1, o) := Execute(es, w, None, s, 0);
      && RanOnly(w, w1, s)
      && (s.Sql? && Decided(es, w.next, w.live, None, Accept)
          && (LastTry(es, w.next, w.live, None, 0).0 == w.next ==> Met(w).None?)
          ==> o.Success? && |w1.immediate| > |w.immediate|)
  {
    hide Execute, LastTry, Decided, RanOnly;
    OutsideFate(es, w, s);
    OutsideRecords(es, w, s, 0);
  }

  lemma SameRuns(w: Wire, w0: Wire, w1: Wire, s: Statement)
    requires w0.immediate == w.immediate && RanOnly(w0, w1, s)
    ensures RanOnly(w, w1, s)
  {
  }

  lemma BatchRuns(es: Events, c: Client, batchSize: nat, s: Statement, aged: bool)
    requires Steady(c) && c.active && IsDml(s)
    requires var (c1, o) := ExecuteDml(es, c, s);
      Clean(es, (if o.Success? then CommitIfDue(es, c1, batchSize, aged).0 else c1).wire)
    ensures var (c1, o) := ExecuteDml(es, c, s);
      (if o.Success? then CommitIfDue(es, c1, batchSize, aged).0 else c1).wire.immediate == c.wire.immediate
  {
    hide Execute, Clean, Sound, Expanded, Counted, Contents;
    SteadyDml(c);
    var (w, o) := Execute(es, c.wire, Open(c), s, 0);
    var c1 := ExecuteDml(es, c, s).0;
    DmlTaint(es, c1, batchSize, s, aged);
    if o == Failure(DuplicateKey) { RollbackTaint(es, c.(wire := w)); }
    ExecuteRecords(es, c.wire, c.pending, s, 0);
    if o.Success? {
      DmlSound(es, c, s);
      DueRuns(es, c1, batchSize, aged);
    } else if o == Failure(DuplicateKey) {
      RollbackRecords(es, w, c.pending, 0);
    }
  }

  lemma DueRuns(es: Events, c: Client, batchSize: nat, aged: bool)
    requires Steady(c) && Clean(es, CommitIfDue(es, c, batchSize, aged).0.wire)
    ensures CommitIfDue(es, c, batchSize, aged).0.wire.immediate == c.wire.immediate
  {
    hide Execute, Clean, Sound;
    SteadyDml(c);
    if c.active && (c.dmlInBatch >= batchSize || aged) { CommitRuns(es, c); }
  }

  lemma CommitRuns(es: Events, c: Client)
    requires Steady(c) && c.active
    ensures var (c1, o) := CommitBatch(es, c);
      && (Clean(es, c1.wire) ==> c1.wire.immediate == c.wire.immediate)
      && (o == Failure(DuplicateKey) && Clean(es, RollbackBatch(es, c1).wire) ==>
           RollbackBatch(es, c1).wire.immediate == c.wire.immediate)
  {
    hide Execute, Clean, Sound, Committed;
    SteadyDml(c);
    var (w, o) := Execute(es, c.wire, Some(c.pending), Commit, 0);
    var c1 := CommitBatch(es, c).0;
    if Clean(es, w) { ExecuteRecords(es, c.wire, c.pending, Commit, 0); }
    if o == Failure(DuplicateKey) {
      RollbackTaint(es, c1);
      RollbackRecords(es, w, c.pending, 0);
    }
  }

  /** In a clean session a statement adds to what ran outside transactions only itself,
      and at least once if it is acknowledged there. */
  lemma StepRuns(es: Events, c: Client, batchSize: nat, s: Statement, aged: bool)
    requires Steady(c) && Clean(es, Step(es, c, batchSize, s, aged).0.wire)
    ensures var (c1, o) := Step(es, c, batchSize, s, aged);
      && RanOnly(c.wire, c1.wire, s)
      && (RunsOutside(es, c, s) ==> o.Success? && |c1.wire.immediate| > |c.wire.immediate|)
  {
    hide Execute, Clean, Sound, RanOnly, Decided, LastTry, CommitBatch, OpenBatch, ExecuteDml, CommitIfDue;
    var c0 := Before(es, c, s);
    if c.enabled && IsDml(s) {
      OpenSound(es, c);
      OpenRuns(es, c);
      if c0.active {
        BatchRuns(es, c0, batchSize, s, aged);
        SameRan(c.wire, Step(es, c, batchSize, s, aged).0.wire, s);
      } else {
        AloneRuns(es, c0, batchSize, s, aged);
        SameRuns(c.wire, c0.wire, Step(es, c, batchSize, s, aged).0.wire, s);
      }
    } else if c.active {
      var o := CommitBatch(es, c).1;
      CommittedWire(es, c);
      CommitKeepsBatch(es, c);
      CommitRuns(es, c);
      if o.Success? {
        WireClean(es, c0, s);
        OutsideRuns(es, c0.wire, s);
        SameRuns(c.wire, c0.wire, Step(es, c, batchSize, s, aged).0.wire, s);
      } else {
        SameRan(c.wire, c0.wire, s);
      }
    } else {
      OutsideRuns(es, c.wire, s);
    }
  }

  lemma OpenRuns(es: Events, c: Client)
    ensures OpenBatch(es, c).wire.immediate == c.wire.immediate
  {
    hide Execute, RanOnly;
    OutsideRecords(es, c.wire, Begin, 0);
    NoneRan(c.wire, Execute(es, c.wire, None, Begin, 0).0, Begin);
  }

  /** A batchable statement with no batch behind it. */
  lemma AloneRuns(es: Events, c: Client, batchSize: nat, s: Statement, aged: bool)
    requires !c.active
    ensures var (c1, o) := ExecuteDml(es, c, s);
      var r := if o.Success? then CommitIfDue(es, c1, batchSize, aged) else (c1, o);
      && RanOnly(c.wire, r.0.wire, s)
      && (s.Sql? && Decided(es, c.wire.next, c.wire.live, None, Accept)
          && (LastTry(es, c.wire.next, c.wire.live, None, 0).0 == c.wire.next ==> Met(c.wire).None?)
          ==> r.1.Success? && |r.0.wire.immediate| > |c.wire.immediate|)
  {
    hide Execute, RanOnly, Decided, LastTry;
    OutsideRuns(es, c.wire, s);
  }

  // ----- a whole dump -------------------------------------------------------------------------------

  /** `ran` is, statement by statement and in order, copies of the statements of the
      dump that ran outside transactions, at least one of each acknowledged there. */
  ghost predicate RanInOrder(es: Events, c: Client, batchSize: nat, ss: seq<Statement>, ages: seq<bool>, ran: Batch)
    requires |ages| == |ss|
    decreases |ss|
  {
    if ss == [] then ran == []
    else
      var (c1, o) := Step(es, c, batchSize, ss[0], ages[0]);
      exists n: nat ::
        && n <= |ran| && ran[..n] == Copies(ss[0], n) && (RunsOutside(es, c, ss[0]) ==> n >= 1)
        && if GoesOn(ss[0], o) then RanInOrder(es, c1, batchSize, ss[1..], ages[1..], ran[n..]) else n == |ran|
  }

  /** Over a dump, clean and never stranded, what ran outside transactions is what
      ran before followed by the dump's own statements in order, every one that was
      acknowledged there among them. */
  lemma {:induction false} DumpRuns(es: Events, c: Client, batchSize: nat, ss: seq<Statement>, ages: seq<bool>)
    requires |ages| == |ss| && Steady(c) && NeverStrands(es, c, batchSize, ss, ages)
    requires Clean(es, Run(es, c, batchSize, ss, ages).0.wire)
    ensures var after := Run(es, c, batchSize, ss, ages).0.wire.immediate;
      c.wire.immediate <= after && RanInOrder(es, c, batchSize, ss, ages, after[|c.wire.immediate|..])
    decreases |ss|
  {
    hide Step, Sound, Strands, Clean, GoesOn, Follows, RunsOutside, Run, Copies;
    RunUnfolds(es, c, batchSize, ss, ages);
    if ss != [] {
      var (c1, o) := Step(es, c, batchSize, ss[0], ages[0]);
      var after := Run(es, c, batchSize, ss, ages).0.wire.immediate;
      if GoesOn(ss[0], o) {
        RunFollows(es, c1, batchSize, ss[1..], ages[1..]);
        FollowsClean(es, c1.wire, Run(es, c1, batchSize, ss[1..], ages[1..]).0.wire);
      }
      StepAlignment(es, c, batchSize, ss[0], ages[0]);
      StepRuns(es, c, batchSize, ss[0], ages[0]);
      var n := |c1.wire.immediate| - |c.wire.immediate|;
      if GoesOn(ss[0], o) { DumpRuns(es, c1, batchSize, ss[1..], ages[1..]); }
      RanFirst(c.wire.immediate, c1.wire.immediate, after, ss[0], n);
    }
  }

  lemma RanFirst(a: Batch, b: Batch, after: Batch, s: Statement, n: nat)
    requires b == a + Copies(s, n) && b <= after
    ensures a <= after && n <= |after[|a|..]|
    ensures after[|a|..][..n] == Copies(s, n) && after[|a|..][n..] == after[|b|..]
  {
    hide Copies;
    assert after[..|b|] == b;
    assert after[|a|..][..n] == b[|a|..];
  }

  /** The same for a whole import, whose last commit runs nothing outside a transaction. */
  lemma ImportRunsInOrder(es: Events, c: Client, batchSize: nat, ss: seq<Statement>, ages: seq<bool>)
    requires |ages| == |ss| && Steady(c) && NeverStrands(es, c, batchSize, ss, ages)
    requires Clean(es, Import(es, c, batchSize, ss, ages).0.wire)
    ensures var after := Import(es, c, batchSize, ss, ages).0.wire.immediate;
      c.wire.immediate <= after && RanInOrder(es, c, batchSize, ss, ages, after[|c.wire.immediate|..])
  {
    hide Run, Finalize, Clean, NeverStrands, RanInOrder, Steady, Follows;
    var (c1, _, ran) := Run(es, c, batchSize, ss, ages);
    if ran {
      FinalizeFollows(es, c1);
      FollowsClean(es, c1.wire, Finalize(es, c1).0.wire);
      RunSound(es, c, batchSize, ss, ages);
      FinalizeRuns(es, c1);
    }
    DumpRuns(es, c, batchSize, ss, ages);
  }

  lemma FinalizeRuns(es: Events, c: Client)
    requires Steady(c) && Clean(es, Finalize(es, c).0.wire)
    ensures Finalize(es, c).0.wire.immediate == c.wire.immediate
  {
    hide Execute, Clean, Sound;
    if c.active { CommitRuns(es, c); }
  }

  // ----- cases --------------------------------------------------------------------------------------

  /** A CREATE TABLE is sent and runs. */
  lemma CreateTableExample()
    ensures var create := Sql("create table u (a int)", OtherSql);
      var (c, os, ok) := Import([DELIVERED], START, 2, [create], [false]);
      ok && os == [Success] && c.wire.immediate == [create] && c.wire.next == 1
  {
    hide Execute, Run;
    var create := Sql("create table u (a int)", OtherSql);
    AtOnce([DELIVERED], START.wire, None, create);
    assert [] + [create] == [create];
    assert Step([DELIVERED], START, 2, create, false).1 == Success;
    RunUnfolds([DELIVERED], START, 2, [create], [false]);
    RunUnfolds([DELIVERED], Step([DELIVERED], START, 2, create, false).0, 2, [], []);
    assert [create][1..] == [] && [false][1..] == [];
  }

  /** A DROP TABLE that finds no table is skipped, any other statement that does not is not. */
  lemma MissingTableExample()
    ensures var missing := DELIVERED.(verdict := Reject(NotFound));
      && Import([missing], START, 2, [Sql("drop table u", DropTable)], [false]).2
      && !Import([missing], START, 2, [Sql("analyze table u", OtherSql)], [false]).2
  {
    hide Execute, Run;
    var missing := DELIVERED.(verdict := Reject(NotFound));
    AtOnce([missing], START.wire, None, Sql("drop table u", DropTable));
    AtOnce([missing], START.wire, None, Sql("analyze table u", OtherSql));
    RunOne([missing], START, 2, Sql("drop table u", DropTable));
    RunOne([missing], START, 2, Sql("analyze table u", OtherSql));
  }
}
