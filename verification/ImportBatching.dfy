/** The import session: the client's code step by step over its fields, each
    method equal to its function in ImportWire or ImportClient. */
module ImportBatching {
  import opened Prelude
  import opened ImportWire
  import opened ImportRuns
  import C = ImportClient

  class ImportSession {
    // The live connection and the server behind it.
    var live: bool
    var txn: Option<Batch>
    var commits: seq<Batch>
    var ownCommits: seq<Batch>
    var immediate: Batch
    const events: Events
    var next: nat

    // `ImportTransactionState`.
    const batchSize: nat
    var enabled: bool
    var active: bool
    var pending: Batch
    var dmlInBatch: nat
    var committedBatches: nat

    // History, for the contracts only.
    ghost var replays: set<nat>
    ghost var closed: seq<C.Closed>
    ghost var extra: nat
    ghost var accepted: Batch

    constructor (events: Events, batchSize: nat)
      ensures State() == START && C.Steady(State()) && Clean(events, Line())
      ensures this.events == events && this.batchSize == batchSize
    {
      this.events, this.batchSize := events, batchSize;
      live, txn, commits, ownCommits, immediate, next := false, None, [], [], [], 0;
      enabled, active, pending, dmlInBatch, committedBatches := true, false, [], 0, 0;
      replays, closed, extra, accepted := {}, [], 0, [];
      new;
      StartIsSteady(events);
    }

    ghost function Line(): (w: Wire) reads this {
      Wire(live, txn, commits, ownCommits, immediate, next, replays)
    }

    ghost function State(): (c: C.Client) reads this {
      C.Client(Line(), enabled, active, pending, dmlInBatch, committedBatches, closed, extra, accepted)
    }

    method NextEvent() returns (e: Event)
      modifies this`next
      ensures e == At(events, old(next)) && next == old(next) + 1
    {
      e := if next < |events| then events[next] else DEAD;
      next := next + 1;
    }

    /** One request; a lost one has dropped the connection. */
    method Request(s: Statement) returns (r: Reply)
      modifies this`live, this`txn, this`commits, this`ownCommits, this`immediate, this`next
      ensures (Line(), r) == ImportWire.Request(events, old(Line()), active, s)
    {
      hide Serve;
      var e := NextEvent();
      if !live {
        if !e.connects {
          txn := None;
          return Lost(e.retryable);
        }
        live, txn := true, None;
      }
      if !e.reaches {
        live, txn := false, None;
        return Lost(e.retryable);
      }
      r := RunOnServer(s, e.verdict);
      if !e.replies {
        live, txn := false, None;
        return Lost(e.retryable);
      }
    }

    /** What the server does with a statement that reaches it. */
    method RunOnServer(s: Statement, v: Verdict) returns (r: Reply)
      modifies this`txn, this`commits, this`ownCommits, this`immediate
      ensures (txn, r) == Serve(old(txn), s, v)
      ensures Line().(txn := None) ==
        (if r.Done? then Recorded(old(Line()), old(txn), active, s) else old(Line())).(txn := None)
    {
      hide Serve;
      ServeAnswers(txn, s, v);
      var before := txn;
      var answer := Serve(txn, s, v);
      txn, r := answer.0, answer.1;
      if r.Done? && s.Commit? {
        if active { commits := commits + [before.value]; } else { ownCommits := ownCommits + [before.value]; }
      }
      if r.Done? && s.Sql? && before.None? { immediate := immediate + [s]; }
    }

    /** `recover_import_transport`: disconnect, then connect again. */
    method Recover() returns (ok: bool)
      modifies this`live, this`txn, this`next
      ensures Line() == Recovered(events, old(Line())) && ok == live
    {
      live, txn := false, None;
      var e := NextEvent();
      live := e.connects;
      return live;
    }

    /** `replay_pending_batch`: `begin` and every buffered statement again. */
    method Replay() returns (ok: bool)
      modifies this`live, this`txn, this`commits, this`ownCommits, this`immediate, this`next, this`replays
      ensures (Line(), ok) == ImportWire.Replay(events, old(Line()), C.Open(State()))
    {
      hide ImportWire.Request, ReplayAll;
      if !active { return true; }
      replays := replays + {next};
      var r := Request(Begin);
      if !r.Done? { return false; }
      ghost var first := Line();
      assert pending[0..] == pending;
      var i := 0;
      while i < |pending|
        invariant 0 <= i <= |pending|
        invariant ReplayAll(events, Line(), pending[i..]) == ReplayAll(events, first, pending)
      {
        ReplayAllUnfolds(events, Line(), pending[i..]);
        assert pending[i..][1..] == pending[i + 1..];
        replays := replays + {next};
        var reply := Request(pending[i]);
        if reply.Lost? || (reply.Refused? && !reply.error.DuplicateKey?) { return false; }
        i := i + 1;
      }
      assert pending[i..] == [];
      ReplayAllUnfolds(events, Line(), []);
      return true;
    }

    /** A new connection with the open batch replayed into it. */
    method Reopen() returns (ok: bool)
      modifies this`live, this`txn, this`commits, this`ownCommits, this`immediate, this`next, this`replays
      ensures (Line(), ok) == ImportWire.Reopen(events, old(Line()), C.Open(State()))
    {
      hide ImportWire.Replay;
      ok := Recover();
      if ok { ok := Replay(); }
    }

    /** `execute_import_statement`: retry on a new connection after replaying the
        open batch. */
    method Execute(s: Statement) returns (o: Outcome)
      modifies this`live, this`txn, this`commits, this`ownCommits, this`immediate, this`next, this`replays
      ensures (Line(), o) == ImportWire.Execute(events, old(Line()), C.Open(State()), s, 0)
    {
      hide ImportWire.Request, ImportWire.Execute, ImportWire.Reopen;
      var attempt := 0;
      ghost var open := C.Open(State());
      ghost var whole := ImportWire.Execute(events, Line(), open, s, 0);
      while attempt <= RETRY_LIMIT
        invariant 0 <= attempt <= RETRY_LIMIT && C.Open(State()) == open
        invariant ImportWire.Execute(events, Line(), open, s, attempt) == whole
      {
        ExecuteUnfolds(events, Line(), open, s, attempt);
        var r := Request(s);
        if !r.Lost? { return if r.Done? then Success else Failure(r.error); }
        if !r.retryable || attempt >= RETRY_LIMIT { return Broken; }
        var ok := Reopen();
        if !ok { return Broken; }
        attempt := attempt + 1;
      }
      assert false;
      return Broken;
    }

    /** `reset_active_batch_state`; the books are closed with it. */
    method CloseBatch(counted: bool)
      modifies this`active, this`dmlInBatch, this`pending, this`committedBatches, this`closed, this`extra
      ensures State() == C.CloseBatch(old(State()), counted)
    {
      closed, extra := closed + [C.Closed(pending, counted, extra)], 0;
      if counted { committedBatches := committedBatches + 1; }
      active, dmlInBatch, pending := false, 0, [];
    }

    /** `rollback_active_batch`. */
    method RollbackBatch()
      modifies this
      ensures State() == C.RollbackBatch(events, old(State()))
    {
      hide ImportWire.Execute;
      var _ := Execute(Rollback);
      CloseBatch(false);
    }

    /** Commit the open batch and, when acknowledged, count it. */
    method CommitBatch() returns (o: Outcome)
      modifies this
      ensures (State(), o) == C.CommitBatch(events, old(State()))
    {
      hide ImportWire.Execute;
      o := Execute(Commit);
      extra := extra + (|commits| - |old(commits)|);
      if o.Success? { CloseBatch(true); }
    }

    /** Open a batch if none is open; a refused or lost `begin` turns batching off. */
    method OpenBatch()
      modifies this
      ensures State() == C.OpenBatch(events, old(State()))
    {
      hide ImportWire.Execute;
      if active { return; }
      var o := Execute(Begin);
      if o.Success? { active := true; } else { enabled := false; }
    }

    /** The statement itself, inside the open batch or, with batching off, on its own. */
    method ExecuteDml(s: Statement) returns (o: Outcome)
      modifies this
      ensures (State(), o) == C.ExecuteDml(events, old(State()), s)
    {
      hide ImportWire.Execute, C.RollbackBatch;
      o := Execute(s);
      if !o.Success? {
        if active && o == Failure(DuplicateKey) { RollbackBatch(); }
        return o;
      }
      if active {
        pending := pending + [s];
        dmlInBatch := dmlInBatch + 1;
        accepted := accepted + [s];
      }
    }

    /** Commit a batch that is full or old; a duplicate rolls it back. */
    method CommitIfDue(aged: bool) returns (o: Outcome)
      modifies this
      ensures (State(), o) == C.CommitIfDue(events, old(State()), batchSize, aged)
    {
      hide C.CommitBatch, C.RollbackBatch;
      if !active || (dmlInBatch < batchSize && !aged) { return Success; }
      o := CommitBatch();
      if o == Failure(DuplicateKey) { RollbackBatch(); }
    }

    /** `execute_import_with_batching`; `aged` says that the batch has reached its age limit. */
    method ExecuteWithBatching(s: Statement, aged: bool) returns (o: Outcome)
      modifies this
      ensures (State(), o) == C.Step(events, old(State()), batchSize, s, aged)
    {
      hide ImportWire.Execute, C.CommitBatch, C.OpenBatch, C.ExecuteDml, C.CommitIfDue;
      if enabled && IsDml(s) {
        OpenBatch();
        o := ExecuteDml(s);
        if !o.Success? { return o; }
        o := CommitIfDue(aged);
        return o;
      }
      if active {
        o := CommitBatch();
        if !o.Success? { return o; }
      }
      o := Execute(s);
    }

    /** `finalize_import_batching`. */
    method Finalize() returns (ok: bool)
      modifies this
      ensures (State(), ok) == C.Finalize(events, old(State()))
    {
      hide ImportWire.Execute, C.CommitBatch, C.RollbackBatch;
      if !active { return true; }
      var o := CommitBatch();
      if o.Success? { return true; }
      if o == Failure(DuplicateKey) {
        RollbackBatch();
        return true;
      }
      return false;
    }

    /** The import of a whole dump. */
    method Import(statements: seq<Statement>, ages: seq<bool>) returns (ok: bool, ghost outcomes: seq<Outcome>)
      requires |ages| == |statements|
      modifies this
      ensures (State(), outcomes, ok) == C.Import(events, old(State()), batchSize, statements, ages)
      ensures ok && old(C.Counters(State())) ==>
        && !active && |outcomes| == |statements|
        && (forall i :: 0 <= i < |statements| ==> C.GoesOn(statements[i], outcomes[i]))
        && accepted == old(accepted) + C.Joined(events, old(State()), batchSize, statements, ages)
        && accepted == C.Contents(closed)
      ensures
        && old(C.Steady(State())) && Clean(events, Line())
        && C.NeverStrands(events, old(State()), batchSize, statements, ages)
        ==> C.WholeCommits(State()) && C.NoStrayDml(State())
    {
      hide C.Step, C.Finalize, C.Joined, C.Contents, C.Counted, C.Expanded, C.NeverStrands, Clean, C.Run, AllDml;
      ghost var before := State();
      if C.Counters(before) { ImportBooks(events, before, batchSize, statements, ages); }
      if C.Steady(before) && C.NeverStrands(events, before, batchSize, statements, ages)
         && Clean(events, C.Import(events, before, batchSize, statements, ages).0.wire)
      {
        ImportIsSound(events, before, batchSize, statements, ages);
      }
      var ran;
      ran, outcomes := RunAll(statements, ages);
      if !ran { return false, outcomes; }
      ok := Finalize();
    }

    /** The statements in order, up to the first error that is not skipped. */
    method RunAll(statements: seq<Statement>, ages: seq<bool>) returns (ran: bool, ghost outcomes: seq<Outcome>)
      requires |ages| == |statements|
      modifies this
      ensures (State(), outcomes, ran) == C.Run(events, old(State()), batchSize, statements, ages)
    {
      hide C.Step, C.Run;
      ghost var whole := C.Run(events, State(), batchSize, statements, ages);
      outcomes := [];
      assert statements[0..] == statements && ages[0..] == ages && [] + whole.1 == whole.1;
      var i := 0;
      while i < |statements|
        invariant 0 <= i <= |statements|
        invariant var rest := C.Run(events, State(), batchSize, statements[i..], ages[i..]);
          whole == (rest.0, outcomes + rest.1, rest.2)
      {
        C.RunUnfolds(events, State(), batchSize, statements[i..], ages[i..]);
        assert statements[i..][1..] == statements[i + 1..] && ages[i..][1..] == ages[i + 1..];
        var o := ExecuteWithBatching(statements[i], ages[i]);
        ghost var rest := C.Run(events, State(), batchSize, statements[i + 1..], ages[i + 1..]);
        assert outcomes + ([o] + rest.1) == (outcomes + [o]) + rest.1;
        outcomes := outcomes + [o];
        if !C.GoesOn(statements[i], o) { return false, outcomes; }
        i := i + 1;
      }
      assert statements[i..] == [] && ages[i..] == [];
      C.RunUnfolds(events, State(), batchSize, [], []);
      assert outcomes + [] == outcomes;
      return true, outcomes;
    }
  }
}
