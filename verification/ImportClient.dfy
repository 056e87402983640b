/** The import client: which statements it sends, how it groups them in batches,
    and what that makes of the server's commits over a whole dump. */
module ImportClient {
  import opened Prelude
  import opened ImportWire

  /** A batch the client is done with, whether it counted it as committed, and
      how many times the server committed it. */
  datatype Closed = Closed(statements: Batch, counted: bool, copies: nat)

  datatype Client = Client(
    wire: Wire,
    enabled: bool,
    active: bool,
    pending: Batch,
    dmlInBatch: nat,
    committedBatches: nat,
    closed: seq<Closed>,   // the batches before the open one
    extra: nat,            // commits of the open one so far
    accepted: Batch        // statements acknowledged into a batch, in order
  )

  /** `should_skip_import_error`. */
  predicate Skippable(s: Statement, o: Outcome) {
    o.Failure? && (o.error.DuplicateKey? || (s.Sql? && s.category.DropTable? && o.error.NotFound?))
  }

  /** The import continues behind the statement. */
  predicate GoesOn(s: Statement, o: Outcome) { o.Success? || Skippable(s, o) }

  function Open(c: Client): (open: Option<Batch>) { if c.active then Some(c.pending) else None }

  /** `reset_active_batch_state`, with the books closed. */
  function CloseBatch(c: Client, counted: bool): (r: Client) {
    c.(closed := c.closed + [Closed(c.pending, counted, c.extra)], extra := 0,
       committedBatches := c.committedBatches + (if counted then 1 else 0),
       active := false, pending := [], dmlInBatch := 0)
  }

  function CommitBatch(es: Events, c: Client): (r: (Client, Outcome)) {
    var (w, o) := Execute(es, c.wire, Open(c), Commit, 0);
    var c1 := c.(wire := w, extra := c.extra + (|w.commits| - |c.wire.commits|));
    (if o.Success? then CloseBatch(c1, true) else c1, o)
  }

  /** `rollback_active_batch`, whose own failure is ignored. */
  function RollbackBatch(es: Events, c: Client): (r: Client) {
    CloseBatch(c.(wire := Execute(es, c.wire, Open(c), Rollback, 0).0), false)
  }

  /** Open a batch if none is open; a refused or lost `begin` turns batching off. */
  function OpenBatch(es: Events, c: Client): (r: Client) {
    if c.active then c
    else
      var (w, o) := Execute(es, c.wire, None, Begin, 0);
      if o.Success? then c.(wire := w, active := true) else c.(wire := w, enabled := false)
  }

  /** A batchable statement, inside the open batch or, with batching off, on its own. */
  function ExecuteDml(es: Events, c: Client, s: Statement): (r: (Client, Outcome)) {
    var (w, o) := Execute(es, c.wire, Open(c), s, 0);
    var c1 := c.(wire := w);
    if c.active && o.Success? then
      (c1.(pending := c.pending + [s], dmlInBatch := c.dmlInBatch + 1, accepted := c.accepted + [s]), o)
    else if c.active && o == Failure(DuplicateKey) then (RollbackBatch(es, c1), o)
    else (c1, o)
  }

  /** Commit a batch that is full or old; a duplicate rolls it back. */
  function CommitIfDue(es: Events, c: Client, batchSize: nat, aged: bool): (r: (Client, Outcome)) {
    if c.active && (c.dmlInBatch >= batchSize || aged) then
      var (c1, o) := CommitBatch(es, c);
      (if o == Failure(DuplicateKey) then RollbackBatch(es, c1) else c1, o)
    else (c, Success)
  }

  /** `execute_import_with_batching`; `aged` says that the batch has reached its age limit. */
  function Step(es: Events, c: Client, batchSize: nat, s: Statement, aged: bool): (r: (Client, Outcome)) {
    if c.enabled && IsDml(s) then
      var (c1, o) := ExecuteDml(es, OpenBatch(es, c), s);
      if o.Success? then CommitIfDue(es, c1, batchSize, aged) else (c1, o)
    else
      var (c1, o) := if c.active then CommitBatch(es, c) else (c, Success);
      if !o.Success? then (c1, o)
      else
        var (w, o1) := Execute(es, c1.wire, Open(c1), s, 0);
        (c1.(wire := w), o1)
  }

  /** The statements of a dump, up to the first error that is not skipped. */
  function Run(es: Events, c: Client, batchSize: nat, ss: seq<Statement>, ages: seq<bool>):
    (r: (Client, seq<Outcome>, bool))
    requires |ages| == |ss|
    decreases |ss|
  {
    if ss == [] then (c, [], true)
    else
      var (c1, o) := Step(es, c, batchSize, ss[0], ages[0]);
      if !GoesOn(ss[0], o) then (c1, [o], false)
      else
        var (c2, os, ok) := Run(es, c1, batchSize, ss[1..], ages[1..]);
        (c2, [o] + os, ok)
  }

  lemma RunUnfolds(es: Events, c: Client, batchSize: nat, ss: seq<Statement>, ages: seq<bool>)
    requires |ages| == |ss|
    ensures Run(es, c, batchSize, ss, ages) ==
      if ss == [] then (c, [], true)
      else
        var (c1, o) := Step(es, c, batchSize, ss[0], ages[0]);
        if !GoesOn(ss[0], o) then (c1, [o], false)
        else
          var (c2, os, ok) := Run(es, c1, batchSize, ss[1..], ages[1..]);
          (c2, [o] + os, ok)
  {
    hide Step;
  }

  /** `finalize_import_batching`. */
  function Finalize(es: Events, c: Client): (r: (Client, bool)) {
    if !c.active then (c, true)
    else
      var (c1, o) := CommitBatch(es, c);
      if o == Failure(DuplicateKey) then (RollbackBatch(es, c1), true) else (c1, o.Success?)
  }

  function Import(es: Events, c: Client, batchSize: nat, ss: seq<Statement>, ages: seq<bool>):
    (r: (Client, seq<Outcome>, bool))
    requires |ages| == |ss|
  {
    var (c1, os, ran) := Run(es, c, batchSize, ss, ages);
    if !ran then (c1, os, false)
    else
      var (c2, ok) := Finalize(es, c1);
      (c2, os, ok)
  }

  // ----- histories --------------------------------------------------------------------------

  /** The server's commits, batch after batch, each whole and in order. */
  function Expanded(closed: seq<Closed>): (r: seq<Batch>) {
    if closed == [] then []
    else
      var last := closed[|closed| - 1];
      Expanded(closed[..|closed| - 1]) + Copies(last.statements, last.copies)
  }

  function Counted(closed: seq<Closed>): (n: nat) {
    if closed == [] then 0
    else Counted(closed[..|closed| - 1]) + (if closed[|closed| - 1].counted then 1 else 0)
  }

  function Contents(closed: seq<Closed>): (r: Batch) {
    if closed == [] then [] else Contents(closed[..|closed| - 1]) + closed[|closed| - 1].statements
  }

  ghost predicate CountedOnce(closed: seq<Closed>) {
    forall i :: 0 <= i < |closed| && closed[i].counted ==> closed[i].copies >= 1
  }

  lemma Snoc(closed: seq<Closed>, c: Closed)
    ensures Expanded(closed + [c]) == Expanded(closed) + Copies(c.statements, c.copies)
    ensures Counted(closed + [c]) == Counted(closed) + (if c.counted then 1 else 0)
    ensures Contents(closed + [c]) == Contents(closed) + c.statements
    ensures CountedOnce(closed) && (c.counted ==> c.copies >= 1) ==> CountedOnce(closed + [c])
  {
    assert (closed + [c])[..|closed|] == closed;
  }

  /** Every commit of the server is the whole of some batch, in order. */
  lemma {:induction false} CommitsAreWholeBatches(closed: seq<Closed>, i: nat)
    requires i < |Expanded(closed)|
    ensures exists j :: 0 <= j < |closed| && Expanded(closed)[i] == closed[j].statements
    decreases |closed|
  {
    var n := |closed| - 1;
    if i < |Expanded(closed[..n])| {
      CommitsAreWholeBatches(closed[..n], i);
      var j :| 0 <= j < n && Expanded(closed[..n])[i] == closed[..n][j].statements;
      assert closed[..n][j] == closed[j];
    }
  }

  /** A batch counted as committed is among the server's commits. */
  lemma {:induction false} CountedBatchesAreCommitted(closed: seq<Closed>, j: nat)
    requires CountedOnce(closed) && j < |closed| && closed[j].counted
    ensures closed[j].statements in Expanded(closed)
    decreases |closed|
  {
    var n := |closed| - 1;
    if j == n {
      var copies := Copies(closed[n].statements, closed[n].copies);
      assert copies[0] == closed[n].statements;
      assert Expanded(closed)[|Expanded(closed[..n])|] == copies[0];
    } else {
      assert closed[..n][j] == closed[j];
      CountedBatchesAreCommitted(closed[..n], j);
    }
  }

  // ----- invariants ---------------------------------------------------------------------------

  /** The client's own counters. */
  ghost predicate Counters(c: Client) {
    && c.dmlInBatch == |c.pending| && AllDml(c.pending)
    && (!c.active ==> c.pending == [] && c.extra == 0)
    && c.committedBatches == Counted(c.closed)
    && c.accepted == Contents(c.closed) + c.pending
  }

  /** Every commit is a whole batch: those closed, then copies of the open one. */
  ghost predicate WholeCommits(c: Client) {
    c.wire.commits == Expanded(c.closed) + Copies(c.pending, c.extra) && CountedOnce(c.closed)
  }

  /** While batching is on, no batchable statement runs outside a transaction. */
  ghost predicate NoStrayDml(c: Client) {
    c.enabled ==> forall i :: 0 <= i < |c.wire.immediate| ==> !IsDml(c.wire.immediate[i])
  }

  ghost predicate Sound(c: Client) { Counters(c) && WholeCommits(c) && NoStrayDml(c) }

  /** The open batch is the live connection's transaction. */
  ghost predicate Aligned(c: Client) { c.active ==> c.wire.live && c.wire.txn == Some(c.pending) }

  /** No request in flight, and no error that ends the import. */
  ghost predicate Steady(c: Client) { Sound(c) && c.extra == 0 && Aligned(c) }

  // ----- what becomes of one statement, read off the events ---------------------------------------

  /** The statement is acknowledged into a batch. */
  ghost predicate Joins(es: Events, c: Client, s: Statement) {
    && c.enabled && IsDml(s)
    && if c.active then Decided(es, c.wire.next, c.wire.live, Some(c.pending), Accept)
       else
         && Begins(es, c.wire)
         && Decided(es, LastTry(es, c.wire.next, c.wire.live, None, 0).0 + 1, true, Some(c.pending), Accept)
  }

  /** The open batch's commit in front of a statement that is not batchable is
      refused with an error that the import skips for that statement. */
  ghost predicate Strands(es: Events, c: Client, s: Statement) {
    && c.active && !(c.enabled && IsDml(s))
    && exists error ::
         Skippable(s, Failure(error)) && Decided(es, c.wire.next, c.wire.live, Some(c.pending), Reject(error))
  }

  /** The statements of a dump that are acknowledged into a batch, in order. */
  ghost function Joined(es: Events, c: Client, batchSize: nat, ss: seq<Statement>, ages: seq<bool>): (r: Batch)
    requires |ages| == |ss|
    decreases |ss|
  {
    if ss == [] then []
    else
      var (c1, o) := Step(es, c, batchSize, ss[0], ages[0]);
      (if Joins(es, c, ss[0]) then [ss[0]] else [])
      + if GoesOn(ss[0], o) then Joined(es, c1, batchSize, ss[1..], ages[1..]) else []
  }

  /** No statement of a dump strands a batch. */
  ghost predicate NeverStrands(es: Events, c: Client, batchSize: nat, ss: seq<Statement>, ages: seq<bool>)
    requires |ages| == |ss|
    decreases |ss|
  {
    ss == [] ||
    (!Strands(es, c, ss[0]) &&
     var (c1, o) := Step(es, c, batchSize, ss[0], ages[0]);
     GoesOn(ss[0], o) ==> NeverStrands(es, c1, batchSize, ss[1..], ages[1..]))
  }
}
