/** One import request over a connection that can fail at any time: what the
    server does with it, and how the client retries it on a new connection after
    replaying the open batch there. Everything is a function of the events that
    the network and the server produce, one per request or reconnection. */
module ImportWire {
  import opened Prelude

  datatype Error = DuplicateKey | NotFound | OtherError

  /** Batchable DML, DROP TABLE, or any other SQL. */
  datatype Category = Dml | DropTable | OtherSql

  datatype Statement = Begin | Commit | Rollback | Sql(text: string, category: Category)

  type Batch = seq<Statement>

  datatype Verdict = Accept | Reject(error: Error)

  /** What the network and the server do to one request or reconnection. */
  datatype Event = Event(connects: bool, reaches: bool, verdict: Verdict, replies: bool, retryable: bool)

  type Events = seq<Event>

  datatype Reply = Done | Refused(error: Error) | Lost(retryable: bool)

  /** `Broken` is an error of transport or replay, which no caller skips. */
  datatype Outcome = Success | Failure(error: Error) | Broken

  const RETRY_LIMIT: nat := 3

  /** After the last event nothing connects any more. */
  const DEAD := Event(false, false, Reject(OtherError), false, false)

  predicate IsDml(s: Statement) { s.Sql? && s.category.Dml? }

  predicate AllDml(b: Batch) { forall i :: 0 <= i < |b| ==> IsDml(b[i]) }

  function At(es: Events, i: nat): (e: Event) { if i < |es| then es[i] else DEAD }

  // ----- the server ---------------------------------------------------------------------

  /** A session's answer to a statement, and its open transaction afterwards. */
  function Serve(txn: Option<Batch>, s: Statement, v: Verdict): (r: (Option<Batch>, Reply)) {
    match s
    case Begin =>
      if txn.Some? then (txn, Refused(OtherError))
      else if v.Reject? then (None, Refused(v.error)) else (Some([]), Done)
    case Commit =>
      if txn.None? then (None, Refused(OtherError))
      else if v.Reject? then (None, Refused(v.error)) else (None, Done)
    case Rollback =>
      if txn.None? then (None, Refused(OtherError)) else (None, Done)
    case Sql(_, _) =>
      if v.Reject? then (txn, Refused(v.error))
      else (if txn.Some? then Some(txn.value + [s]) else None, Done)
  }

  /** The connection, the server behind it, and the number of events used up. */
  datatype Wire = Wire(
    live: bool,
    txn: Option<Batch>,       // the live connection's open transaction
    commits: seq<Batch>,      // transactions committed while a batch is open
    ownCommits: seq<Batch>,   // transactions the dump itself committed
    immediate: Batch,         // statements executed outside any transaction
    next: nat,
    replays: set<nat>         // the events that requests of a replay have taken
  )

  function Dropped(w: Wire): (r: Wire) { w.(live := false, txn := None) }

  /** The transaction a request meets: a new connection has none. */
  function Met(w: Wire): (t: Option<Batch>) { if w.live then w.txn else None }

  /** The server's records after it has carried out a statement. */
  function Recorded(w: Wire, met: Option<Batch>, batched: bool, s: Statement): (r: Wire) {
    match s
    case Begin => w
    case Rollback => w
    case Commit =>
      if met.None? then w
      else if batched then w.(commits := w.commits + [met.value])
      else w.(ownCommits := w.ownCommits + [met.value])
    case Sql(_, _) => if met.None? then w.(immediate := w.immediate + [s]) else w
  }

  /** One request. A missing connection is opened first; any transport failure
      drops the connection, and the server's transaction with it. The server may
      carry the statement out and the reply still be lost. */
  function Request(es: Events, w: Wire, batched: bool, s: Statement): (r: (Wire, Reply)) {
    var e := At(es, w.next);
    var w1 := w.(next := w.next + 1);
    if (!w.live && !e.connects) || !e.reaches then (Dropped(w1), Lost(e.retryable))
    else
      var answer := Serve(Met(w), s, e.verdict);
      var w2 := if answer.1.Done? then Recorded(w1, Met(w), batched, s) else w1;
      if e.replies then (w2.(live := true, txn := answer.0), answer.1)
      else (Dropped(w2), Lost(e.retryable))
  }

  // ----- recovery -----------------------------------------------------------------------

  /** Disconnect, then connect again. */
  function Recovered(es: Events, w: Wire): (r: Wire) {
    w.(live := At(es, w.next).connects, txn := None, next := w.next + 1)
  }

  function ReplayOne(es: Events, w: Wire, s: Statement): (r: (Wire, Reply)) {
    Request(es, w.(replays := w.replays + {w.next}), true, s)
  }

  /** The buffered statements again; duplicates count as already applied. */
  function ReplayAll(es: Events, w: Wire, b: Batch): (r: (Wire, bool))
    ensures w.replays <= r.0.replays && |w.commits| <= |r.0.commits|
    decreases |b|
  {
    if b == [] then (w, true)
    else
      var (w1, reply) := ReplayOne(es, w, b[0]);
      if reply.Done? || reply == Refused(DuplicateKey) then ReplayAll(es, w1, b[1..]) else (w1, false)
  }

  /** The open batch, if any, again on a new connection: `begin` and its statements. */
  function Replay(es: Events, w: Wire, open: Option<Batch>): (r: (Wire, bool))
    ensures w.replays <= r.0.replays && |w.commits| <= |r.0.commits|
  {
    if open.None? then (w, true)
    else
      var (w1, reply) := ReplayOne(es, w, Begin);
      if reply.Done? then ReplayAll(es, w1, open.value) else (w1, false)
  }

  function Reopen(es: Events, w: Wire, open: Option<Batch>): (r: (Wire, bool))
    ensures w.replays <= r.0.replays && |w.commits| <= |r.0.commits|
  {
    var w1 := Recovered(es, w);
    if w1.live then Replay(es, w1, open) else (w1, false)
  }

  function OutcomeOf(r: Reply): (o: Outcome) {
    match r
    case Done => Success
    case Refused(error) => Failure(error)
    case Lost(_) => Broken
  }

  /** A statement with its retries, each on a new connection with the batch replayed. */
  function Execute(es: Events, w: Wire, open: Option<Batch>, s: Statement, attempt: nat): (r: (Wire, Outcome))
    requires attempt <= RETRY_LIMIT
    ensures w.replays <= r.0.replays && |w.commits| <= |r.0.commits|
    decreases RETRY_LIMIT - attempt
  {
    var (w1, reply) := Request(es, w, open.Some?, s);
    if !reply.Lost? then (w1, OutcomeOf(reply))
    else if !reply.retryable || attempt >= RETRY_LIMIT then (w1, Broken)
    else
      var (w2, ok) := Reopen(es, w1, open);
      if ok then Execute(es, w2, open, s, attempt + 1) else (w2, Broken)
  }

  // ----- the same, read off the events ----------------------------------------------------

  /** A request that takes event `i` gets its answer. */
  predicate Hears(es: Events, i: nat, live: bool) {
    var e := At(es, i);
    (live || e.connects) && e.reaches && e.replies
  }

  predicate Accepts(es: Events, i: nat) { At(es, i).verdict.Accept? }

  /** A replayed statement that takes event `i` does not end the replay. */
  predicate Repeats(es: Events, i: nat) {
    Hears(es, i, true) && (Accepts(es, i) || At(es, i).verdict.error.DuplicateKey?)
  }

  /** A replayed request that takes event `i` is rejected. */
  predicate Rejects(es: Events, i: nat) { Hears(es, i, true) && !Accepts(es, i) }

  /** The events from `from` on let a replay of `n` statements through: `begin` is
      accepted, and each statement is accepted or refused as a duplicate. */
  ghost predicate LetThrough(es: Events, from: nat, n: nat) {
    Hears(es, from, true) && Accepts(es, from) && forall i :: from < i <= from + n ==> Repeats(es, i)
  }

  /** Of `n` replayed requests from event `from` on, one is rejected before any is lost. */
  predicate RejectsOne(es: Events, from: nat, n: nat)
    decreases n
  {
    n > 0 && Hears(es, from, true) && (Accepts(es, from) ==> RejectsOne(es, from + 1, n - 1))
  }

  /** The statements of `b` that the server accepts from event `from` on. */
  function Taken(es: Events, from: nat, b: Batch): (r: Batch)
    ensures |r| <= |b|
    decreases |b|
  {
    if b == [] then []
    else (if Accepts(es, from) then [b[0]] else []) + Taken(es, from + 1, b[1..])
  }

  /** A request that takes event `i` is lost, and is sent again after a recovery. */
  ghost predicate Retries(es: Events, i: nat, live: bool, open: Option<Batch>, attempt: nat) {
    && !Hears(es, i, live) && At(es, i).retryable && attempt < RETRY_LIMIT
    && At(es, i + 1).connects && (open.Some? ==> LetThrough(es, i + 2, |open.value|))
  }

  /** The event of the next attempt. */
  function Retry(i: nat, open: Option<Batch>): (j: nat) {
    if open.Some? then i + 3 + |open.value| else i + 2
  }

  /** The event that decides a statement first sent at event `i`: that of its last
      attempt, and whether the connection was live before it. */
  ghost function LastTry(es: Events, i: nat, live: bool, open: Option<Batch>, attempt: nat): (r: (nat, bool))
    requires attempt <= RETRY_LIMIT
    ensures r.0 >= i && (r.0 == i ==> r.1 == live) && (r.0 > i ==> r.1 && r.0 >= Retry(i, open))
    decreases RETRY_LIMIT - attempt
  {
    if Retries(es, i, live, open, attempt) then LastTry(es, Retry(i, open), true, open, attempt + 1) else (i, live)
  }

  /** The transaction that the last attempt meets. */
  function MetAt(es: Events, w: Wire, open: Option<Batch>, j: nat): (t: Option<Batch>)
    requires j == w.next || j >= Retry(w.next, open)
  {
    if j == w.next then Met(w)
    else if open.None? then None
    else Some(Taken(es, j - |open.value|, open.value))
  }

  /** A statement first sent at event `i` is finally answered with the verdict `v`. */
  ghost predicate Decided(es: Events, i: nat, live: bool, open: Option<Batch>, v: Verdict) {
    var (j, l) := LastTry(es, i, live, open, 0);
    Hears(es, j, l) && At(es, j).verdict == v
  }

  /** Some replay on the way to the answer has a request rejected. */
  ghost predicate Taints(es: Events, i: nat, live: bool, open: Option<Batch>, attempt: nat)
    decreases RETRY_LIMIT - attempt
  {
    && open.Some? && !Hears(es, i, live) && At(es, i).retryable && attempt < RETRY_LIMIT
    && At(es, i + 1).connects
    && (|| RejectsOne(es, i + 2, |open.value| + 1)
        || (LetThrough(es, i + 2, |open.value|) && Taints(es, Retry(i, open), true, open, attempt + 1)))
  }

  /** No request of a replay has been rejected. */
  ghost predicate Clean(es: Events, w: Wire) {
    forall i :: i in w.replays ==> !Rejects(es, i)
  }

  // ----- one request ----------------------------------------------------------------------

  lemma RequestFate(es: Events, w: Wire, batched: bool, s: Statement)
    ensures var (w1, reply) := Request(es, w, batched, s);
      && w1.next == w.next + 1 && w1.replays == w.replays
      && (reply.Lost? <==> !Hears(es, w.next, w.live))
      && (reply.Lost? ==> !w1.live && w1.txn == None && reply.retryable == At(es, w.next).retryable)
      && (!reply.Lost? ==> w1.live && (w1.txn, reply) == Serve(Met(w), s, At(es, w.next).verdict))
  {
    hide Serve;
    ServeAnswers(Met(w), s, At(es, w.next).verdict);
  }

  lemma ServeAnswers(txn: Option<Batch>, s: Statement, v: Verdict)
    ensures !Serve(txn, s, v).1.Lost?
    ensures s.Commit? && Serve(txn, s, v).1.Done? ==> txn.Some?
  {
  }

  lemma ServeDml(b: Batch, s: Statement, v: Verdict)
    requires IsDml(s)
    ensures Serve(Some(b), s, v) ==
      (Some(if v.Accept? then b + [s] else b), if v.Accept? then Done else Refused(v.error))
  {
  }

  /** What a request, answered or not, may leave in the server's records. */
  lemma RequestRecords(es: Events, w: Wire, batched: bool, s: Statement)
    ensures var (w1, reply) := Request(es, w, batched, s);
      && (w1.commits == w.commits || (batched && s.Commit? && Met(w).Some? && w1.commits == w.commits + [Met(w).value]))
      && (w1.immediate == w.immediate || (s.Sql? && Met(w).None? && w1.immediate == w.immediate + [s]))
      && (reply.Done? && batched && s.Commit? ==> w1.commits != w.commits)
      && (reply.Done? && s.Sql? && Met(w).None? ==> w1.immediate != w.immediate)
      && (w1.ownCommits == w.ownCommits || (!batched && s.Commit?))
  {
    hide Serve;
    ServeAnswers(Met(w), s, At(es, w.next).verdict);
  }

  // ----- replay ---------------------------------------------------------------------------

  predicate SameRecords(w: Wire, w': Wire) {
    w'.commits == w.commits && w'.ownCommits == w.ownCommits && w'.immediate == w.immediate
  }

  /** One replayed statement in its transaction. */
  lemma ReplayOneFate(es: Events, w: Wire, s: Statement)
    requires w.live && w.txn.Some? && IsDml(s)
    ensures var (w1, reply) := ReplayOne(es, w, s);
      && SameRecords(w, w1) && w1.next == w.next + 1 && w1.replays == w.replays + {w.next}
      && (reply.Done? || reply == Refused(DuplicateKey) <==> Repeats(es, w.next))
      && (Repeats(es, w.next) ==>
           w1.live && w1.txn == Some(if Accepts(es, w.next) then w.txn.value + [s] else w.txn.value))
  {
    hide Serve;
    var w0 := w.(replays := w.replays + {w.next});
    RequestFate(es, w0, true, s);
    RequestRecords(es, w0, true, s);
    ServeDml(w.txn.value, s, At(es, w.next).verdict);
  }

  lemma CleanStep(es: Events, w: Wire, w1: Wire, i: nat)
    requires w1.replays == w.replays + {i}
    ensures Clean(es, w1) <==> Clean(es, w) && !Rejects(es, i)
  {
  }

  lemma ReplayAllUnfolds(es: Events, w: Wire, b: Batch)
    ensures ReplayAll(es, w, b) ==
      if b == [] then (w, true)
      else
        var (w1, reply) := ReplayOne(es, w, b[0]);
        if reply.Done? || reply == Refused(DuplicateKey) then ReplayAll(es, w1, b[1..]) else (w1, false)
  {
    hide ReplayOne;
  }

  lemma TakenStep(es: Events, from: nat, staged: Batch, b: Batch)
    requires b != []
    ensures staged + Taken(es, from, b) ==
      (if Accepts(es, from) then staged + [b[0]] else staged) + Taken(es, from + 1, b[1..])
    ensures staged + Taken(es, from, []) == staged
  {
    hide Accepts;
    var rest := Taken(es, from + 1, b[1..]);
    assert staged + ([b[0]] + rest) == (staged + [b[0]]) + rest;
    assert staged + ([] + rest) == staged + rest;
  }

  /** The replayed statements go through exactly when none of them is lost or
      refused for another reason; what is then staged is what was accepted. */
  lemma {:induction false} ReplayAllFate(es: Events, w: Wire, b: Batch)
    requires w.live && w.txn.Some? && AllDml(b)
    ensures var (w1, ok) := ReplayAll(es, w, b);
      && SameRecords(w, w1)
      && (ok <==> forall i :: w.next <= i < w.next + |b| ==> Repeats(es, i))
      && (ok ==> w1.live && w1.txn == Some(w.txn.value + Taken(es, w.next, b)) && w1.next == w.next + |b|)
    decreases |b|
  {
    hide ReplayOne, Repeats, Accepts, Taken;
    TakenStep(es, w.next, w.txn.value, if b == [] then [Begin] else b);
    if b != [] {
      ReplayOneFate(es, w, b[0]);
      if Repeats(es, w.next) {
        ReplayAllFate(es, ReplayOne(es, w, b[0]).0, b[1..]);
      }
    }
  }

  lemma {:induction false} ReplayAllTaint(es: Events, w: Wire, b: Batch)
    requires w.live && w.txn.Some? && AllDml(b)
    ensures Clean(es, ReplayAll(es, w, b).0) <==> Clean(es, w) && !RejectsOne(es, w.next, |b|)
    decreases |b|
  {
    hide ReplayOne, Clean, Hears, Accepts;
    if b != [] {
      var w1 := ReplayOne(es, w, b[0]).0;
      ReplayOneFate(es, w, b[0]);
      CleanStep(es, w, w1, w.next);
      if Repeats(es, w.next) { ReplayAllTaint(es, w1, b[1..]); }
    }
  }

  /** What the server takes is the whole batch exactly when it accepts every statement. */
  lemma {:induction false} TakenWhole(es: Events, from: nat, b: Batch)
    ensures Taken(es, from, b) == b <==> forall i :: from <= i < from + |b| ==> Accepts(es, i)
    decreases |b|
  {
    hide Accepts;
    if b != [] {
      TakenWhole(es, from + 1, b[1..]);
      assert b == [b[0]] + b[1..];
      ConsEquals(b[0], Taken(es, from + 1, b[1..]), b[1..]);
    }
  }

  lemma ConsEquals(s: Statement, a: Batch, b: Batch)
    ensures [s] + a == [s] + b <==> a == b
    ensures [] + a == a
  {
    assert ([s] + a)[1..] == a && ([s] + b)[1..] == b;
  }

  lemma {:induction false} NothingRejected(es: Events, from: nat, n: nat)
    requires forall i :: from <= i < from + n ==> Hears(es, i, true)
    ensures RejectsOne(es, from, n) <==> exists i :: from <= i < from + n && !Accepts(es, i)
    decreases n
  {
    hide Hears, Accepts;
    if n > 0 {
      NothingRejected(es, from + 1, n - 1);
      if !RejectsOne(es, from, n) { assert Accepts(es, from); }
    }
  }

  /** A replay on a new connection succeeds exactly when the events let it through.
      The open transaction is then what the server accepted, which is the batch
      exactly when every statement was accepted. */
  lemma ReplayFate(es: Events, w: Wire, b: Batch)
    requires w.live && w.txn == None && AllDml(b)
    ensures var (w1, ok) := Replay(es, w, Some(b));
      && SameRecords(w, w1)
      && (ok <==> LetThrough(es, w.next, |b|))
      && (ok ==> w1.live && w1.txn == Some(Taken(es, w.next + 1, b)) && w1.next == w.next + 1 + |b|)
      && (ok ==> (w1.txn == Some(b) <==> forall i :: w.next < i <= w.next + |b| ==> Accepts(es, i)))
      && (Clean(es, w1) <==> Clean(es, w) && !RejectsOne(es, w.next, |b| + 1))
  {
    hide Serve, Clean, Taken, Request, ReplayAll, Accepts, Hears;
    var w0 := w.(replays := w.replays + {w.next});
    var (w1, reply) := ReplayOne(es, w, Begin);
    RequestFate(es, w0, true, Begin);
    RequestRecords(es, w0, true, Begin);
    ServeBegin(es, w.next);
    CleanStep(es, w, w1, w.next);
    TakenWhole(es, w.next + 1, b);
    if reply.Done? {
      ReplayAllFate(es, w1, b);
      ReplayAllTaint(es, w1, b);
      assert [] + Taken(es, w1.next, b) == Taken(es, w1.next, b);
    }
  }

  lemma ServeBegin(es: Events, i: nat)
    ensures var answer := Serve(None, Begin, At(es, i).verdict);
      if Accepts(es, i) then answer == (Some([]), Done) else answer.0 == None && answer.1.Refused?
  {
  }

  /** A replay that went through with no request rejected has restored the batch. */
  lemma CleanReplay(es: Events, w: Wire, b: Batch)
    requires w.live && w.txn == None && AllDml(b) && Replay(es, w, Some(b)).1 && Clean(es, Replay(es, w, Some(b)).0)
    ensures Replay(es, w, Some(b)).0.txn == Some(b)
  {
    hide Replay, Clean, Accepts;
    ReplayFate(es, w, b);
    forall i | w.next <= i < w.next + |b| + 1 ensures Hears(es, i, true) {
      if i > w.next { assert Repeats(es, i); }
    }
    NothingRejected(es, w.next, |b| + 1);
  }

  // ----- a statement with its retries -------------------------------------------------------

  /** A new connection with the open batch replayed into it. */
  lemma ReopenFate(es: Events, w: Wire, open: Option<Batch>)
    requires open.Some? ==> AllDml(open.value)
    ensures var (w1, ok) := Reopen(es, w, open);
      && SameRecords(w, w1)
      && (ok <==> At(es, w.next).connects && (open.Some? ==> LetThrough(es, w.next + 1, |open.value|)))
      && (ok ==> w1.live && w1.next == (if open.Some? then w.next + 2 + |open.value| else w.next + 1))
      && (ok ==> w1.txn == if open.Some? then Some(Taken(es, w.next + 2, open.value)) else None)
      && (ok && open.Some? && Clean(es, w1) ==> w1.txn == open)
      && (Clean(es, w1) <==>
           Clean(es, w) && !(At(es, w.next).connects && open.Some? && RejectsOne(es, w.next + 1, |open.value| + 1)))
  {
    hide Clean, RejectsOne, Taken, LetThrough;
    var w1 := Recovered(es, w);
    SameClean(es, w, w1);
    if w1.live && open.Some? {
      ReplayFate(es, w1, open.value);
      if Replay(es, w1, open).1 && Clean(es, Replay(es, w1, open).0) { CleanReplay(es, w1, open.value); }
    }
  }

  lemma SameClean(es: Events, w: Wire, w1: Wire)
    requires w1.replays == w.replays
    ensures Clean(es, w1) <==> Clean(es, w)
  {
  }

  lemma ExecuteUnfolds(es: Events, w: Wire, open: Option<Batch>, s: Statement, attempt: nat)
    requires attempt <= RETRY_LIMIT
    ensures var (w1, reply) := Request(es, w, open.Some?, s);
      var (w2, ok) := Reopen(es, w1, open);
      var r := Execute(es, w, open, s, attempt);
      if !reply.Lost? then r == (w1, OutcomeOf(reply))
      else if !reply.retryable || attempt >= RETRY_LIMIT then r == (w1, Broken)
      else if ok then r == Execute(es, w2, open, s, attempt + 1)
      else r == (w2, Broken)
  {
    hide Request, Reopen;
  }

  lemma LastTryUnfolds(es: Events, i: nat, live: bool, open: Option<Batch>, attempt: nat)
    requires attempt <= RETRY_LIMIT
    ensures LastTry(es, i, live, open, attempt) ==
      if Retries(es, i, live, open, attempt) then LastTry(es, Retry(i, open), true, open, attempt + 1) else (i, live)
  {
    hide Retries;
  }

  /** The event of the last attempt decides a statement: it is broken exactly when
      that attempt is lost, and otherwise answered as the server answers it in the
      transaction it meets there. */
  lemma {:induction false} ExecuteFate(es: Events, w: Wire, open: Option<Batch>, s: Statement, attempt: nat)
    requires attempt <= RETRY_LIMIT && (open.Some? ==> AllDml(open.value))
    ensures var (j, l) := LastTry(es, w.next, w.live, open, attempt);
      var (w1, o) := Execute(es, w, open, s, attempt);
      && (o.Broken? <==> !Hears(es, j, l))
      && (!o.Broken? ==>
           var answer := Serve(MetAt(es, w, open, j), s, At(es, j).verdict);
           w1.live && w1.next == j + 1 && w1.txn == answer.0 && o == OutcomeOf(answer.1))
    decreases RETRY_LIMIT - attempt
  {
    hide Serve, Clean, Taken, LetThrough, Request, Reopen, Hears, MetAt, AllDml, Execute, LastTry;
    ExecuteUnfolds(es, w, open, s, attempt);
    LastTryUnfolds(es, w.next, w.live, open, attempt);
    var (w1, reply) := Request(es, w, open.Some?, s);
    RequestFate(es, w, open.Some?, s);
    ServeAnswers(Met(w), s, At(es, w.next).verdict);
    MetFirst(es, w, open);
    if reply.Lost? {
      ReopenFate(es, w1, open);
      var w2 := Reopen(es, w1, open).0;
      if Retries(es, w.next, w.live, open, attempt) {
        ExecuteFate(es, w2, open, s, attempt + 1);
        MetAgain(es, w, w2, open, LastTry(es, w2.next, true, open, attempt + 1).0);
      }
    }
  }

  lemma MetFirst(es: Events, w: Wire, open: Option<Batch>)
    ensures MetAt(es, w, open, w.next) == Met(w)
  {
  }

  lemma MetAgain(es: Events, w: Wire, w2: Wire, open: Option<Batch>, j: nat)
    requires w2.live && w2.next == Retry(w.next, open) && (j == w2.next || j >= Retry(w2.next, open))
    requires w2.txn == if open.Some? then Some(Taken(es, w.next + 3, open.value)) else None
    ensures MetAt(es, w, open, j) == MetAt(es, w2, open, j)
  {
    hide Taken;
  }

  /** A session is tainted by a statement exactly when a replay on the way had a
      request rejected. */
  lemma {:induction false} ExecuteTaint(es: Events, w: Wire, open: Option<Batch>, s: Statement, attempt: nat)
    requires attempt <= RETRY_LIMIT && (open.Some? ==> AllDml(open.value))
    ensures Clean(es, Execute(es, w, open, s, attempt).0) <==>
            Clean(es, w) && !Taints(es, w.next, w.live, open, attempt)
    decreases RETRY_LIMIT - attempt
  {
    hide Serve, Clean, Taken, LetThrough, Request, Reopen, Hears, RejectsOne, Execute;
    ExecuteUnfolds(es, w, open, s, attempt);
    var (w1, reply) := Request(es, w, open.Some?, s);
    RequestFate(es, w, open.Some?, s);
    SameClean(es, w, w1);
    if reply.Lost? {
      ReopenFate(es, w1, open);
      var (w2, ok) := Reopen(es, w1, open);
      if reply.retryable && attempt < RETRY_LIMIT && ok {
        ExecuteTaint(es, w2, open, s, attempt + 1);
      }
    }
  }

  /** A later state of the wire: nothing recorded is lost, and the replays since
      have taken events in between. */
  ghost predicate Follows(w: Wire, w1: Wire) {
    && w.next <= w1.next && w.replays <= w1.replays
    && forall i :: i in w1.replays ==> i in w.replays || w.next <= i < w1.next
  }

  lemma {:induction false} ReplayAllFollows(es: Events, w: Wire, b: Batch)
    ensures Follows(w, ReplayAll(es, w, b).0)
    decreases |b|
  {
    if b != [] {
      var w1 := ReplayOne(es, w, b[0]).0;
      RequestFate(es, w.(replays := w.replays + {w.next}), true, b[0]);
      ReplayAllFollows(es, w1, b[1..]);
    }
  }

  lemma ReopenFollows(es: Events, w: Wire, open: Option<Batch>)
    ensures Follows(w, Reopen(es, w, open).0)
  {
    hide Request, ReplayAll;
    var w1 := Recovered(es, w);
    if w1.live && open.Some? {
      var w2 := ReplayOne(es, w1, Begin).0;
      RequestFate(es, w1.(replays := w1.replays + {w1.next}), true, Begin);
      ReplayAllFollows(es, w2, open.value);
    }
  }

  lemma {:induction false} ExecuteFollows(es: Events, w: Wire, open: Option<Batch>, s: Statement, attempt: nat)
    requires attempt <= RETRY_LIMIT
    ensures Follows(w, Execute(es, w, open, s, attempt).0)
    decreases RETRY_LIMIT - attempt
  {
    hide Request, Reopen, Execute;
    ExecuteUnfolds(es, w, open, s, attempt);
    var (w1, reply) := Request(es, w, open.Some?, s);
    RequestFate(es, w, open.Some?, s);
    if reply.Lost? && reply.retryable && attempt < RETRY_LIMIT {
      ReopenFollows(es, w1, open);
      var (w2, ok) := Reopen(es, w1, open);
      if ok { ExecuteFollows(es, w2, open, s, attempt + 1); }
    }
  }

  /** Only an event that rejects an answered request can taint a session. */
  lemma QuietEvents(es: Events, w: Wire, w1: Wire)
    requires Follows(w, w1) && Clean(es, w)
    requires forall i :: w.next <= i < w1.next ==> !Rejects(es, i)
    ensures Clean(es, w1)
  {
  }

  // ----- what the server has recorded ---------------------------------------------------------

  function Copies<T>(x: T, n: nat): (r: seq<T>)
    ensures |r| == n
  {
    seq(n, i => x)
  }

  lemma OneMoreCopy<T>(x: T, n: nat)
    ensures [x] + Copies(x, n) == Copies(x, n + 1)
    ensures Copies(x, 0) == [] && Copies(x, 1) == [x]
  {
  }

  /** The commits since are `n` copies of the batch. */
  ghost predicate Committed(w: Wire, w1: Wire, b: Batch) {
    |w.commits| <= |w1.commits| && w1.commits == w.commits + Copies(b, |w1.commits| - |w.commits|)
  }

  lemma CommittedTrans(w: Wire, w1: Wire, w2: Wire, b: Batch)
    requires Committed(w, w1, b) && Committed(w1, w2, b)
    ensures Committed(w, w2, b)
  {
    var k, m := |w1.commits| - |w.commits|, |w2.commits| - |w1.commits|;
    assert Copies(b, k) + Copies(b, m) == Copies(b, k + m);
    assert w2.commits == w.commits + (Copies(b, k) + Copies(b, m));
  }

  lemma RequestCommitted(es: Events, w: Wire, b: Batch, s: Statement)
    requires !s.Commit? || Met(w) == Some(b)
    ensures Committed(w, Request(es, w, true, s).0, b)
  {
    hide Request;
    RequestRecords(es, w, true, s);
    OneMoreCopy(b, 0);
    assert w.commits + [] == w.commits;
  }

  /** Unless a replay had a request rejected, a statement of an open batch, or its
      commit, leaves only whole copies of the batch among the commits, at least
      one when the commit succeeds, and runs nothing outside the transaction. */
  lemma {:induction false} ExecuteRecords(es: Events, w: Wire, b: Batch, s: Statement, attempt: nat)
    requires attempt <= RETRY_LIMIT && AllDml(b) && w.live && w.txn == Some(b)
    requires Clean(es, Execute(es, w, Some(b), s, attempt).0)
    ensures var (w1, o) := Execute(es, w, Some(b), s, attempt);
      && Committed(w, w1, b) && w1.immediate == w.immediate
      && (s.Commit? && o.Success? ==> |w1.commits| > |w.commits|)
      && (!s.Commit? ==> w1.commits == w.commits)
    decreases RETRY_LIMIT - attempt
  {
    hide Request, Reopen, Clean, AllDml, Committed, Execute;
    var open := Some(b);
    ExecuteUnfolds(es, w, open, s, attempt);
    var (w1, reply) := Request(es, w, true, s);
    RequestFate(es, w, true, s);
    RequestRecords(es, w, true, s);
    RequestCommitted(es, w, b, s);
    if reply.Lost? && reply.retryable && attempt < RETRY_LIMIT {
      ReopenFate(es, w1, open);
      var (w2, ok) := Reopen(es, w1, open);
      SameCommits(w1, w2, b);
      CommittedTrans(w, w1, w2, b);
      if ok {
        var w3 := Execute(es, w2, open, s, attempt + 1).0;
        CleanBefore(es, w2, w3);
        ExecuteRecords(es, w2, b, s, attempt + 1);
        CommittedTrans(w, w2, w3, b);
      }
    }
  }

  lemma SameCommits(w: Wire, w1: Wire, b: Batch)
    requires w1.commits == w.commits
    ensures Committed(w, w1, b)
  {
    OneMoreCopy(b, 0);
    assert w.commits + [] == w.commits;
  }

  lemma CleanBefore(es: Events, w: Wire, w1: Wire)
    requires w.replays <= w1.replays && Clean(es, w1)
    ensures Clean(es, w)
  {
  }

  /** A rollback leaves no trace in the records. */
  lemma {:induction false} RollbackRecords(es: Events, w: Wire, b: Batch, attempt: nat)
    requires attempt <= RETRY_LIMIT && AllDml(b)
    ensures SameRecords(w, Execute(es, w, Some(b), Rollback, attempt).0)
    decreases RETRY_LIMIT - attempt
  {
    hide Request, Reopen, AllDml, Execute;
    ExecuteUnfolds(es, w, Some(b), Rollback, attempt);
    var (w1, reply) := Request(es, w, true, Rollback);
    RequestRecords(es, w, true, Rollback);
    if reply.Lost? && reply.retryable && attempt < RETRY_LIMIT {
      ReopenFate(es, w1, Some(b));
      var (w2, ok) := Reopen(es, w1, Some(b));
      if ok { RollbackRecords(es, w2, b, attempt + 1); }
    }
  }

  /** The statements since run outside a transaction are copies of `s`. */
  ghost predicate RanOnly(w: Wire, w1: Wire, s: Statement) {
    && |w.immediate| <= |w1.immediate| && w1.immediate == w.immediate + Copies(s, |w1.immediate| - |w.immediate|)
    && (|w1.immediate| > |w.immediate| ==> s.Sql?)
  }

  lemma RanOnlyTrans(w: Wire, w1: Wire, w2: Wire, s: Statement)
    requires RanOnly(w, w1, s) && RanOnly(w1, w2, s)
    ensures RanOnly(w, w2, s)
  {
    var k, m := |w1.immediate| - |w.immediate|, |w2.immediate| - |w1.immediate|;
    assert Copies(s, k) + Copies(s, m) == Copies(s, k + m);
    assert w2.immediate == w.immediate + (Copies(s, k) + Copies(s, m));
  }

  lemma RequestRanOnly(es: Events, w: Wire, batched: bool, s: Statement)
    ensures RanOnly(w, Request(es, w, batched, s).0, s)
  {
    hide Request;
    RequestRecords(es, w, batched, s);
    OneMoreCopy(s, 0);
    assert w.immediate + [] == w.immediate;
  }

  /** Outside a batch a statement adds no commit of a batch, and runs at least once
      when it is acknowledged and no transaction of the dump takes it. */
  lemma {:induction false} OutsideRecords(es: Events, w: Wire, s: Statement, attempt: nat)
    requires attempt <= RETRY_LIMIT
    ensures var (w1, o) := Execute(es, w, None, s, attempt);
      && w1.commits == w.commits && RanOnly(w, w1, s)
      && (o.Success? && s.Sql? && w1.txn.None? ==> |w1.immediate| > |w.immediate|)
    decreases RETRY_LIMIT - attempt
  {
    hide Request, Reopen, RanOnly, Execute;
    ExecuteUnfolds(es, w, None, s, attempt);
    var (w1, reply) := Request(es, w, false, s);
    RequestRecords(es, w, false, s);
    RequestFate(es, w, false, s);
    RequestRanOnly(es, w, false, s);
    assert RanOnly(w, w1, s) ==> |w.immediate| <= |w1.immediate| by { RanOnlyGrows(w, w1, s); }
    if reply.Lost? && reply.retryable && attempt < RETRY_LIMIT {
      ReopenFate(es, w1, None);
      var (w2, ok) := Reopen(es, w1, None);
      SameRan(w1, w2, s);
      RanOnlyTrans(w, w1, w2, s);
      if ok {
        var w3 := Execute(es, w2, None, s, attempt + 1).0;
        OutsideRecords(es, w2, s, attempt + 1);
        RanOnlyTrans(w, w2, w3, s);
      }
    }
  }

  lemma RanOnlyGrows(w: Wire, w1: Wire, s: Statement)
    requires RanOnly(w, w1, s)
    ensures |w.immediate| <= |w1.immediate|
  {
  }

  lemma SameRan(w: Wire, w1: Wire, s: Statement)
    requires w1.immediate == w.immediate
    ensures RanOnly(w, w1, s)
  {
    OneMoreCopy(s, 0);
    assert w.immediate + [] == w.immediate;
  }

  // ----- the kinds of statement ---------------------------------------------------------------

  /** With no replayed request rejected, the last attempt meets the whole batch. */
  lemma {:induction false} LastTake(es: Events, i: nat, live: bool, b: Batch, attempt: nat)
    requires attempt <= RETRY_LIMIT && !Taints(es, i, live, Some(b), attempt)
    ensures var j := LastTry(es, i, live, Some(b), attempt).0; j > i ==> Taken(es, j - |b|, b) == b
    decreases RETRY_LIMIT - attempt
  {
    hide Hears, RejectsOne, Taken, Accepts, LastTry;
    var open := Some(b);
    LastTryUnfolds(es, i, live, open, attempt);
    if Retries(es, i, live, open, attempt) {
      LastTake(es, Retry(i, open), true, b, attempt + 1);
      AllAccepted(es, i + 2, b);
    }
  }

  lemma AllAccepted(es: Events, from: nat, b: Batch)
    requires LetThrough(es, from, |b|) && !RejectsOne(es, from, |b| + 1)
    ensures Taken(es, from + 1, b) == b
  {
    hide RejectsOne, Taken, Accepts, Hears;
    forall i | from <= i < from + |b| + 1 ensures Hears(es, i, true) {
      if i > from { assert Repeats(es, i); }
    }
    NothingRejected(es, from, |b| + 1);
    TakenWhole(es, from + 1, b);
  }

  /** Any SQL is acknowledged, or refused with an error, as its last attempt decides. */
  lemma SqlFate(es: Events, w: Wire, open: Option<Batch>, s: Statement)
    requires s.Sql? && (open.Some? ==> AllDml(open.value))
    ensures var o := Execute(es, w, open, s, 0).1;
      && (o.Success? <==> Decided(es, w.next, w.live, open, Accept))
      && forall error :: o == Failure(error) <==> Decided(es, w.next, w.live, open, Reject(error))
  {
    hide Execute, LastTry, Hears, MetAt;
    ExecuteFate(es, w, open, s, 0);
  }

  /** A statement of the batch joins the transaction, or leaves it as it is. */
  lemma DmlFate(es: Events, w: Wire, b: Batch, s: Statement)
    requires IsDml(s) && AllDml(b) && w.live && w.txn == Some(b) && Clean(es, Execute(es, w, Some(b), s, 0).0)
    ensures var (w1, o) := Execute(es, w, Some(b), s, 0);
      !o.Broken? ==> w1.live && w1.txn == Some(if o.Success? then b + [s] else b)
  {
    hide Execute, LastTry, Hears, Taints, Clean, Taken, Serve;
    ExecuteFate(es, w, Some(b), s, 0);
    ExecuteTaint(es, w, Some(b), s, 0);
    LastTake(es, w.next, w.live, b, 0);
    ServeDml(b, s, At(es, LastTry(es, w.next, w.live, Some(b), 0).0).verdict);
  }

  /** The commit of an open batch succeeds or is refused as its last attempt
      decides; either way no transaction is left. */
  lemma CommitFate(es: Events, w: Wire, b: Batch)
    requires AllDml(b) && w.live && w.txn.Some?
    ensures var (w1, o) := Execute(es, w, Some(b), Commit, 0);
      && (o.Success? <==> Decided(es, w.next, w.live, Some(b), Accept))
      && (forall error :: o == Failure(error) <==> Decided(es, w.next, w.live, Some(b), Reject(error)))
      && (!o.Broken? ==> w1.live && w1.txn == None)
  {
    hide Execute, LastTry, Hears, Taken;
    ExecuteFate(es, w, Some(b), Commit, 0);
  }

  /** A `begin` outside any batch goes through. */
  ghost predicate Begins(es: Events, w: Wire) {
    && Decided(es, w.next, w.live, None, Accept)
    && (LastTry(es, w.next, w.live, None, 0).0 == w.next ==> Met(w).None?)
  }

  lemma BeginFate(es: Events, w: Wire)
    ensures var (w1, o) := Execute(es, w, None, Begin, 0);
      && (o.Success? <==> Begins(es, w))
      && (o.Success? ==> w1.live && w1.txn == Some([]) && w1.next == LastTry(es, w.next, w.live, None, 0).0 + 1)
  {
    hide Execute, LastTry, Hears;
    ExecuteFate(es, w, None, Begin, 0);
  }
}
