/** The transaction coordinator: staged queries per session and table locks,
    changed by one command at a time. */
module Coordinator {
  import opened Prelude

  type Session = string
  type Table = string

  datatype Query = Query(database: string, sql: string)

  /** `normalize` is the identifier normalization; `tables` gives the normalized
      tables that a query inserts into, updates or deletes from. */
  datatype Env = Env(normalize: string -> Table, tables: Query -> seq<Table>)

  /** `owner` maps a locked table to its session, `held` a session to its tables. */
  datatype State = State(
    staged: map<Session, seq<Query>>,
    owner: map<Table, Session>,
    held: map<Session, set<Table>>)

  const EMPTY := State(map[], map[], map[])

  datatype Command =
    | Begin(session: Session)
    | BeginWithLocks(session: Session, names: seq<string>)
    | IsActive(session: Session)
    | RouteQuery(session: Session, query: Query, canStage: bool)
    | Stage(session: Session, query: Query)
    | GetStaged(session: Session)
    | TakeForCommit(session: Session)
    | Restore(session: Session, queries: seq<Query>)
    | FinalizeCommit(session: Session)
    | ApplyRemote(session: Session, names: seq<string>)
    | ReleaseRemote(session: Session, names: seq<string>)
    | RollBack(session: Session)

  datatype Reply = Ok | Err | Answer(yes: bool) | Immediately | Staged | Rejected | Queries(queries: seq<Query>)

  // ----- what each command does ------------------------------------------------------

  /** The distinct non-empty normalized names, first occurrences in order. */
  function Unique(e: Env, names: seq<string>): (r: seq<Table>) {
    if names == [] then []
    else
      var init, last := Unique(e, names[..|names| - 1]), e.normalize(names[|names| - 1]);
      if last == "" || last in init then init else init + [last]
  }

  function Tables(e: Env, names: seq<string>): (r: set<Table>) {
    Elements(Unique(e, names))
  }

  function HeldBy(st: State, s: Session): (r: set<Table>) {
    if s in st.held then st.held[s] else {}
  }

  predicate LockedByOther(st: State, s: Session, t: Table) {
    t in st.owner && st.owner[t] != s
  }

  function Granted(st: State, s: Session, ts: set<Table>): (st': State) {
    st.(owner := map t | t in st.owner.Keys + ts :: if t in ts then s else st.owner[t],
        held := st.held[s := HeldBy(st, s) + ts])
  }

  function Released(st: State, s: Session): (st': State) {
    if s !in st.held then st
    else st.(owner := map t | t in st.owner && !(t in st.held[s] && st.owner[t] == s) :: st.owner[t],
             held := st.held - {s})
  }

  function ReleasedSome(st: State, s: Session, ts: set<Table>): (st': State) {
    if s !in st.held then st
    else
      var rest := st.held[s] - ts;
      st.(owner := map t | t in st.owner && !(t in ts && st.owner[t] == s) :: st.owner[t],
          held := if rest == {} then st.held - {s} else st.held[s := rest])
  }

  function Unstaged(st: State, s: Session): (st': State) {
    st.(staged := st.staged - {s})
  }

  function Step(e: Env, st: State, c: Command): (r: (State, Reply)) {
    match c
    case Begin(s) =>
      if s in st.staged then (st, Err) else (st.(staged := st.staged[s := []]), Ok)
    case BeginWithLocks(s, names) =>
      var ts := Tables(e, names);
      if s in st.staged || ts == {} || (exists t :: t in ts && LockedByOther(st, s, t)) then (st, Err)
      else (Granted(st, s, ts).(staged := st.staged[s := []]), Ok)
    case IsActive(s) => (st, Answer(s in st.staged))
    case RouteQuery(s, q, canStage) =>
      if exists t :: t in e.tables(q) && LockedByOther(st, s, t) then (st, Rejected)
      else if s !in st.staged then (st, Immediately)
      else if !canStage then (st, Rejected)
      else (st.(staged := st.staged[s := st.staged[s] + [q]]), Staged)
    case Stage(s, q) =>
      if s !in st.staged then (st, Err)
      else (st.(staged := st.staged[s := st.staged[s] + [q]]), Ok)
    case GetStaged(s) =>
      if s !in st.staged then (st, Err) else (st, Queries(st.staged[s]))
    case TakeForCommit(s) =>
      if s !in st.staged then (st, Err) else (Unstaged(st, s), Queries(st.staged[s]))
    case Restore(s, qs) =>
      if s in st.staged then (st, Err) else (st.(staged := st.staged[s := qs]), Ok)
    case FinalizeCommit(s) => (Released(Unstaged(st, s), s), Ok)
    case RollBack(s) => (Released(Unstaged(st, s), s), Answer(s in st.staged))
    case ApplyRemote(s, names) =>
      (Granted(st, s, set t | t in Tables(e, names) && !LockedByOther(st, s, t)), Ok)
    case ReleaseRemote(s, names) =>
      var ts := Tables(e, names);
      (if ts == {} then Released(st, s) else ReleasedSome(st, s, ts), Ok)
  }

  function Run(e: Env, st: State, cs: seq<Command>): (st': State) {
    if cs == [] then st else Step(e, Run(e, st, cs[..|cs| - 1]), cs[|cs| - 1]).0
  }

  // ----- locks -----------------------------------------------------------------------------

  /** The two lock maps are inverses of each other. */
  ghost predicate Inverse(st: State) {
    && (forall t :: t in st.owner ==> t in HeldBy(st, st.owner[t]))
    && (forall s, t :: s in st.held && t in st.held[s] ==> t in st.owner && st.owner[t] == s)
  }

  lemma InverseIgnoresStage(st: State, staged: map<Session, seq<Query>>)
    requires Inverse(st)
    ensures Inverse(st.(staged := staged))
  {
    assert forall s :: HeldBy(st.(staged := staged), s) == HeldBy(st, s);
  }

  lemma GrantedKeepsInverse(st: State, s: Session, ts: set<Table>)
    requires Inverse(st) && forall t :: t in ts ==> !LockedByOther(st, s, t)
    ensures Inverse(Granted(st, s, ts))
  {
  }

  lemma ReleasedKeepsInverse(st: State, s: Session)
    requires Inverse(st)
    ensures Inverse(Released(st, s))
  {
  }

  lemma ReleasedSomeKeepsInverse(st: State, s: Session, ts: set<Table>)
    requires Inverse(st)
    ensures Inverse(ReleasedSome(st, s, ts))
  {
  }

  lemma StepKeepsInverse(e: Env, st: State, c: Command)
    requires Inverse(st)
    ensures Inverse(Step(e, st, c).0)
  {
    hide Inverse, Granted, Released, ReleasedSome, Tables;
    var st' := Step(e, st, c).0;
    match c
    case BeginWithLocks(s, names) =>
      if st' != st {
        GrantedKeepsInverse(st, s, Tables(e, names));
        InverseIgnoresStage(Granted(st, s, Tables(e, names)), st'.staged);
      }
    case FinalizeCommit(s) =>
      InverseIgnoresStage(st, st.staged - {s});
      ReleasedKeepsInverse(Unstaged(st, s), s);
    case RollBack(s) =>
      InverseIgnoresStage(st, st.staged - {s});
      ReleasedKeepsInverse(Unstaged(st, s), s);
    case ApplyRemote(s, names) =>
      GrantedKeepsInverse(st, s, set t | t in Tables(e, names) && !LockedByOther(st, s, t));
    case ReleaseRemote(s, names) =>
      ReleasedKeepsInverse(st, s);
      ReleasedSomeKeepsInverse(st, s, Tables(e, names));
    case _ => InverseIgnoresStage(st, st'.staged);
  }

  lemma {:induction false} RunKeepsInverse(e: Env, cs: seq<Command>)
    ensures Inverse(Run(e, EMPTY, cs))
    decreases |cs|
  {
    hide Inverse, Step;
    if cs == [] {
      EmptyIsInverse();
    } else {
      RunKeepsInverse(e, cs[..|cs| - 1]);
      StepKeepsInverse(e, Run(e, EMPTY, cs[..|cs| - 1]), cs[|cs| - 1]);
    }
  }

  lemma EmptyIsInverse()
    ensures Inverse(EMPTY)
  {
  }

  ghost predicate Holds(st: State, s: Session, t: Table) {
    t in st.owner && st.owner[t] == s
  }

  /** The command ends the session's hold on the table. */
  predicate Frees(e: Env, c: Command, s: Session, t: Table) {
    match c
    case RollBack(s') => s' == s
    case FinalizeCommit(s') => s' == s
    case ReleaseRemote(s', names) => s' == s && (Tables(e, names) == {} || t in Tables(e, names))
    case _ => false
  }

  /** The command asks for the table on behalf of another session. */
  predicate Wants(e: Env, c: Command, s: Session, t: Table) {
    c.session != s &&
    match c
    case BeginWithLocks(_, names) => t in Tables(e, names)
    case RouteQuery(_, q, _) => t in e.tables(q)
    case _ => false
  }

  /** A held lock survives exactly the commands that do not free it, and shuts out everyone else. */
  lemma HoldStep(e: Env, st: State, c: Command, s: Session, t: Table)
    requires Inverse(st) && Holds(st, s, t)
    ensures Holds(Step(e, st, c).0, s, t) <==> !Frees(e, c, s, t)
    ensures Wants(e, c, s, t) ==> Step(e, st, c).1 == (if c.RouteQuery? then Rejected else Err)
  {
    assert t in HeldBy(st, s);
    if Wants(e, c, s, t) { assert LockedByOther(st, c.session, t); }
  }

  ghost predicate RefusedAt(e: Env, before: seq<Command>, c: Command) {
    Step(e, Run(e, EMPTY, before), c).1 == (if c.RouteQuery? then Rejected else Err)
  }

  lemma RunSnoc(e: Env, st: State, cs: seq<Command>, c: Command)
    ensures Run(e, st, cs + [c]) == Step(e, Run(e, st, cs), c).0
  {
    assert (cs + [c])[..|cs|] == cs;
  }

  /** From a lock on, through any run without a command that frees it, the lock
      stays with its session, and every query or lock request on the table from
      anyone else is refused. */
  lemma {:induction false} LockExcludes(e: Env, cs0: seq<Command>, cs: seq<Command>, s: Session, t: Table)
    requires Holds(Run(e, EMPTY, cs0), s, t)
    requires forall i :: 0 <= i < |cs| ==> !Frees(e, cs[i], s, t)
    ensures Holds(Run(e, EMPTY, cs0 + cs), s, t)
    ensures forall i :: 0 <= i < |cs| && Wants(e, cs[i], s, t) ==> RefusedAt(e, cs0 + cs[..i], cs[i])
    decreases |cs|
  {
    hide Run, Step, Holds, Frees, Wants;
    if cs == [] {
      assert cs0 + cs == cs0;
    } else {
      var n := |cs| - 1;
      var before := cs0 + cs[..n];
      LockExcludes(e, cs0, cs[..n], s, t);
      RunKeepsInverse(e, before);
      HoldStep(e, Run(e, EMPTY, before), cs[n], s, t);
      RunSnoc(e, EMPTY, before, cs[n]);
      assert before + [cs[n]] == cs0 + cs;
      assert forall i :: 0 <= i < n ==> cs[..n][i] == cs[i] && cs[..n][..i] == cs[..i];
    }
  }

  /** Rolling back passes the locks on: what only the rolled-back session held,
      another session can lock at once. */
  lemma LocksPassOn(e: Env, st: State, o: Session, s: Session, names: seq<string>)
    requires Inverse(st) && s != o && s !in st.staged && Tables(e, names) != {}
    requires forall t :: t in Tables(e, names) && t in st.owner ==> st.owner[t] == o
    ensures var st1 := Step(e, st, RollBack(o)).0;
      var (st2, reply) := Step(e, st1, BeginWithLocks(s, names));
      reply == Ok && StagedFor(st2, s) == Some([]) && forall t :: t in Tables(e, names) ==> Holds(st2, s, t)
  {
    hide Tables;
    var st1 := Step(e, st, RollBack(o)).0;
    forall t | t in Tables(e, names) ensures t !in st1.owner {
      if t in st.owner { assert t in HeldBy(st, o); }
    }
  }

  // ----- staged work -------------------------------------------------------------------------

  /** What one of a session's own replies tells about its stage. */
  function Observed(prev: Option<seq<Query>>, c: Command, reply: Reply): (r: Option<seq<Query>>) {
    match (c, reply)
    case (Begin(_), Ok) => Some([])
    case (BeginWithLocks(_, _), Ok) => Some([])
    case (RouteQuery(_, q, _), Staged) => if prev.Some? then Some(prev.value + [q]) else None
    case (Stage(_, q), Ok) => if prev.Some? then Some(prev.value + [q]) else None
    case (TakeForCommit(_), Queries(_)) => None
    case (Restore(_, qs), Ok) => Some(qs)
    case (FinalizeCommit(_), _) => None
    case (RollBack(_), _) => None
    case _ => prev
  }

  /** What an observer of the replies knows to be staged for a session. */
  function Admitted(e: Env, cs: seq<Command>, s: Session): (r: Option<seq<Query>>) {
    if cs == [] then None
    else
      var c, prev := cs[|cs| - 1], Admitted(e, cs[..|cs| - 1], s);
      if c.session != s then prev else Observed(prev, c, Step(e, Run(e, EMPTY, cs[..|cs| - 1]), c).1)
  }

  lemma ObservedStep(e: Env, st: State, c: Command)
    ensures StagedFor(Step(e, st, c).0, c.session) == Observed(StagedFor(st, c.session), c, Step(e, st, c).1)
  {
    hide Tables, LockedByOther;
  }

  function StagedFor(st: State, s: Session): (r: Option<seq<Query>>) {
    if s in st.staged then Some(st.staged[s]) else None
  }

  /** What is staged, and so what `TakeForCommit` returns, is exactly what was
      admitted for the session since it began or was restored, in order. */
  lemma {:induction false} StagedIsAdmitted(e: Env, cs: seq<Command>, s: Session)
    ensures StagedFor(Run(e, EMPTY, cs), s) == Admitted(e, cs, s)
    ensures Step(e, Run(e, EMPTY, cs), TakeForCommit(s)).1
         == (if Admitted(e, cs, s).Some? then Queries(Admitted(e, cs, s).value) else Err)
    decreases |cs|
  {
    hide Observed, LockedByOther;
    if cs != [] {
      StagedIsAdmitted(e, cs[..|cs| - 1], s);
      ObservedStep(e, Run(e, EMPTY, cs[..|cs| - 1]), cs[|cs| - 1]);
      if cs[|cs| - 1].session != s { OthersKeepStage(e, Run(e, EMPTY, cs[..|cs| - 1]), cs[|cs| - 1], s); }
    }
  }

  /** Queries that entered a session's stage, left it for a commit, and were dropped. */
  datatype Flow = Flow(entered: multiset<Query>, taken: multiset<Query>, dropped: multiset<Query>)

  function Flowed(f: Flow, c: Command, reply: Reply, content: seq<Query>): (f': Flow) {
    match (c, reply)
    case (RouteQuery(_, q, _), Staged) => f.(entered := f.entered + multiset([q]))
    case (Stage(_, q), Ok) => f.(entered := f.entered + multiset([q]))
    case (Restore(_, qs), Ok) => f.(entered := f.entered + multiset(qs))
    case (TakeForCommit(_), Queries(qs)) => f.(taken := f.taken + multiset(qs))
    case (FinalizeCommit(_), _) => f.(dropped := f.dropped + multiset(content))
    case (RollBack(_), _) => f.(dropped := f.dropped + multiset(content))
    case _ => f
  }

  function FlowOf(e: Env, cs: seq<Command>, s: Session): (f: Flow) {
    if cs == [] then Flow(multiset{}, multiset{}, multiset{})
    else
      var c, f, st := cs[|cs| - 1], FlowOf(e, cs[..|cs| - 1], s), Run(e, EMPTY, cs[..|cs| - 1]);
      if c.session != s then f else Flowed(f, c, Step(e, st, c).1, Content(st, s))
  }

  function Content(st: State, s: Session): (r: seq<Query>) {
    OrNone(StagedFor(st, s))
  }

  ghost predicate Balanced(f: Flow, content: seq<Query>) {
    forall q :: f.entered[q] == f.taken[q] + f.dropped[q] + multiset(content)[q]
  }

  function OrNone(qs: Option<seq<Query>>): (r: seq<Query>) {
    if qs.Some? then qs.value else []
  }

  /** Replies that the coordinator can give to a session with this stage. */
  predicate Possible(stage: Option<seq<Query>>, c: Command, reply: Reply) {
    && (c.TakeForCommit? && reply.Queries? ==> stage == Some(reply.queries))
    && ((c.Begin? || c.BeginWithLocks? || c.Restore?) && reply.Ok? ==> stage.None?)
    && ((c.RouteQuery? && reply.Staged?) || (c.Stage? && reply.Ok?) ==> stage.Some?)
  }

  lemma StepIsPossible(e: Env, st: State, c: Command)
    ensures Possible(StagedFor(st, c.session), c, Step(e, st, c).1)
  {
    hide Tables, LockedByOther, Granted, Released, ReleasedSome;
  }

  lemma FlowStep(f: Flow, stage: Option<seq<Query>>, c: Command, reply: Reply)
    requires Balanced(f, OrNone(stage)) && Possible(stage, c, reply)
    ensures Balanced(Flowed(f, c, reply, OrNone(stage)), OrNone(Observed(stage, c, reply)))
  {
    hide Balanced, Flowed, Observed;
    match c
    case RouteQuery(_, q, _) => FlowIn(f, stage, c, reply, q);
    case Stage(_, q) => FlowIn(f, stage, c, reply, q);
    case Restore(_, qs) => FlowBack(f, stage, c, reply);
    case TakeForCommit(_) => FlowOut(f, stage, c, reply);
    case FinalizeCommit(_) => FlowOut(f, stage, c, reply);
    case RollBack(_) => FlowOut(f, stage, c, reply);
    case _ => FlowPast(f, stage, c, reply);
  }

  lemma FlowIn(f: Flow, stage: Option<seq<Query>>, c: Command, reply: Reply, q: Query)
    requires (c.RouteQuery? && c.query == q) || (c.Stage? && c.query == q)
    requires Balanced(f, OrNone(stage)) && Possible(stage, c, reply)
    ensures Balanced(Flowed(f, c, reply, OrNone(stage)), OrNone(Observed(stage, c, reply)))
  {
    hide Balanced;
    Enters(f, OrNone(stage), [q]);
  }

  lemma FlowBack(f: Flow, stage: Option<seq<Query>>, c: Command, reply: Reply)
    requires c.Restore? && Balanced(f, OrNone(stage)) && Possible(stage, c, reply)
    ensures Balanced(Flowed(f, c, reply, OrNone(stage)), OrNone(Observed(stage, c, reply)))
  {
    hide Balanced;
    Enters(f, OrNone(stage), c.queries);
    assert [] + c.queries == c.queries;
  }

  lemma FlowOut(f: Flow, stage: Option<seq<Query>>, c: Command, reply: Reply)
    requires c.TakeForCommit? || c.FinalizeCommit? || c.RollBack?
    requires Balanced(f, OrNone(stage)) && Possible(stage, c, reply)
    ensures Balanced(Flowed(f, c, reply, OrNone(stage)), OrNone(Observed(stage, c, reply)))
  {
    hide Balanced;
    Leaves(f, OrNone(stage));
  }

  lemma FlowPast(f: Flow, stage: Option<seq<Query>>, c: Command, reply: Reply)
    requires c.Begin? || c.BeginWithLocks? || c.ApplyRemote? || c.ReleaseRemote? || c.IsActive? || c.GetStaged?
    requires Balanced(f, OrNone(stage)) && Possible(stage, c, reply)
    ensures Balanced(Flowed(f, c, reply, OrNone(stage)), OrNone(Observed(stage, c, reply)))
  {
    hide Balanced;
  }

  lemma Enters(f: Flow, content: seq<Query>, more: seq<Query>)
    requires Balanced(f, content)
    ensures Balanced(f.(entered := f.entered + multiset(more)), content + more)
  {
  }

  lemma Leaves(f: Flow, content: seq<Query>)
    requires Balanced(f, content)
    ensures Balanced(f.(taken := f.taken + multiset(content)), [])
    ensures Balanced(f.(dropped := f.dropped + multiset(content)), [])
  {
  }

  lemma OthersKeepStage(e: Env, st: State, c: Command, s: Session)
    requires c.session != s
    ensures StagedFor(Step(e, st, c).0, s) == StagedFor(st, s)
    ensures Content(Step(e, st, c).0, s) == Content(st, s)
  {
  }

  /** Staged work is conserved: whatever entered is still staged, was taken once, or was dropped. */
  lemma {:induction false} StagedWorkIsConserved(e: Env, cs: seq<Command>, s: Session)
    ensures Balanced(FlowOf(e, cs, s), Content(Run(e, EMPTY, cs), s))
    decreases |cs|
  {
    hide Step, StagedFor, OrNone, Observed, Flowed, Balanced, Possible;
    if cs == [] {
      NothingFlowed(s);
    } else {
      var c, st := cs[|cs| - 1], Run(e, EMPTY, cs[..|cs| - 1]);
      StagedWorkIsConserved(e, cs[..|cs| - 1], s);
      if c.session == s {
        StepIsPossible(e, st, c);
        ObservedStep(e, st, c);
        FlowStep(FlowOf(e, cs[..|cs| - 1], s), StagedFor(st, s), c, Step(e, st, c).1);
      } else {
        OthersKeepStage(e, st, c, s);
      }
    }
  }

  lemma NothingFlowed(s: Session)
    ensures Balanced(Flow(multiset{}, multiset{}, multiset{}), Content(EMPTY, s))
  {
  }

  // ----- a failed commit ------------------------------------------------------------------------

  /** Commands of other sessions, and remote locks of anyone. */
  predicate LeavesStage(c: Command, s: Session) {
    c.session != s || c.ApplyRemote? || c.ReleaseRemote?
  }

  lemma LocksIgnoreStage(st: State, s: Session, k: Session, ts: set<Table>)
    ensures Released(Unstaged(st, s), k) == Unstaged(Released(st, k), s)
    ensures ReleasedSome(Unstaged(st, s), k, ts) == Unstaged(ReleasedSome(st, k, ts), s)
    ensures Granted(Unstaged(st, s), k, ts) == Unstaged(Granted(st, k, ts), s)
    ensures forall t :: LockedByOther(Unstaged(st, s), k, t) <==> LockedByOther(st, k, t)
  {
  }

  lemma StageSwap(m: map<Session, seq<Query>>, s: Session, k: Session, qs: seq<Query>)
    requires k != s
    ensures (m - {s})[k := qs] == m[k := qs] - {s}
  {
  }

  lemma LockStepIgnoresStage(e: Env, st: State, c: Command, s: Session)
    requires LeavesStage(c, s) && (c.BeginWithLocks? || c.ApplyRemote? || c.ReleaseRemote?)
    ensures Step(e, Unstaged(st, s), c) == (Unstaged(Step(e, st, c).0, s), Step(e, st, c).1)
  {
    hide Granted, Released, ReleasedSome, Tables, LockedByOther;
    var k, ts := c.session, Tables(e, c.names);
    LocksIgnoreStage(st, s, k, ts);
    match c
    case BeginWithLocks(_, _) => StageSwap(st.staged, s, k, []);
    case ApplyRemote(_, _) =>
      var free := set t | t in ts && !LockedByOther(st, k, t);
      assert free == set t | t in ts && !LockedByOther(Unstaged(st, s), k, t);
      LocksIgnoreStage(st, s, k, free);
    case ReleaseRemote(_, _) =>
  }

  lemma StepIgnoresStage(e: Env, st: State, c: Command, s: Session)
    requires LeavesStage(c, s)
    ensures Step(e, Unstaged(st, s), c) == (Unstaged(Step(e, st, c).0, s), Step(e, st, c).1)
  {
    hide Granted, Released, ReleasedSome, Tables, LockedByOther;
    var k := c.session;
    if c.BeginWithLocks? || c.ApplyRemote? || c.ReleaseRemote? {
      LockStepIgnoresStage(e, st, c, s);
    } else {
      LocksIgnoreStage(st, s, k, {});
      UnstagedTwice(st, s, k);
      if c.Begin? { StageSwap(st.staged, s, k, []); }
      if c.Restore? { StageSwap(st.staged, s, k, c.queries); }
      if (c.RouteQuery? || c.Stage?) && k in st.staged { StageSwap(st.staged, s, k, st.staged[k] + [c.query]); }
    }
  }

  lemma UnstagedTwice(st: State, s: Session, k: Session)
    ensures Unstaged(Unstaged(st, s), k) == Unstaged(Unstaged(st, k), s)
    ensures Released(Unstaged(Unstaged(st, s), k), k) == Unstaged(Released(Unstaged(st, k), k), s)
  {
    assert st.staged - {s} - {k} == st.staged - {k} - {s};
    LocksIgnoreStage(Unstaged(st, k), s, k, {});
  }

  lemma RemoteKeepsStage(e: Env, st: State, c: Command, s: Session)
    requires LeavesStage(c, s)
    ensures StagedFor(Step(e, st, c).0, s) == StagedFor(st, s)
  {
    if c.session != s { OthersKeepStage(e, st, c, s); }
  }

  lemma {:induction false} RunIgnoresStage(e: Env, st: State, cs: seq<Command>, s: Session)
    requires forall i :: 0 <= i < |cs| ==> LeavesStage(cs[i], s)
    ensures Run(e, Unstaged(st, s), cs) == Unstaged(Run(e, st, cs), s)
    ensures StagedFor(Run(e, st, cs), s) == StagedFor(st, s)
    decreases |cs|
  {
    if cs != [] {
      var n := |cs| - 1;
      RunIgnoresStage(e, st, cs[..n], s);
      StepIgnoresStage(e, Run(e, st, cs[..n]), cs[n], s);
      RemoteKeepsStage(e, Run(e, st, cs[..n]), cs[n], s);
    }
  }

  /** Taking a batch and putting it back after a failed commit leaves the state
      as if neither had happened, whatever other sessions did in between. */
  lemma RestoreUndoesTake(e: Env, st: State, s: Session, cs: seq<Command>)
    requires s in st.staged && forall i :: 0 <= i < |cs| ==> LeavesStage(cs[i], s)
    ensures var (st1, reply) := Step(e, st, TakeForCommit(s));
      && reply == Queries(st.staged[s])
      && Step(e, Run(e, st1, cs), Restore(s, reply.queries)) == (Run(e, st, cs), Ok)
  {
    RunIgnoresStage(e, st, cs, s);
    var after := Run(e, st, cs);
    assert after.staged == (after.staged - {s})[s := st.staged[s]];
  }
}
