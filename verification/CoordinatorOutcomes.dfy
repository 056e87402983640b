/** What the coordinator decides, said on the commands and on who owns which table:
    which queries are staged, which locks are gained, and what a session is told. */
module CoordinatorOutcomes {
  import opened Prelude
  import opened Coordinator

  /** No listed table belongs to another session. */
  ghost predicate Free(st: State, s: Session, ts: seq<Table>) {
    forall t :: t in ts && t in st.owner ==> st.owner[t] == s
  }

  // ----- names -----------------------------------------------------------------------------

  /** The normalized list holds exactly the non-empty normal forms of the names. */
  lemma {:induction false} UniqueMembers(e: Env, names: seq<string>, t: Table)
    ensures t in Unique(e, names) <==> t != "" && exists i :: 0 <= i < |names| && e.normalize(names[i]) == t
    decreases |names|
  {
    if names != [] {
      var n := |names| - 1;
      UniqueMembers(e, names[..n], t);
      if i :| 0 <= i < n && e.normalize(names[..n][i]) == t { assert names[i] == names[..n][i]; }
      if i :| 0 <= i < |names| && e.normalize(names[i]) == t { assert i < n ==> names[..n][i] == names[i]; }
    }
  }

  /** More names only add behind: first occurrences keep their places. */
  lemma {:induction false} UniqueGrows(e: Env, a: seq<string>, b: seq<string>)
    ensures Unique(e, a) <= Unique(e, a + b)
    decreases |b|
  {
    if b == [] {
      assert a + b == a;
    } else {
      UniqueGrows(e, a, b[..|b| - 1]);
      assert (a + b)[..|a + b| - 1] == a + b[..|b| - 1];
    }
  }

  // ----- queries ---------------------------------------------------------------------------

  /** A query on a table of another session is rejected. Otherwise a session without a
      transaction is told to run it at once; in a transaction it is staged behind the
      others if it can be, and rejected if not. Only staging changes anything. */
  lemma RouteFate(e: Env, st: State, s: Session, q: Query, canStage: bool)
    ensures var (st1, reply) := Step(e, st, RouteQuery(s, q, canStage));
      && (reply == Rejected <==> !Free(st, s, e.tables(q)) || (s in st.staged && !canStage))
      && (reply == Immediately <==> Free(st, s, e.tables(q)) && s !in st.staged)
      && (reply == Staged <==> Free(st, s, e.tables(q)) && s in st.staged && canStage)
      && (reply == Staged ==> st1 == st.(staged := st.staged[s := st.staged[s] + [q]]))
      && (reply != Staged ==> st1 == st)
      && (reply == Rejected || reply == Immediately || reply == Staged)
  {
    if exists t :: t in e.tables(q) && LockedByOther(st, s, t) { assert !Free(st, s, e.tables(q)); }
  }

  /** The command puts a query on the session's stage, if it has one. */
  ghost predicate Sends(e: Env, st: State, c: Command, s: Session) {
    c.session == s && ((c.RouteQuery? && c.canStage && Free(st, s, e.tables(c.query))) || c.Stage?)
  }

  /** The session's stage ends. */
  predicate Ends(c: Command, s: Session) {
    c.session == s && (c.TakeForCommit? || c.FinalizeCommit? || c.RollBack?)
  }

  /** The queries sent to the session's stage over a run, in order. */
  ghost function Sent(e: Env, st: State, cs: seq<Command>, s: Session): (qs: seq<Query>) {
    if cs == [] then []
    else
      var n := |cs| - 1;
      Sent(e, st, cs[..n], s) + if Sends(e, Run(e, st, cs[..n]), cs[n], s) then [cs[n].query] else []
  }

  lemma StageStep(e: Env, st: State, c: Command, s: Session)
    requires s in st.staged && !Ends(c, s)
    ensures s in Step(e, st, c).0.staged
    ensures Step(e, st, c).0.staged[s] == if Sends(e, st, c, s) then st.staged[s] + [c.query] else st.staged[s]
  {
    hide Tables, LockedByOther;
    if c.session != s {
      OthersKeepStage(e, st, c, s);
    } else if c.RouteQuery? {
      RouteFate(e, st, s, c.query, c.canStage);
    }
  }

  /** From a transaction's begin until its end, what a commit takes is exactly what
      was sent to the stage: the queries that can be staged and came while none of
      their tables belonged to another session, in order. */
  lemma {:induction false} StageIsSent(e: Env, st: State, cs: seq<Command>, s: Session)
    requires s in st.staged && forall i :: 0 <= i < |cs| ==> !Ends(cs[i], s)
    ensures var st1 := Run(e, st, cs);
      && s in st1.staged && st1.staged[s] == st.staged[s] + Sent(e, st, cs, s)
      && Step(e, st1, TakeForCommit(s)).1 == Queries(st.staged[s] + Sent(e, st, cs, s))
    decreases |cs|
  {
    hide Sends, Step;
    TakeReturns(e, Run(e, st, cs), s);
    if cs == [] {
      assert st.staged[s] + [] == st.staged[s];
    } else {
      var n := |cs| - 1;
      StageIsSent(e, st, cs[..n], s);
      StageStep(e, Run(e, st, cs[..n]), cs[n], s);
      var before := Sent(e, st, cs[..n], s);
      assert st.staged[s] + before + [] == st.staged[s] + before;
      assert forall q: Query :: (st.staged[s] + before) + [q] == st.staged[s] + (before + [q]);
    }
  }

  lemma TakeReturns(e: Env, st: State, s: Session)
    ensures s in st.staged ==> Step(e, st, TakeForCommit(s)).1 == Queries(st.staged[s])
  {
  }

  /** A transaction begun over a run that does not end it hands over exactly what was sent. */
  lemma TakenIsSent(e: Env, st: State, begin: Command, cs: seq<Command>, s: Session)
    requires (begin.Begin? || begin.BeginWithLocks?) && begin.session == s
    requires Step(e, st, begin).1 == Ok && forall i :: 0 <= i < |cs| ==> !Ends(cs[i], s)
    ensures var st1 := Step(e, st, begin).0;
      Step(e, Run(e, st1, cs), TakeForCommit(s)).1 == Queries(Sent(e, st1, cs, s))
  {
    var st1 := Step(e, st, begin).0;
    assert s in st1.staged && st1.staged[s] == [];
    hide Step;
    StageIsSent(e, st1, cs, s);
    assert [] + Sent(e, st1, cs, s) == Sent(e, st1, cs, s);
  }

  // ----- transactions ------------------------------------------------------------------------

  /** A transaction begins exactly for a session that has none, with locks only if
      some table is named and none belongs to another; a refusal changes nothing. */
  lemma BeginFate(e: Env, st: State, s: Session, names: seq<string>)
    ensures Step(e, st, Begin(s)).1 == (if s in st.staged then Err else Ok)
    ensures Step(e, st, BeginWithLocks(s, names)).1 ==
      if s !in st.staged && Unique(e, names) != [] && Free(st, s, Unique(e, names)) then Ok else Err
    ensures forall c :: c in {Begin(s), BeginWithLocks(s, names)} && Step(e, st, c).1 == Err ==> Step(e, st, c).0 == st
    ensures forall c :: c in {Begin(s), BeginWithLocks(s, names)} && Step(e, st, c).1 == Ok ==>
      Step(e, st, c).0.staged == st.staged[s := []]
  {
    hide Unique, Granted;
    var ts := Unique(e, names);
    assert Tables(e, names) == {} <==> ts == [] by { if ts != [] { assert ts[0] in Tables(e, names); } }
    if t :| t in Tables(e, names) && LockedByOther(st, s, t) { assert t in ts && t in st.owner; }
    if !Free(st, s, ts) {
      var t :| t in ts && t in st.owner && st.owner[t] != s;
      assert t in Tables(e, names) && LockedByOther(st, s, t);
    }
  }

  /** The queries about a transaction agree with taking it, and change nothing; a
      rollback says whether there was one, and a taken list can be put back only
      where no transaction is open. */
  lemma AnswersAgree(e: Env, st: State, s: Session, qs: seq<Query>)
    ensures var taken := Step(e, st, TakeForCommit(s)).1;
      && (taken.Queries? <==> s in st.staged) && (!taken.Queries? ==> taken == Err)
      && Step(e, st, GetStaged(s)) == (st, taken)
      && Step(e, st, IsActive(s)) == (st, Answer(taken.Queries?))
      && Step(e, st, RollBack(s)).1 == Answer(taken.Queries?)
      && Step(e, st, Restore(s, qs)).1 == (if taken.Queries? then Err else Ok)
      && (forall q :: Step(e, st, Stage(s, q)).1 == (if taken.Queries? then Ok else Err))
  {
  }

  // ----- locks -------------------------------------------------------------------------------

  /** The command gives the session a lock on the table. */
  ghost predicate Gains(e: Env, st: State, c: Command, s: Session, t: Table) {
    c.session == s && (c.BeginWithLocks? || c.ApplyRemote?) && t in Unique(e, c.names) &&
    match c
    case BeginWithLocks(_, names) => s !in st.staged && Free(st, s, Unique(e, names))
    case _ => Free(st, s, [t])
  }

  /** After a command a session holds a table exactly when it held it and the command
      does not free it, or the command gives it the lock. */
  lemma HoldExactly(e: Env, st: State, c: Command, s: Session, t: Table)
    requires Inverse(st)
    ensures Holds(Step(e, st, c).0, s, t) <==> (Holds(st, s, t) && !Frees(e, c, s, t)) || Gains(e, st, c, s, t)
  {
    hide Unique, HeldBy, Inverse;
    if Holds(st, s, t) {
      HoldStep(e, st, c, s, t);
    } else {
      NotHeld(e, st, c, s, t);
    }
  }

  lemma NotHeld(e: Env, st: State, c: Command, s: Session, t: Table)
    requires !Holds(st, s, t)
    ensures Holds(Step(e, st, c).0, s, t) <==> Gains(e, st, c, s, t)
  {
    hide Unique;
    if c.BeginWithLocks? {
      BeginFate(e, st, c.session, c.names);
      assert t in Tables(e, c.names) <==> t in Unique(e, c.names);
    } else if c.ApplyRemote? {
      assert t in Tables(e, c.names) <==> t in Unique(e, c.names);
      assert Free(st, s, [t]) <==> !LockedByOther(st, s, t) by { assert t in [t]; }
    }
  }
}
