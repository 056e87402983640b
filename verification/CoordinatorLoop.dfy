/** The coordinator's message loop, which updates its three maps in place. */
module CoordinatorLoop {
  import opened Prelude
  import opened Coordinator

  lemma RunNone(e: Env, st: State)
    ensures Run(e, st, []) == st
  {
  }

  lemma UniqueSnoc(e: Env, names: seq<string>, name: string)
    ensures Unique(e, names + [name]) ==
      (var t := e.normalize(name);
       if t == "" || t in Unique(e, names) then Unique(e, names) else Unique(e, names) + [t])
  {
    assert (names + [name])[..|names|] == names;
  }

  /** `normalize_unique_table_ids`. */
  method NormalizeUnique(e: Env, names: seq<string>) returns (normalized: seq<Table>)
    ensures normalized == Unique(e, names)
    ensures NoRepeats(normalized) && "" !in normalized
  {
    var seen: set<Table> := {};
    normalized := [];
    var i := 0;
    while i < |names|
      invariant 0 <= i <= |names|
      invariant normalized == Unique(e, names[..i]) && seen == Elements(normalized)
      invariant NoRepeats(normalized) && "" !in normalized
    {
      UniqueSnoc(e, names[..i], names[i]);
      assert names[..i + 1] == names[..i] + [names[i]];
      var t := e.normalize(names[i]);
      if t != "" && t !in seen {
        seen := seen + {t};
        normalized := normalized + [t];
      }
      i := i + 1;
    }
    assert names[..i] == names;
  }

  /** The reply to the command at position `i` of a run. */
  function ReplyAt(e: Env, st: State, cs: seq<Command>, i: nat): (r: Reply)
    requires i < |cs|
  {
    Step(e, Run(e, st, cs[..i]), cs[i]).1
  }

  class CoordinatorWorker {
    const e: Env
    var staged: map<Session, seq<Query>>
    var owner: map<Table, Session>
    var held: map<Session, set<Table>>

    ghost function Current(): (st: State) reads this { State(staged, owner, held) }

    constructor (env: Env)
      ensures e == env && Current() == EMPTY
    {
      e := env;
      staged, owner, held := map[], map[], map[];
    }

    method AnyLockedByOther(s: Session, ts: seq<Table>) returns (blocked: bool)
      ensures blocked <==> exists t :: t in ts && LockedByOther(Current(), s, t)
    {
      var i := 0;
      while i < |ts|
        invariant 0 <= i <= |ts|
        invariant forall t :: t in ts[..i] ==> !LockedByOther(Current(), s, t)
      {
        if ts[i] in owner && owner[ts[i]] != s {
          assert LockedByOther(Current(), s, ts[i]);
          return true;
        }
        i := i + 1;
      }
      assert ts[..i] == ts;
      return false;
    }

    method BeginWithTableLocks(s: Session, names: seq<string>) returns (r: Reply)
      modifies this
      ensures (Current(), r) == Step(e, old(Current()), BeginWithLocks(s, names))
    {
      hide Granted, Unique;
      if s in staged { return Err; }
      var ts := NormalizeUnique(e, names);
      if ts == [] { return Err; }
      assert ts[0] in Tables(e, names);
      var blocked := AnyLockedByOther(s, ts);
      assert blocked <==> exists t :: t in Tables(e, names) && LockedByOther(Current(), s, t);
      if blocked { return Err; }
      assert Tables(e, names) == set t | t in ts && !LockedByOther(Current(), s, t);
      Grant(s, ts);
      staged := staged[s := []];
      return Ok;
    }

    /** Lock the listed tables that no other session holds. */
    method Grant(s: Session, ts: seq<Table>)
      modifies this`owner, this`held
      ensures Current() == Granted(old(Current()), s, set t | t in ts && !LockedByOther(old(Current()), s, t))
    {
      hide Granted, LockedByOther;
      ghost var before := Current();
      held := held[s := if s in held then held[s] else {}];
      ghost var free: set<Table> := {};
      GrantNone(before, s);
      var i := 0;
      while i < |ts|
        invariant 0 <= i <= |ts| && s in held
        invariant forall t :: t in free <==> t in ts[..i] && !LockedByOther(before, s, t)
        invariant Current() == Granted(before, s, free)
      {
        assert ts[..i + 1] == ts[..i] + [ts[i]];
        GrantedOwner(before, s, free, ts[i]);
        if !(ts[i] in owner && owner[ts[i]] != s) {
          GrantOneMore(before, s, free, ts[i]);
          owner := owner[ts[i] := s];
          held := held[s := held[s] + {ts[i]}];
          free := free + {ts[i]};
        }
        i := i + 1;
      }
      assert ts[..i] == ts;
      assert free == set t | t in ts && !LockedByOther(before, s, t);
    }

    /** Granting free tables does not change who is locked out of one. */
    lemma GrantedOwner(st: State, s: Session, ts: set<Table>, t: Table)
      requires forall x :: x in ts ==> !LockedByOther(st, s, x)
      ensures var g := Granted(st, s, ts); t in g.owner && g.owner[t] != s <==> LockedByOther(st, s, t)
    {
    }

    lemma GrantNone(st: State, s: Session)
      ensures Granted(st, s, {}) == st.(held := st.held[s := HeldBy(st, s)])
    {
      assert HeldBy(st, s) + {} == HeldBy(st, s);
      assert Granted(st, s, {}).owner == st.owner;
    }

    lemma GrantOneMore(st: State, s: Session, ts: set<Table>, t: Table)
      ensures var g := Granted(st, s, ts);
        Granted(st, s, ts + {t}) == g.(owner := g.owner[t := s], held := g.held[s := g.held[s] + {t}])
    {
      var g, g' := Granted(st, s, ts), Granted(st, s, ts + {t});
      assert g'.owner == g.owner[t := s];
      assert HeldBy(st, s) + (ts + {t}) == HeldBy(st, s) + ts + {t};
    }

    /** `release_session_locks`, over the session's tables in any order. */
    method ReleaseSessionLocks(s: Session)
      modifies this`owner, this`held
      ensures Current() == Released(old(Current()), s)
    {
      if s !in held { return; }
      ghost var before := Current();
      var rest := held[s];
      held := held - {s};
      while rest != {}
        invariant rest <= before.held[s] && held == before.held - {s} && staged == before.staged
        invariant owner ==
          map t | t in before.owner && !(t in before.held[s] - rest && before.owner[t] == s) :: before.owner[t]
        decreases rest
      {
        var t :| t in rest;
        if t in owner && owner[t] == s { owner := owner - {t}; }
        rest := rest - {t};
      }
    }

    /** Release the listed tables of the session only. */
    method ReleaseTables(s: Session, ts: seq<Table>)
      modifies this`owner, this`held
      ensures Current() == ReleasedSome(old(Current()), s, Elements(ts))
    {
      if s !in held { return; }
      ghost var before := Current();
      var i := 0;
      assert before.held[s] - Elements(ts[..0]) == before.held[s];
      while i < |ts|
        invariant 0 <= i <= |ts| && staged == before.staged
        invariant owner == map t | t in before.owner && !(t in ts[..i] && before.owner[t] == s) :: before.owner[t]
        invariant held == before.held[s := before.held[s] - Elements(ts[..i])]
      {
        assert ts[..i + 1] == ts[..i] + [ts[i]];
        assert before.held[s] - Elements(ts[..i + 1]) == before.held[s] - Elements(ts[..i]) - {ts[i]};
        held := held[s := held[s] - {ts[i]}];
        if ts[i] in owner && owner[ts[i]] == s { owner := owner - {ts[i]}; }
        i := i + 1;
      }
      assert ts[..i] == ts;
      if held[s] == {} { held := held - {s}; }
    }

    method Route(s: Session, q: Query, canStage: bool) returns (r: Reply)
      modifies this`staged
      ensures (Current(), r) == Step(e, old(Current()), RouteQuery(s, q, canStage))
    {
      var blocked := AnyLockedByOther(s, e.tables(q));
      if blocked { return Rejected; }
      if s !in staged { return Immediately; }
      if !canStage { return Rejected; }
      staged := staged[s := staged[s] + [q]];
      return Staged;
    }

    method Rollback(s: Session) returns (r: Reply)
      modifies this
      ensures (Current(), r) == Step(e, old(Current()), RollBack(s))
    {
      var removed := s in staged;
      staged := staged - {s};
      ReleaseSessionLocks(s);
      return Answer(removed);
    }

    method ApplyRemoteLocks(s: Session, names: seq<string>) returns (r: Reply)
      modifies this
      ensures (Current(), r) == Step(e, old(Current()), ApplyRemote(s, names))
    {
      var ts := NormalizeUnique(e, names);
      assert (set t | t in ts && !LockedByOther(Current(), s, t))
          == set t | t in Tables(e, names) && !LockedByOther(Current(), s, t);
      Grant(s, ts);
      return Ok;
    }

    method ReleaseRemoteLocks(s: Session, names: seq<string>) returns (r: Reply)
      modifies this
      ensures (Current(), r) == Step(e, old(Current()), ReleaseRemote(s, names))
    {
      var ts := NormalizeUnique(e, names);
      assert ts != [] ==> ts[0] in Tables(e, names);
      if ts == [] { ReleaseSessionLocks(s); } else { ReleaseTables(s, ts); }
      return Ok;
    }

    /** One command of `run_coordinator_loop`. */
    method Handle(c: Command) returns (r: Reply)
      modifies this
      ensures (Current(), r) == Step(e, old(Current()), c)
    {
      match c
      case Begin(s) =>
        if s in staged { return Err; }
        staged := staged[s := []];
        return Ok;
      case BeginWithLocks(s, names) => r := BeginWithTableLocks(s, names);
      case IsActive(s) => return Answer(s in staged);
      case RouteQuery(s, q, canStage) => r := Route(s, q, canStage);
      case Stage(s, q) =>
        if s !in staged { return Err; }
        staged := staged[s := staged[s] + [q]];
        return Ok;
      case GetStaged(s) =>
        if s !in staged { return Err; }
        return Queries(staged[s]);
      case TakeForCommit(s) =>
        if s !in staged { return Err; }
        r := Queries(staged[s]);
        staged := staged - {s};
      case Restore(s, qs) =>
        if s in staged { return Err; }
        staged := staged[s := qs];
        return Ok;
      case FinalizeCommit(s) =>
        staged := staged - {s};
        ReleaseSessionLocks(s);
        return Ok;
      case ApplyRemote(s, names) => r := ApplyRemoteLocks(s, names);
      case ReleaseRemote(s, names) => r := ReleaseRemoteLocks(s, names);
      case RollBack(s) => r := Rollback(s);
    }

    /** `run_coordinator_loop` over the commands received so far. */
    method HandleAll(cs: seq<Command>) returns (replies: seq<Reply>)
      modifies this
      ensures Current() == Run(e, old(Current()), cs)
      ensures |replies| == |cs|
      ensures forall i :: 0 <= i < |cs| ==> replies[i] == ReplyAt(e, old(Current()), cs, i)
    {
      hide Step, Run;
      RunNone(e, Current());
      replies := [];
      var i := 0;
      while i < |cs|
        invariant 0 <= i <= |cs| && |replies| == i
        invariant Current() == Run(e, old(Current()), cs[..i])
        invariant forall j :: 0 <= j < i ==> replies[j] == ReplyAt(e, old(Current()), cs, j)
      {
        RunSnoc(e, old(Current()), cs[..i], cs[i]);
        assert cs[..i + 1] == cs[..i] + [cs[i]];
        var r := Handle(cs[i]);
        replies := replies + [r];
        i := i + 1;
      }
      assert cs[..i] == cs;
    }
  }
}
