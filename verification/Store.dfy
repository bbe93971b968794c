/** The state file (src/state.rs): every save is checked by one pass over the whole state, and
    a load, a change and a save happen under one lock.

    The pass keeps sets of the ids, sessions and memberships it has met. What it accepts is
    stated without order, as `Records.Valid`, and the two are proved to agree. */
module Store {
  import opened Common
  import opened Records
  import opened Validity

  /** How the file system answers a write: it may report a failure, and a failed write may
      have replaced the file all the same. */
  datatype WriteChance = WriteChance(fails: bool, takesEffect: bool)

  lemma {:induction false} MapGrows<T, U>(s: seq<T>, i: nat, f: T -> U)
    requires i < |s|
    ensures Map(s[..i + 1], f) == Map(s[..i], f) + [f(s[i])]
  {
    var longer := Map(s[..i + 1], f);
    forall k | 0 <= k < i + 1 ensures longer[k] == (Map(s[..i], f) + [f(s[i])])[k] {
      assert s[..i + 1][k] == s[k];
      if k < i { assert s[..i][k] == s[k]; }
    }
  }

  lemma {:induction false} DistinctGrows<T>(s: seq<T>, x: T)
    ensures Distinct(s + [x]) <==> Distinct(s) && x !in s
  {
    DistinctParts(s, [x]);
  }

  lemma {:induction false} MembershipsGrow(groups: seq<Group>, g: Group)
    ensures Memberships(groups + [g]) == Memberships(groups) + Map(g.workers, MemberEpoch)
  {
    if groups == [] {
      assert [g][1..] == [];
    } else {
      assert (groups + [g])[1..] == groups[1..] + [g];
      MembershipsGrow(groups[1..], g);
    }
  }

  lemma {:induction false} DistinctPrefix<T>(s: seq<T>, i: nat)
    requires i <= |s| && Distinct(s)
    ensures Distinct(s[..i])
  {
    assert s == s[..i] + s[i..];
    DistinctParts(s[..i], s[i..]);
  }

  /** One pass over the sessions, with the ids met so far in a set. */
  method ValidateSessions(sessions: seq<SessionRecord>) returns (ok: bool)
    ensures ok <==> UniqueIds(sessions) && forall r | r in sessions :: ValidRecord(r)
  {
    var met: set<SessionId> := {};
    var i := 0;
    while i < |sessions|
      invariant i <= |sessions|
      invariant UniqueIds(sessions[..i]) && forall r | r in sessions[..i] :: ValidRecord(r)
      invariant forall id :: id in met <==> id in Map(sessions[..i], RecordId)
    {
      MapGrows(sessions, i, RecordId);
      DistinctGrows(Map(sessions[..i], RecordId), sessions[i].id);
      if sessions[i].id in met || !ValidRecord(sessions[i]) {
        assert UniqueIds(sessions) ==> UniqueIds(sessions[..i + 1]) by {
          if UniqueIds(sessions) {
            DistinctPrefix(Map(sessions, RecordId), i + 1);
            assert Map(sessions[..i + 1], RecordId) == Map(sessions, RecordId)[..i + 1];
          }
        }
        return false;
      }
      met := met + {sessions[i].id};
      assert sessions[..i + 1] == sessions[..i] + [sessions[i]];
      i := i + 1;
    }
    assert sessions[..i] == sessions;
    return true;
  }

  /** What a worker must satisfy apart from the other workers of its group. */
  predicate WorkerFits(g: Group, m: Member, before: set<MembershipId>) {
    m.session != g.orchestrator && !m.capabilities.IsEmpty() && m.membership !in before
  }

  ghost predicate AllFit(g: Group, i: nat, before: set<MembershipId>)
    requires i <= |g.workers|
  {
    forall k | 0 <= k < i :: WorkerFits(g, g.workers[k], before)
  }

  /** The first `i` workers fit, and differ from each other in session and membership. */
  ghost predicate WorkersFit(g: Group, i: nat, before: set<MembershipId>)
    requires i <= |g.workers|
  {
    && AllFit(g, i, before)
    && Distinct(Map(g.workers, MemberSession)[..i])
    && Distinct(Map(g.workers, MemberEpoch)[..i])
  }

  lemma {:induction false} OneMoreFits(g: Group, i: nat, before: set<MembershipId>)
    requires i < |g.workers|
    ensures AllFit(g, i + 1, before) == (AllFit(g, i, before) && WorkerFits(g, g.workers[i], before))
    ensures AllFit(g, |g.workers|, before) ==> AllFit(g, i + 1, before)
  {
  }

  lemma {:induction false} OneMoreWorker(g: Group, i: nat, before: set<MembershipId>)
    requires i < |g.workers|
    ensures WorkersFit(g, i + 1, before) ==
      (&& WorkersFit(g, i, before) && WorkerFits(g, g.workers[i], before)
       && g.workers[i].session !in Map(g.workers, MemberSession)[..i]
       && g.workers[i].membership !in Map(g.workers, MemberEpoch)[..i])
    ensures WorkersFit(g, |g.workers|, before) ==> WorkersFit(g, i + 1, before)
  {
    OneMoreFits(g, i, before);
    OneMoreDiffers(Map(g.workers, MemberSession), i);
    OneMoreDiffers(Map(g.workers, MemberEpoch), i);
  }

  lemma {:induction false} OneMoreDiffers<T>(s: seq<T>, i: nat)
    requires i < |s|
    ensures Distinct(s[..i + 1]) == (Distinct(s[..i]) && s[i] !in s[..i])
    ensures Distinct(s[..|s|]) ==> Distinct(s[..i + 1])
  {
    assert s[..i + 1] == s[..i] + [s[i]] && s[..|s|] == s;
    DistinctGrows(s[..i], s[i]);
    if Distinct(s) { DistinctPrefix(s, i + 1); }
  }

  lemma {:induction false} OneMoreTaken<T>(s: seq<T>, i: nat)
    requires i < |s|
    ensures s[..i + 1] == s[..i] + [s[i]]
  {
    assert s[..i + 1] == s[..i] + [s[i]];
  }

  /** One pass over a group's workers; memberships are met across groups, workers within one. */
  method ScanWorkers(g: Group, before: set<MembershipId>) returns (ok: bool, met: set<MembershipId>)
    ensures ok == WorkersFit(g, |g.workers|, before)
    ensures ok ==> forall m :: m in met <==> m in before || m in Map(g.workers, MemberEpoch)[..|g.workers|]
  {
    var workers: set<SessionId> := {};
    met := before;
    ghost var sessions, epochs := Map(g.workers, MemberSession), Map(g.workers, MemberEpoch);
    var i := 0;
    while i < |g.workers|
      invariant i <= |g.workers| && WorkersFit(g, i, before)
      invariant forall id :: id in workers <==> id in sessions[..i]
      invariant forall m :: m in met <==> m in before || m in epochs[..i]
    {
      var worker := g.workers[i];
      OneMoreWorker(g, i, before);
      if worker.session == g.orchestrator || worker.session in workers || worker.membership in met || worker.capabilities.IsEmpty() {
        return false, met;
      }
      OneMoreTaken(sessions, i);
      OneMoreTaken(epochs, i);
      workers := workers + {worker.session};
      met := met + {worker.membership};
      i := i + 1;
    }
    return true, met;
  }

  method ValidateWorkers(g: Group, before: set<MembershipId>) returns (ok: bool, met: set<MembershipId>)
    ensures ok <==>
      && (forall m | m in g.workers :: WorkerFits(g, m, before))
      && Distinct(Map(g.workers, MemberSession)) && Distinct(Map(g.workers, MemberEpoch))
    ensures ok ==> forall m :: m in met <==> m in before || m in Map(g.workers, MemberEpoch)
  {
    ok, met := ScanWorkers(g, before);
    ghost var sessions, epochs := Map(g.workers, MemberSession), Map(g.workers, MemberEpoch);
    assert sessions[..|g.workers|] == sessions && epochs[..|g.workers|] == epochs;
  }

  lemma {:induction false} GroupPrefixes(groups: seq<Group>, i: nat)
    requires i <= |groups|
    ensures Distinct(Map(groups, GroupId)) ==> Distinct(Map(groups[..i], GroupId))
    ensures Distinct(Memberships(groups)) ==> Distinct(Memberships(groups[..i]))
  {
    assert Map(groups[..i], GroupId) == Map(groups, GroupId)[..i];
    if Distinct(Map(groups, GroupId)) { DistinctPrefix(Map(groups, GroupId), i); }
    MembershipsSplit(groups[..i], groups[i..]);
    assert groups[..i] + groups[i..] == groups;
    DistinctParts(Memberships(groups[..i]), Memberships(groups[i..]));
  }

  lemma {:induction false} MembershipsSplit(a: seq<Group>, b: seq<Group>)
    ensures Memberships(a + b) == Memberships(a) + Memberships(b)
  {
    if a == [] {
      assert a + b == b;
    } else {
      assert (a + b)[1..] == a[1..] + b;
      MembershipsSplit(a[1..], b);
    }
  }

  method ValidateGroups(groups: seq<Group>) returns (ok: bool)
    ensures ok <==> Distinct(Map(groups, GroupId)) && (forall g | g in groups :: ValidGroup(g)) && Distinct(Memberships(groups))
  {
    var names: set<string> := {};
    var met: set<MembershipId> := {};
    var i := 0;
    while i < |groups|
      invariant i <= |groups|
      invariant Distinct(Map(groups[..i], GroupId)) && (forall g | g in groups[..i] :: ValidGroup(g)) && Distinct(Memberships(groups[..i]))
      invariant forall id :: id in names <==> id in Map(groups[..i], GroupId)
      invariant forall m :: m in met <==> m in Memberships(groups[..i])
    {
      var g := groups[i];
      assert groups[..i + 1] == groups[..i] + [g];
      MapGrows(groups, i, GroupId);
      DistinctGrows(Map(groups[..i], GroupId), g.id);
      MembershipsGrow(groups[..i], g);
      DistinctParts(Memberships(groups[..i]), Map(g.workers, MemberEpoch));
      GroupPrefixes(groups, i + 1);
      if g.id in names || |g.workers| > MAX_WORKERS {
        return false;
      }
      names := names + {g.id};
      var fits;
      ghost var before := met;
      fits, met := ValidateWorkers(g, met);
      EpochsApart(g, before, Memberships(groups[..i]));
      if !fits {
        assert g in groups && (ValidGroup(g) ==> !Distinct(Memberships(groups[..i + 1])));
        return false;
      }
      i := i + 1;
    }
    assert groups[..i] == groups;
    return true;
  }

  lemma {:induction false} EpochsApart(g: Group, before: set<MembershipId>, epochs: seq<MembershipId>)
    requires forall m :: m in before <==> m in epochs
    ensures (forall m | m in g.workers :: m.membership !in before) <==> forall e | e in epochs :: e !in Map(g.workers, MemberEpoch)
  {
    var own := Map(g.workers, MemberEpoch);
    if forall e | e in epochs :: e !in own {
      forall m | m in g.workers ensures m.membership !in before {
        var k :| 0 <= k < |g.workers| && g.workers[k] == m;
        assert own[k] == m.membership;
      }
    }
    if forall m | m in g.workers :: m.membership !in before {
      forall k | 0 <= k < |own| ensures own[k] !in epochs {
        assert g.workers[k] in g.workers;
      }
    }
  }

  /** The single pass accepts exactly the valid states. */
  method Validate(s: State) returns (ok: bool)
    ensures ok <==> Valid(s)
  {
    if |s.sessions| > MAX_SESSIONS || |s.groups| > MAX_GROUPS {
      return false;
    }
    ok := ValidateSessions(s.sessions);
    if ok {
      ok := ValidateGroups(s.groups);
    }
  }

  class StateStore {
    var state: State

    constructor ()
      ensures state == State([], [])
    {
      state := State([], []);
    }

    method Load(unreadable: bool) returns (loaded: Option<State>)
      ensures loaded == if unreadable then None else Some(state)
    {
      return if unreadable then None else Some(state);
    }

    /** A save either reports success with a valid state in the file, or it fails and leaves
        the file as it was or, after a late failure, with the valid new state. */
    method Save(s: State, c: WriteChance) returns (ok: bool)
      modifies this
      ensures ok <==> Valid(s) && !c.fails
      ensures state == if Valid(s) && (!c.fails || c.takesEffect) then s else old(state)
    {
      ok := Validate(s);
      if ok {
        if !c.fails || c.takesEffect {
          state := s;
        }
        ok := !c.fails;
      }
    }
  }
}
