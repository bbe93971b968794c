/** Whether a removal is final. Within one operation it is; across operations it is not quite:
    a restart re-reads its own reservation after committing it and does not look at the status
    again, so a removal that slips in between is undone. */
module RemovedStays {
  import opened Common
  import opened Records
  import opened Tmux
  import opened Audit
  import opened Lifecycle
  import opened KillSafety
  import opened Validity

  /** What every operation knows about the record it holds; a careful one also knows that its
      reservation was not removed when it read it back. */
  predicate Sober(pc: Pc, careful: bool) {
    match pc
    case Insert(record) => record.status != Removed
    case Inspecting(op, snap) => op == ToObserve || snap.status != Removed
    case Reinspecting(_, snap, _) => snap.status != Removed
    case Killing(_, snap, _, _) => snap.status != Removed
    case MarkOpened(snap, _) => snap.status != Removed
    case MarkObserved(snap, _) => snap.status != Removed
    case MarkEnded(snap, _, _) => snap.status != Removed
    case Reserve(snap) => snap.status != Removed
    case LaunchAgain(reservation, _) => careful ==> reservation.status != Removed
    case Promote(snap, _, _, _, action) => careful || !action.Activate? ==> snap.status != Removed
    case Noting(_, next) => Sober(next, careful)
    case _ => true
  }

  /** A restart reads its reservation back after somebody else removed the record. */
  predicate ReloadsRemoved(w: World, pc: Pc) {
    pc.Reload? && Lookup(w.state.sessions, pc.snap.id).Some? && Lookup(w.state.sessions, pc.snap.id).value.status == Removed
  }

  /** The write that gives a removed record its life back. */
  predicate Revives(pc: Pc, c: Chance, r: SessionRecord) {
    pc.Promote? && pc.action.Activate? && pc.snap == r && !(c.fault && !c.takesEffect)
  }

  lemma {:induction false} NotesKeepSober(pc: Pc, careful: bool)
    requires Sober(pc, careful)
    ensures IsSwap(pc) && !(pc.MarkStopping? && IsClosed(pc.snap.status)) ==> Sober(AfterSwap(pc), careful)
    ensures pc.FinishStop? ==> Sober(FinishedNote(pc), careful)
  {
    if IsSwap(pc) {
      var next := AfterSwap(pc);
      assert next.Noting? && !(pc.MarkStopping? && IsClosed(pc.snap.status)) ==> Sober(next.next, careful);
    } else if pc.FinishStop? {
      assert Sober(FinishedNote(pc).next, careful);
    }
  }

  lemma {:induction false} WritesKeepSober(w: World, env: string, pc: Pc, c: Chance, careful: bool)
    requires Sober(pc, careful) && (IsSwap(pc) || pc.FinishStop? || pc.ActivateFirst? || pc.Insert?)
    ensures Sober(Step(w, env, pc, c).1, careful)
  {
    NotesKeepSober(pc, careful);
    var next := Step(w, env, pc, c).1;
    if pc.Insert? || pc.ActivateFirst? {
      assert next.Noting? ==> Sober(next.next, careful);
    } else {
      assert next == Failed || next == if pc.FinishStop? then FinishedNote(pc) else AfterSwap(pc);
    }
  }

  lemma {:induction false} ReadsKeepSober(w: World, env: string, pc: Pc, c: Chance, careful: bool)
    requires Sober(pc, careful) && (careful ==> !ReloadsRemoved(w, pc))
    requires pc.Start? || pc.Inspecting? || pc.Reinspecting? || pc.Reload?
    ensures Sober(Step(w, env, pc, c).1, careful)
  {
    var next := Step(w, env, pc, c).1;
    if pc.Reload? {
      assert next.Noting? ==> Sober(next.next, careful);
    } else if !pc.Start? && pc.snap.proof.Some? {
      assert next == Failed || next == (if pc.Inspecting? then AfterInspect(pc.op, pc.snap, Answer(w, env, pc.snap, c))
                                        else AfterReinspect(pc.op, pc.snap, pc.identity, Answer(w, env, pc.snap, c)));
    }
  }

  lemma {:induction false} StepKeepsSober(w: World, env: string, pc: Pc, c: Chance, careful: bool)
    requires Sober(pc, careful) && (careful ==> !ReloadsRemoved(w, pc))
    ensures Sober(Step(w, env, pc, c).1, careful)
  {
    if IsSwap(pc) || pc.FinishStop? || pc.ActivateFirst? || pc.Insert? {
      WritesKeepSober(w, env, pc, c, careful);
    } else if pc.Start? || pc.Inspecting? || pc.Reinspecting? || pc.Reload? {
      ReadsKeepSober(w, env, pc, c, careful);
    }
  }

  lemma {:induction false} WritingElsewhereLeaves(w: World, c: Chance, at: nat, updated: SessionRecord, groups: seq<Group>, next: Pc, r: SessionRecord)
    requires Valid(w.state) && at < |w.state.sessions| && r in w.state.sessions && updated.id == w.state.sessions[at].id
    ensures var (after, _) := WriteAt(w, c, at, updated, groups, next);
      Lookup(after.state.sessions, r.id) ==
        Some(if w.state.sessions[at] == r && !(c.fault && !c.takesEffect) then updated else r)
  {
    var before, sessions := w.state.sessions, w.state.sessions[at := updated];
    FoundAlone(before, r);
    ReplacingKeepsIds(before, at, updated);
    var k :| 0 <= k < |before| && before[k] == r;
    if k == at {
      assert sessions[k] == updated;
      FoundAlone(sessions, updated);
    } else {
      assert sessions[k] == r;
      FoundAlone(sessions, r);
      assert Map(before, RecordId)[at] != Map(before, RecordId)[k];
    }
  }

  lemma {:induction false} SwapRevives(w: World, pc: Pc, c: Chance, r: SessionRecord)
    requires Valid(w.state) && IsSwap(pc) && Sober(pc, false) && r in w.state.sessions && r.status == Removed
    ensures var found := Lookup(SwapStep(w, pc, c).0.state.sessions, r.id);
      found.Some? && (found.value.status != Removed <==> Revives(pc, c, r))
  {
    var at := Position(w.state.sessions, pc.snap.id);
    FoundAlone(w.state.sessions, r);
    if at < |w.state.sessions| && w.state.sessions[at] == pc.snap && !(pc.MarkStopping? && IsClosed(pc.snap.status)) {
      var groups := if pc.MarkRemoved? then WithoutMembers(w.state.groups, {pc.snap.id}) else w.state.groups;
      WritingElsewhereLeaves(w, c, at, Replacement(pc, w.now), groups, AfterSwap(pc), r);
    }
  }

  lemma {:induction false} RetractLeaves(sessions: seq<SessionRecord>, keep: SessionRecord -> bool, r: SessionRecord)
    requires UniqueIds(sessions) && r in sessions && keep(r)
    ensures Lookup(Filter(sessions, keep), r.id) == Some(r)
  {
    FilterKeepsDistinct(sessions, keep, RecordId);
    FoundAlone(Filter(sessions, keep), r);
  }

  /** One step of one operation takes a removed record out of its removal exactly when it is
      the promotion that ends a restart whose reservation was that very record. No step ever
      loses it. */
  lemma {:induction false} WhatEndsARemoval(w: World, env: string, pc: Pc, c: Chance, r: SessionRecord)
    requires Fit(w, env, pc) && Checked(w, pc, c) && Sober(pc, false) && r in w.state.sessions && r.status == Removed
    ensures var found := Lookup(Step(w, env, pc, c).0.state.sessions, r.id);
      found.Some? && (found.value.status != Removed <==> Revives(pc, c, r))
  {
    FoundAlone(w.state.sessions, r);
    if IsSwap(pc) {
      SwapRevives(w, pc, c, r);
    } else if pc.FinishStop? {
      FinishLeaves(w, pc, c, r);
    } else if pc.ActivateFirst? {
      ActivateLeaves(w, env, pc, c, r);
    } else if pc.Insert? {
      StepKeepsFit(w, env, pc, c);
      var after := Step(w, env, pc, c).0;
      assert r in after.state.sessions;
      FoundAlone(after.state.sessions, r);
    } else if pc.Retract? {
      RetractLeaves(w.state.sessions, (r: SessionRecord) => r.id != pc.id || r.status != Creating || r.tmuxSession.Some?, r);
    } else {
      OtherStepsWriteNothing(w, env, pc, c);
    }
  }

  lemma {:induction false} OtherStepsWriteNothing(w: World, env: string, pc: Pc, c: Chance)
    requires !IsSwap(pc) && !pc.Insert? && !pc.FinishStop? && !pc.ActivateFirst? && !pc.Retract?
    ensures Step(w, env, pc, c).0.state == w.state
  {}

  lemma {:induction false} FinishLeaves(w: World, pc: Pc, c: Chance, r: SessionRecord)
    requires Valid(w.state) && pc.FinishStop? && r in w.state.sessions && r.status == Removed && UniqueIds(w.state.sessions)
    ensures Lookup(FinishStopStep(w, pc, c).0.state.sessions, r.id) == Some(r)
  {
    FoundAlone(w.state.sessions, r);
    var at := Position(w.state.sessions, pc.snap.id);
    if at < |w.state.sessions| && FinishStopStep(w, pc, c).0 != w {
      WritingElsewhereLeaves(w, c, at, StoppedRecord(w.state.sessions[at], pc.exitStatus, w.now), w.state.groups, FinishedNote(pc), r);
    }
  }

  lemma {:induction false} ActivateLeaves(w: World, env: string, pc: Pc, c: Chance, r: SessionRecord)
    requires Valid(w.state) && pc.ActivateFirst? && r in w.state.sessions && r.status == Removed && UniqueIds(w.state.sessions)
    ensures Lookup(ActivateStep(w, env, pc, c).0.state.sessions, r.id) == Some(r)
  {
    FoundAlone(w.state.sessions, r);
    var at := Position(w.state.sessions, pc.id);
    if at < |w.state.sessions| && ActivateStep(w, env, pc, c).0 != w {
      var current := w.state.sessions[at];
      WritingElsewhereLeaves(w, c, at, ActivatedRecord(current, pc.identity, pc.launched, env, w.now), w.state.groups,
                             Noting(Entry(current, AuditAction.Activate, Some(Creating), Running, Some(pc.identity), None), Finished), r);
    }
  }

  // ---------- Every interleaving ----------

  ghost predicate AllSober(config: Config, careful: bool) {
    forall p | 0 <= p < |config.procs| :: Sober(config.procs[p].pc, careful)
  }

  ghost predicate CarefulMove(config: Config, move: Move) {
    move.Act? && move.p < |config.procs| ==> !ReloadsRemoved(config.world, config.procs[move.p].pc)
  }

  /** No restart ever reads back a reservation that somebody removed. */
  ghost predicate NoLateRemoval(run: seq<Config>, moves: seq<Move>)
    requires |run| == |moves| + 1
  {
    forall i | 0 <= i < |moves| :: CarefulMove(run[i], moves[i])
  }

  lemma {:induction false} TakeKeepsSober(config: Config, move: Move, target: SessionId -> string, careful: bool)
    requires AllSober(config, careful) && Permitted(config, move, target) && (careful ==> CarefulMove(config, move))
    ensures AllSober(Take(config, move, target), careful)
  {
    if move.Act? {
      var w, proc := Later(config.world, move.c), config.procs[move.p];
      StepKeepsSober(w, proc.env, proc.pc, move.c, careful);
    }
  }

  lemma {:induction false} RunIsSober(run: seq<Config>, moves: seq<Move>, at: nat, target: SessionId -> string, careful: bool)
    requires IsRun(run, moves, target) && |run| == |moves| + 1 && at < |run| && (careful ==> NoLateRemoval(run, moves))
    ensures AllSober(run[at], careful)
  {
    if at == 0 {
      assert run[0].procs == [];
    } else {
      RunIsSober(run, moves, at - 1, target, careful);
      assert careful ==> CarefulMove(run[at - 1], moves[at - 1]);
      TakeKeepsSober(run[at - 1], moves[at - 1], target, careful);
    }
  }

  lemma {:induction false} ActLeavesRemoved(config: Config, p: nat, c: Chance, r: SessionRecord)
    requires p < |config.procs| && AllFit(config) && Checked(Later(config.world, c), config.procs[p].pc, c)
    requires Sober(config.procs[p].pc, true) && Sober(config.procs[p].pc, false)
    requires r in config.world.state.sessions && r.status == Removed
    ensures var found := Lookup(ActOn(config, p, c).world.state.sessions, r.id); found.Some? && found.value.status == Removed
  {
    var w, proc := Later(config.world, c), config.procs[p];
    StepLeavesRemoved(w, proc.env, proc.pc, c, r);
    ActMovesTheWorld(config, p, c);
  }

  lemma {:induction false} ActMovesTheWorld(config: Config, p: nat, c: Chance)
    requires p < |config.procs|
    ensures var w, proc := Later(config.world, c), config.procs[p];
      ActOn(config, p, c).world == Step(w, proc.env, proc.pc, c).0
  {}

  lemma {:induction false} StepLeavesRemoved(w: World, env: string, pc: Pc, c: Chance, r: SessionRecord)
    requires Fit(w, env, pc) && Checked(w, pc, c) && Sober(pc, true) && Sober(pc, false)
    requires r in w.state.sessions && r.status == Removed
    ensures var found := Lookup(Step(w, env, pc, c).0.state.sessions, r.id); found.Some? && found.value.status == Removed
  {
    WhatEndsARemoval(w, env, pc, c, r);
    assert Revives(pc, c, r) ==> !Sober(pc, true);
  }

  lemma {:induction false} TakeLeavesRemoved(config: Config, move: Move, r: SessionRecord, target: SessionId -> string)
    requires AllFit(config) && Orderly(config, move) && Permitted(config, move, target)
    requires AllSober(config, true) && AllSober(config, false) && UniqueIds(config.world.state.sessions)
    requires r in config.world.state.sessions && r.status == Removed
    ensures var found := Lookup(Take(config, move, target).world.state.sessions, r.id);
      && (found.Some? ==> found.value.status == Removed)
      && (!move.OthersWrite? ==> found.Some?)
  {
    FoundAlone(config.world.state.sessions, r);
    if move.Act? {
      ActLeavesRemoved(config, move.p, move.c, r);
    } else if move.OthersWrite? {
      var found := Lookup(move.state.sessions, r.id);
      if found.Some? {
        FoundAlone(config.world.state.sessions, found.value);
      }
    }
  }

  /** The session's record is there, and removed. */
  ghost predicate RemovedIn(config: Config, id: SessionId) {
    var found := Lookup(config.world.state.sessions, id);
    found.Some? && found.value.status == Removed
  }

  /** Unless it is somebody else's write, the move leaves the record of this session there. */
  ghost predicate Keeps(config: Config, move: Move, id: SessionId) {
    move.OthersWrite? ==> Lookup(move.state.sessions, id).Some?
  }

  lemma {:induction false} TakeKeepsRemoved(config: Config, move: Move, id: SessionId, target: SessionId -> string)
    requires AllFit(config) && Orderly(config, move) && Permitted(config, move, target)
    requires AllSober(config, true) && AllSober(config, false)
    requires RemovedIn(config, id) && Keeps(config, move, id)
    ensures RemovedIn(Take(config, move, target), id)
  {
    TakeLeavesRemoved(config, move, Lookup(config.world.state.sessions, id).value, target);
  }

  lemma WhatHoldsAt(run: seq<Config>, moves: seq<Move>, i: nat, target: SessionId -> string, careful: bool)
    requires IsOrderlyRun(run, moves, target) && i < |run| && (careful ==> NoLateRemoval(run, moves))
    ensures AllFit(run[i]) && AllSober(run[i], careful)
  {
    EveryStateIsValid(run, moves, i, target);
    RunIsSober(run, moves, i, target, careful);
  }

  lemma {:induction false} NextKeepsRemoved(run: seq<Config>, moves: seq<Move>, i: nat, id: SessionId, target: SessionId -> string)
    requires IsOrderlyRun(run, moves, target) && i < |moves|
    requires AllFit(run[i]) && AllSober(run[i], true) && AllSober(run[i], false)
    requires RemovedIn(run[i], id) && Keeps(run[i], moves[i], id)
    ensures RemovedIn(run[i + 1], id)
  {
    TakeKeepsRemoved(run[i], moves[i], id, target);
  }

  lemma {:induction false} HoldsOn(holds: nat -> bool, at: nat, later: nat)
    requires at <= later && holds(at) && forall i: nat | at <= i < later :: GoesOn(holds, i)
    ensures holds(later)
    decreases later
  {
    if at < later {
      HoldsOn(holds, at, later - 1);
      assert GoesOn(holds, later - 1);
    }
  }

  predicate GoesOn(holds: nat -> bool, i: nat) { holds(i) ==> holds(i + 1) }

  /** Where no restart reads back a removed reservation, a removed record is there and removed
      at every later moment of any interleaving, until somebody else prunes it. */
  lemma RemovalIsFinal(run: seq<Config>, moves: seq<Move>, at: nat, later: nat, id: SessionId, target: SessionId -> string)
    requires IsOrderlyRun(run, moves, target) && |run| == |moves| + 1 && NoLateRemoval(run, moves) && at <= later < |run|
    requires RemovedIn(run[at], id) && forall i | at <= i < later :: Keeps(run[i], moves[i], id)
    ensures RemovedIn(run[later], id)
  {
    ghost var holds := (i: nat) => i < |run| && RemovedIn(run[i], id);
    forall i: nat | at <= i < later ensures GoesOn(holds, i) {
      if holds(i) {
        assert Keeps(run[i], moves[i], id);
        WhatHoldsAt(run, moves, i, target, true);
        WhatHoldsAt(run, moves, i, target, false);
        NextKeepsRemoved(run, moves, i, id, target);
      }
    }
    HoldsOn(holds, at, later);
  }

  // ---------- No group names what was removed ----------

  /** No group names a session whose record is removed. */
  ghost predicate Forgets(s: State) {
    forall r, g | r in s.sessions && r.status == Removed && g in s.groups :: !Names(g, r.id)
  }

  lemma {:induction false} ReplacingForgets(s: State, at: nat, updated: SessionRecord)
    requires Forgets(s) && at < |s.sessions| && updated.id == s.sessions[at].id
    requires updated.status == Removed ==> s.sessions[at].status == Removed
    ensures Forgets(State(s.sessions[at := updated], s.groups))
  {
    var sessions := s.sessions[at := updated];
    forall r, g | r in sessions && r.status == Removed && g in s.groups ensures !Names(g, r.id) {
      assert r in s.sessions || r == updated;
      assert s.sessions[at] in s.sessions;
    }
  }

  lemma {:induction false} RemovingForgets(s: State, at: nat, removed: SessionRecord)
    requires Forgets(s) && ValidGroups(s.groups) && at < |s.sessions| && removed.id == s.sessions[at].id
    ensures Forgets(State(s.sessions[at := removed], WithoutMembers(s.groups, {removed.id})))
  {
    var sessions, groups := s.sessions[at := removed], WithoutMembers(s.groups, {removed.id});
    ForgettingKeepsGroups(s.groups, {removed.id});
    LeftIsKept(s.groups, {removed.id});
    forall r, g | r in sessions && r.status == Removed && g in groups ensures !Names(g, r.id) {
      assert NamesNone(g, {removed.id});
      var from :| from in s.groups && from.orchestrator !in {removed.id} && g == Kept(from, {removed.id});
      if r.id != removed.id {
        assert r in s.sessions && !Names(from, r.id);
        assert Names(g, r.id) ==> Names(from, r.id);
      }
    }
  }

  lemma {:induction false} SwapForgets(w: World, pc: Pc, c: Chance)
    requires IsSwap(pc) && Valid(w.state) && Forgets(w.state)
    ensures Forgets(SwapStep(w, pc, c).0.state)
  {
    var at := Position(w.state.sessions, pc.snap.id);
    if at < |w.state.sessions| && w.state.sessions[at] == pc.snap {
      if pc.MarkRemoved? {
        RemovingForgets(w.state, at, Replacement(pc, w.now));
      } else {
        ReplacingForgets(w.state, at, Replacement(pc, w.now));
      }
    }
  }

  /** Every step of every operation keeps groups from naming what is removed. */
  lemma {:induction false} StepForgets(w: World, env: string, pc: Pc, c: Chance)
    requires Valid(w.state) && Forgets(w.state) && Sober(pc, false)
    ensures Forgets(Step(w, env, pc, c).0.state)
  {
    if IsSwap(pc) {
      SwapForgets(w, pc, c);
    } else if pc.FinishStop? {
      var at := Position(w.state.sessions, pc.snap.id);
      if at < |w.state.sessions| {
        ReplacingForgets(w.state, at, StoppedRecord(w.state.sessions[at], pc.exitStatus, w.now));
      }
    } else if pc.ActivateFirst? {
      var at := Position(w.state.sessions, pc.id);
      if at < |w.state.sessions| {
        ReplacingForgets(w.state, at, ActivatedRecord(w.state.sessions[at], pc.identity, pc.launched, env, w.now));
      }
    } else if !pc.Insert? && !pc.Retract? {
      OtherStepsWriteNothing(w, env, pc, c);
    }
  }

  lemma {:induction false} TakeForgets(config: Config, move: Move, target: SessionId -> string)
    requires AllFit(config) && AllSober(config, false) && Permitted(config, move, target)
    requires Forgets(config.world.state) && (move.OthersWrite? ==> Forgets(move.state))
    ensures Forgets(Take(config, move, target).world.state)
  {
    if move.Act? {
      var w, proc := Later(config.world, move.c), config.procs[move.p];
      StepForgets(w, proc.env, proc.pc, move.c);
      ActMovesTheWorld(config, move.p, move.c);
    }
  }

  /** Over any interleaving, if everybody else's writes leave it so: no group ever names a
      session whose record is removed. */
  lemma {:induction false} GroupsForgetTheRemoved(run: seq<Config>, moves: seq<Move>, at: nat, target: SessionId -> string)
    requires IsOrderlyRun(run, moves, target) && |run| == |moves| + 1 && at < |run| && Forgets(run[0].world.state)
    requires forall i | 0 <= i < |moves| && moves[i].OthersWrite? :: Forgets(moves[i].state)
    ensures Forgets(run[at].world.state)
  {
    if at > 0 {
      GroupsForgetTheRemoved(run, moves, at - 1, target);
      WhatHoldsAt(run, moves, at - 1, target, false);
      NextForgets(run, moves, at - 1, target);
    }
  }

  lemma {:induction false} NextForgets(run: seq<Config>, moves: seq<Move>, i: nat, target: SessionId -> string)
    requires IsOrderlyRun(run, moves, target) && i < |moves| && AllFit(run[i]) && AllSober(run[i], false)
    requires Forgets(run[i].world.state) && (moves[i].OthersWrite? ==> Forgets(moves[i].state))
    ensures Forgets(run[i + 1].world.state)
  {
    TakeForgets(run[i], moves[i], target);
  }

  // ---------- The removal that does not last ----------

  /** An ended session whose exact command is retained. */
  function Before(): SessionRecord {
    SessionRecord(1, "host", "host", "/", None, None, Some("sh"), None, None, None, Some(7), Ended, 0, 0, Some(0), None, [])
  }

  function Calm(): Chance { Chance(0, false, false, false, 5, 6, 30) }

  const NOWHERE := Backend(map[], map[], 0)

  /** The store holds this one record, time stands still, and these operations are at these points. */
  ghost predicate At(config: Config, r: SessionRecord, b: Backend, pcs: seq<Pc>) {
    && config.world.state == State([r], []) && config.world.backend == b && config.world.now == 0
    && |config.procs| == |pcs|
    && forall p | 0 <= p < |pcs| :: config.procs[p].env == "s" && config.procs[p].pc == pcs[p]
  }

  ghost predicate Reaches(config: Config, move: Move, after: Config, target: SessionId -> string) {
    Permitted(config, move, target) && Orderly(config, move) && after == Take(config, move, target)
  }

  lemma {:induction false} Begins(config: Config, op: Operation, r: SessionRecord, b: Backend, pcs: seq<Pc>, target: SessionId -> string) returns (after: Config)
    requires At(config, r, b, pcs)
    ensures Reaches(config, Begin(op, 1, "s"), after, target) && At(after, r, b, pcs + [Start(op, 1)])
  {
    after := Take(config, Begin(op, 1, "s"), target);
    assert !IsWhitespace("s"[0]) && ByteLength("s") == 1 + ByteLength("");
  }

  lemma {:induction false} Acts(config: Config, p: nat, r: SessionRecord, b: Backend, pcs: seq<Pc>, next: SessionRecord, later: Backend, pc: Pc, target: SessionId -> string)
    returns (after: Config)
    requires At(config, r, b, pcs) && p < |pcs| && !pcs[p].Insert?
    requires var (w, stepped) := Step(config.world, "s", pcs[p], Calm());
      w.state == State([next], []) && w.backend == later && w.now == 0 && stepped == pc
    ensures Reaches(config, Act(p, Calm()), after, target) && At(after, next, later, pcs[p := pc])
  {
    after := ActOn(config, p, Calm());
    assert config.world.(now := config.world.now + 0) == config.world;
  }

  ghost predicate Chain(run: seq<Config>, moves: seq<Move>, target: SessionId -> string) {
    |run| == |moves| + 1 && forall i | 0 <= i < |moves| :: Reaches(run[i], moves[i], run[i + 1], target)
  }

  function Steps(op: Operation, p: nat): seq<Move> { [Begin(op, 1, "s"), Act(p, Calm()), Act(p, Calm()), Act(p, Calm())] }

  lemma {:induction false} Joined(first: seq<Config>, moves: seq<Move>, second: seq<Config>, more: seq<Move>, target: SessionId -> string)
    returns (run: seq<Config>, all: seq<Move>)
    requires Chain(first, moves, target) && Chain(second, more, target) && |first| == |moves| + 1 && |second| == |more| + 1
    requires second[0] == first[|moves|]
    ensures Chain(run, all, target) && |run| == |all| + 1 && |all| == |moves| + |more|
    ensures run[..|first|] == first && run[|moves|..] == second
  {
    run, all := first + second[1..], moves + more;
    forall i | 0 <= i < |all| ensures Reaches(run[i], all[i], run[i + 1], target) {
      if i >= |moves| {
        assert run[i] == second[i - |moves|] && run[i + 1] == second[i - |moves| + 1];
      }
    }
  }

  function Reserved(): SessionRecord { ReservedRecord(Before()) }

  function Closed(): SessionRecord { EndedRecord(Reserved(), None, None, 0) }

  function Gone(): SessionRecord { RemovedRecord(Closed(), 0) }

  /** Three kinds of step over a store of one record and a server without sessions. */
  lemma {:induction false} StepsAlone(w: World, op: Operation, r: SessionRecord, pc: Pc)
    requires w.state == State([r], []) && w.now == 0
    ensures Step(w, "s", Start(op, r.id), Calm()) == (w, AfterRead(op, Some(r)))
    ensures w.backend == NOWHERE && r.proof.Some? ==> Step(w, "s", Inspecting(op, r), Calm()) == (w, AfterInspect(op, r, Missing))
    ensures IsSwap(pc) && pc.snap == r && !pc.MarkStopping? ==>
      Step(w, "s", pc, Calm()) == (w.(state := State([Replacement(pc, 0)], [])), AfterSwap(pc))
  {
    assert Lookup([r], r.id) == Some(r);
    if IsSwap(pc) && pc.snap == r && !pc.MarkStopping? {
      assert Position([r], r.id) == 0;
      assert [r][0 := Replacement(pc, 0)] == [Replacement(pc, 0)];
      assert WithoutMembers([], {r.id}) == [];
    }
  }

  lemma {:induction false} Four(k0: Config, k1: Config, k2: Config, k3: Config, k4: Config, op: Operation, p: nat, target: SessionId -> string) returns (run: seq<Config>)
    requires Reaches(k0, Begin(op, 1, "s"), k1, target) && Reaches(k1, Act(p, Calm()), k2, target)
    requires Reaches(k2, Act(p, Calm()), k3, target) && Reaches(k3, Act(p, Calm()), k4, target)
    ensures run == [k0, k1, k2, k3, k4] && Chain(run, Steps(op, p), target)
  {
    run := [k0, k1, k2, k3, k4];
  }

  /** One operation on the only record, from its beginning to its swap, where no session is. */
  lemma {:induction false} OperationAlone(k0: Config, op: Operation, r: SessionRecord, pcs: seq<Pc>, swap: Pc, target: SessionId -> string) returns (run: seq<Config>)
    requires At(k0, r, NOWHERE, pcs) && r.id == 1 && r.proof.Some?
    requires AfterRead(op, Some(r)) == Inspecting(op, r) && AfterInspect(op, r, Missing) == swap
    requires IsSwap(swap) && swap.snap == r && !swap.MarkStopping?
    ensures Chain(run, Steps(op, |pcs|), target) && |run| == 5 && run[0] == k0
    ensures At(run[4], Replacement(swap, 0), NOWHERE, pcs + [AfterSwap(swap)])
  {
    var p := |pcs|;
    var reading, asking, writing, done := pcs + [Start(op, 1)], pcs + [Inspecting(op, r)], pcs + [swap], pcs + [AfterSwap(swap)];
    assert reading[p := asking[p]] == asking && asking[p := swap] == writing && writing[p := done[p]] == done;
    var k1 := Begins(k0, op, r, NOWHERE, pcs, target);
    StepsAlone(k1.world, op, r, swap);
    var k2 := Acts(k1, p, r, NOWHERE, reading, r, NOWHERE, Inspecting(op, r), target);
    StepsAlone(k2.world, op, r, swap);
    var k3 := Acts(k2, p, r, NOWHERE, asking, r, NOWHERE, swap, target);
    StepsAlone(k3.world, op, r, swap);
    var k4 := Acts(k3, p, r, NOWHERE, writing, Replacement(swap, 0), NOWHERE, AfterSwap(swap), target);
    run := Four(k0, k1, k2, k3, k4, op, p, target);
  }

  function Launched(): Backend { Created(NOWHERE, Place(Server("host", "s"), 1), 7, 5, 6) }

  function Promoting(): Pc { Promote(Gone(), 5, Some(6), Some("s"), AuditAction.Activate) }

  function Revived(): SessionRecord { PromotedRecord(Gone(), 5, Some(6), Some("s"), 0) }

  function ReloadedNote(): Pc {
    Noting(Entry(Gone(), AuditAction.Restart, Some(Ended), Creating, Gone().tmuxSession, Gone().exitStatus), LaunchAgain(Gone(), 7))
  }

  /** The restart reads the removed record back without looking at its status. */
  lemma {:induction false} RestartReloads(k0: Config, pcs: seq<Pc>, target: SessionId -> string) returns (run: seq<Config>)
    requires At(k0, Gone(), NOWHERE, pcs) && |pcs| == 3 && pcs[0] == Reload(Before())
    ensures Chain(run, [Act(0, Calm()), Act(0, Calm())], target) && |run| == 3 && run[0] == k0
    ensures At(run[2], Gone(), NOWHERE, pcs[0 := LaunchAgain(Gone(), 7)])
  {
    var k1 := Acts(k0, 0, Gone(), NOWHERE, pcs, Gone(), NOWHERE, ReloadedNote(), target);
    var k2 := Acts(k1, 0, Gone(), NOWHERE, pcs[0 := ReloadedNote()], Gone(), NOWHERE, LaunchAgain(Gone(), 7), target);
    run := [k0, k1, k2];
  }

  /** So it launches the command again, and promotes the record it read. */
  lemma {:induction false} RestartRevives(k0: Config, pcs: seq<Pc>, target: SessionId -> string) returns (run: seq<Config>, after: seq<Pc>)
    requires At(k0, Gone(), NOWHERE, pcs) && |pcs| == 3 && pcs[0] == LaunchAgain(Gone(), 7)
    ensures Chain(run, [Act(0, Calm()), Act(0, Calm())], target) && |run| == 3 && run[0] == k0
    ensures At(run[2], Revived(), Launched(), after)
  {
    var k1 := Acts(k0, 0, Gone(), NOWHERE, pcs, Gone(), Launched(), Promoting(), target);
    after := pcs[0 := AfterSwap(Promoting())];
    assert pcs[0 := Promoting()][0 := AfterSwap(Promoting())] == after;
    var k2 := Acts(k1, 0, Gone(), Launched(), pcs[0 := Promoting()], Revived(), Launched(), AfterSwap(Promoting()), target);
    run := [k0, k1, k2];
  }

  lemma {:induction false} ChainsAreRuns(run: seq<Config>, moves: seq<Move>, target: SessionId -> string)
    requires Chain(run, moves, target) && target(1) == "host"
    requires run[0] == First()
    ensures IsOrderlyRun(run, moves, target)
  {
    BeforeIsValid();
    forall i | 0 <= i < |moves|
      ensures Permitted(run[i], moves[i], target) && run[i + 1] == Take(run[i], moves[i], target) && Orderly(run[i], moves[i])
    {
      assert Reaches(run[i], moves[i], run[i + 1], target);
    }
  }

  function First(): Config { Config(World(State([Before()], []), NOWHERE, [], 0), [], []) }

  /** A restart reserves; an observation ends the reservation, and a removal removes it. */
  lemma {:induction false} ReservedThenRemoved(target: SessionId -> string) returns (run: seq<Config>, moves: seq<Move>, pcs: seq<Pc>)
    ensures Chain(run, moves, target) && |moves| == 12 && |run| == 13 && run[0] == First()
    ensures At(run[12], Gone(), NOWHERE, pcs) && |pcs| == 3 && pcs[0] == Reload(Before())
  {
    var ending, before, two := ReservedThenEnded(target);
    var removing := OperationAlone(ending[8], ToRemove, Closed(), two, MarkRemoved(Closed()), target);
    pcs := two + [AfterSwap(MarkRemoved(Closed()))];
    run, moves := Joined(ending, before, removing, Steps(ToRemove, 2), target);
  }

  lemma {:induction false} ReservedThenEnded(target: SessionId -> string) returns (run: seq<Config>, moves: seq<Move>, pcs: seq<Pc>)
    ensures Chain(run, moves, target) && |moves| == 8 && |run| == 9 && run[0] == First()
    ensures At(run[8], Closed(), NOWHERE, pcs) && |pcs| == 2 && pcs[0] == Reload(Before())
  {
    var reserving := OperationAlone(First(), ToRestart, Before(), [], Reserve(Before()), target);
    var one := [AfterSwap(Reserve(Before()))];
    var ending := OperationAlone(reserving[4], ToObserve, Reserved(), one, MarkEnded(Reserved(), None, None), target);
    pcs := one + [AfterSwap(MarkEnded(Reserved(), None, None))];
    run, moves := Joined(reserving, Steps(ToRestart, 0), ending, Steps(ToObserve, 1), target);
  }

  lemma {:induction false} ReloadedThenRevived(k0: Config, pcs: seq<Pc>, target: SessionId -> string) returns (run: seq<Config>, moves: seq<Move>)
    requires At(k0, Gone(), NOWHERE, pcs) && |pcs| == 3 && pcs[0] == Reload(Before())
    ensures Chain(run, moves, target) && |moves| == 4 && |run| == 5 && run[0] == k0
    ensures run[4].world.state.sessions == [Revived()]
  {
    var twice := [Act(0, Calm()), Act(0, Calm())];
    var reloading := RestartReloads(k0, pcs, target);
    var reviving, last := RestartRevives(reloading[2], pcs[0 := LaunchAgain(Gone(), 7)], target);
    run, moves := Joined(reloading, twice, reviving, twice, target);
  }

  /** Without that care the promise fails: a restart, an observation and a removal can
      interleave so that a record is removed at one moment and running at a later one. */
  lemma {:induction false} RemovalCanBeUndone() returns (run: seq<Config>, moves: seq<Move>, target: SessionId -> string)
    ensures IsOrderlyRun(run, moves, target) && |run| == 17
    ensures run[12].world.state.sessions == [Gone()] && Gone().status == Removed
    ensures run[16].world.state.sessions == [Revived()] && Revived().status == Running && Revived().id == Gone().id
  {
    target := id => "host";
    var removing, before, pcs := ReservedThenRemoved(target);
    var reviving, later := ReloadedThenRevived(removing[12], pcs, target);
    run, moves := Joined(removing, before, reviving, later, target);
    assert run[12] == run[12..][0] && run[16] == run[12..][4] && run[0] == run[..13][0];
    ChainsAreRuns(run, moves, target);
  }

  lemma BeforeIsValid()
    ensures Valid(State([Before()], []))
  {
    var r := Before();
    assert !IsWhitespace(r.host[0]) && !IsWhitespace(r.directory[0]);
    assert ByteLength("host") == 4 by {
      assert "host"[1..] == "ost" && "ost"[1..] == "st" && "st"[1..] == "t" && "t"[1..] == "";
    }
    assert ByteLength("/") == 1 && ByteLength("sh") == 2 by { assert "/"[1..] == "" && "sh"[1..] == "h" && "h"[1..] == ""; }
  }
}
