/** What state validation (src/state.rs) has to say about lifecycle writes: as long as the
    clock has not gone back behind a record's creation, it never refuses one. */
module Validity {
  import opened Common
  import opened Records
  import opened Tmux
  import opened Audit
  import opened Lifecycle
  import opened KillSafety

  // ---------- Groups that forget removed sessions ----------

  ghost predicate Names(g: Group, id: SessionId) {
    g.orchestrator == id || exists m | m in g.workers :: m.session == id
  }

  ghost predicate NamesNone(g: Group, ids: set<SessionId>) {
    forall id | id in ids :: !Names(g, id)
  }

  ghost predicate ValidGroups(groups: seq<Group>) {
    && |groups| <= MAX_GROUPS
    && Distinct(Map(groups, GroupId))
    && (forall g | g in groups :: ValidGroup(g))
    && Distinct(Memberships(groups))
  }

  lemma {:induction false} DistinctParts<T>(a: seq<T>, b: seq<T>)
    ensures Distinct(a + b) <==> Distinct(a) && Distinct(b) && forall x | x in a :: x !in b
  {
    if Distinct(a + b) {
      forall x | x in a ensures x !in b {
        var i :| 0 <= i < |a| && a[i] == x;
        forall j | 0 <= j < |b| ensures b[j] != x { assert (a + b)[i] != (a + b)[|a| + j]; }
      }
      forall i, j | 0 <= i < j < |a| ensures a[i] != a[j] { assert (a + b)[i] != (a + b)[j]; }
      forall i, j | 0 <= i < j < |b| ensures b[i] != b[j] { assert (a + b)[|a| + i] != (a + b)[|a| + j]; }
    } else {
      var i, j :| 0 <= i < j < |a + b| && (a + b)[i] == (a + b)[j];
      if j < |a| || i >= |a| {
        assert !Distinct(if j < |a| then a else b);
      } else {
        assert a[i] in a && b[j - |a|] == a[i];
      }
    }
  }

  function Kept(g: Group, removed: set<SessionId>): Group {
    g.(workers := Filter(g.workers, (m: Member) => m.session !in removed))
  }

  lemma {:induction false} KeptIsValid(g: Group, removed: set<SessionId>)
    requires ValidGroup(g)
    ensures ValidGroup(Kept(g, removed))
    ensures g.orchestrator !in removed ==> NamesNone(Kept(g, removed), removed)
  {
    FilterKeepsDistinct(g.workers, (m: Member) => m.session !in removed, MemberSession);
  }

  /** Forgetting removed sessions only takes groups and memberships away. */
  lemma {:induction false} ForgettingOnlyTakes(groups: seq<Group>, removed: set<SessionId>)
    requires Distinct(Map(groups, GroupId)) && Distinct(Memberships(groups))
    ensures var after := WithoutMembers(groups, removed);
      && |after| <= |groups|
      && Distinct(Map(after, GroupId)) && (forall x | x in Map(after, GroupId) :: x in Map(groups, GroupId))
      && Distinct(Memberships(after)) && (forall m | m in Memberships(after) :: m in Memberships(groups))
  {
    if groups != [] {
      var g, rest := groups[0], groups[1..];
      var after := WithoutMembers(rest, removed);
      assert Map(groups, GroupId) == [g.id] + Map(rest, GroupId);
      DistinctParts([g.id], Map(rest, GroupId));
      DistinctParts(Map(g.workers, MemberEpoch), Memberships(rest));
      ForgettingOnlyTakes(rest, removed);
      if g.orchestrator !in removed {
        var kept := Kept(g, removed);
        FilterKeepsDistinct(g.workers, (m: Member) => m.session !in removed, MemberEpoch);
        assert Map([kept] + after, GroupId) == [g.id] + Map(after, GroupId);
        DistinctParts([g.id], Map(after, GroupId));
        var epochs := Map(kept.workers, MemberEpoch);
        forall m | m in epochs ensures m in Map(g.workers, MemberEpoch) {
          var i :| 0 <= i < |epochs| && epochs[i] == m;
          assert kept.workers[i] in g.workers;
          var j :| 0 <= j < |g.workers| && g.workers[j] == kept.workers[i];
          assert Map(g.workers, MemberEpoch)[j] == m;
        }
        assert Memberships([kept] + after) == epochs + Memberships(after) by {
          assert ([kept] + after)[1..] == after;
        }
        DistinctParts(epochs, Memberships(after));
      }
    }
  }

  /** The groups left are those led by somebody else, each with its other workers. */
  lemma {:induction false} LeftIsKept(groups: seq<Group>, removed: set<SessionId>)
    ensures forall g | g in WithoutMembers(groups, removed) :: exists from :: from in groups && from.orchestrator !in removed && g == Kept(from, removed)
    ensures forall g | g in groups && g.orchestrator !in removed :: Kept(g, removed) in WithoutMembers(groups, removed)
  {
    var led := Filter(groups, (g: Group) => g.orchestrator !in removed);
    var after := WithoutMembers(groups, removed);
    forall i | 0 <= i < |after| ensures led[i] in groups && led[i].orchestrator !in removed && after[i] == Kept(led[i], removed) {
      assert led[i] in led;
    }
    forall g | g in groups && g.orchestrator !in removed ensures Kept(g, removed) in after {
      assert g in led;
      var i :| 0 <= i < |led| && led[i] == g;
      assert after[i] == Kept(g, removed);
    }
  }

  /** Groups stay valid when they forget removed sessions, name none of them any more, and
      every group led by somebody else keeps exactly its other workers, in order. */
  lemma {:induction false} ForgettingKeepsGroups(groups: seq<Group>, removed: set<SessionId>)
    requires ValidGroups(groups)
    ensures ValidGroups(WithoutMembers(groups, removed))
    ensures forall g | g in WithoutMembers(groups, removed) :: NamesNone(g, removed)
    ensures forall g | g in groups && g.orchestrator !in removed :: Kept(g, removed) in WithoutMembers(groups, removed)
  {
    ForgettingOnlyTakes(groups, removed);
    LeftIsKept(groups, removed);
    forall g | g in WithoutMembers(groups, removed) ensures ValidGroup(g) && NamesNone(g, removed) {
      var from :| from in groups && from.orchestrator !in removed && g == Kept(from, removed);
      KeptIsValid(from, removed);
    }
  }

  // ---------- One record ----------

  /** The writes that stamp the present moment into a record. */
  predicate Stamps(pc: Pc) {
    pc.MarkOpened? || pc.Promote? || pc.MarkRemoved? || (pc.MarkEnded? && pc.snap.closedAt.None?)
  }

  /** A swap of a valid record writes a valid record exactly when the clock is not behind the
      record's creation wherever the swap reads it, and a promotion's socket is a usable name. */
  lemma ReplacementIsValid(pc: Pc, now: Instant)
    requires IsSwap(pc) && ValidRecord(pc.snap) && !(pc.MarkStopping? && IsClosed(pc.snap.status))
    ensures ValidRecord(Replacement(pc, now)) <==>
      (Stamps(pc) ==> pc.snap.createdAt <= now) && (pc.Promote? && pc.socket.Some? ==> ValidText(pc.socket.value))
  {
    match pc
    case MarkEnded(snap, found, status) =>
      JudgedIsValid(snap.(status := Ended, tmuxSession := found.Or(snap.tmuxSession), closedAt := Some(snap.closedAt.GetOr(now)), exitStatus := status), now);
    case _ =>
  }

  lemma JudgedIsValid(r: SessionRecord, now: Instant)
    requires |r.immediateFailures| <= MAX_IMMEDIATE_FAILURES
    ensures ValidRecord(Judged(r, now)) <==> ValidRecord(r)
  {}

  lemma StoppedIsValid(r: SessionRecord, status: Option<int>, now: Instant)
    requires ValidRecord(r)
    ensures ValidRecord(StoppedRecord(r, status, now)) <==> r.createdAt <= now
  {
    JudgedIsValid(r.(status := Ended, closedAt := Some(now), exitStatus := status), now);
  }

  lemma OneLetterIsText(s: string)
    requires |s| == 1 && !IsWhitespace(s[0])
    ensures ValidText(s)
  {
    assert s[1..] == "" && ByteLength(s) == Utf8Width(s[0]) + ByteLength(s[1..]);
  }

  /** A record created after what the clock says now: the writes of a removal, of a promotion
      and of a stop's end make it invalid, and validation turns their states away. */
  lemma {:induction false} ClockBehindCreation() returns (r: SessionRecord, now: Instant)
    ensures Valid(State([r], [])) && now < r.createdAt
    ensures var removal, promotion, end := RemovedRecord(r, now), PromotedRecord(r, 1, None, None, now), StoppedRecord(r, None, now);
      !Valid(State([removal], [])) && !Valid(State([promotion], [])) && !Valid(State([end], []))
  {
    r, now := SessionRecord(1, "h", "h", "/", None, None, Some("c"), None, None, None, Some(7), Ended, 9, 9, Some(9), None, []), 0;
    OneLetterIsText("h");
    OneLetterIsText("/");
    assert ByteLength("c") <= 4 + ByteLength("c"[1..]) && "c"[1..] == "";
    StoppedIsValid(r, None, now);
    ReplacementIsValid(MarkRemoved(r), now);
    ReplacementIsValid(Promote(r, 1, None, None, AuditAction.Observed), now);
    assert RemovedRecord(r, now) in [RemovedRecord(r, now)] && PromotedRecord(r, 1, None, None, now) in [PromotedRecord(r, 1, None, None, now)]
        && StoppedRecord(r, None, now) in [StoppedRecord(r, None, now)];
  }

  // ---------- Whole states ----------

  lemma {:induction false} ReplacingKeepsIds(sessions: seq<SessionRecord>, at: nat, updated: SessionRecord)
    requires at < |sessions| && updated.id == sessions[at].id && UniqueIds(sessions)
    ensures UniqueIds(sessions[at := updated])
  {
    assert Map(sessions[at := updated], RecordId) == Map(sessions, RecordId);
  }

  lemma {:induction false} ReplacingKeepsValid(s: State, at: nat, updated: SessionRecord, groups: seq<Group>)
    requires Valid(s) && at < |s.sessions| && updated.id == s.sessions[at].id && ValidRecord(updated) && ValidGroups(groups)
    ensures Valid(State(s.sessions[at := updated], groups))
  {
    ReplacingKeepsIds(s.sessions, at, updated);
  }

  ghost predicate Past(s: State, now: Instant) {
    forall r | r in s.sessions :: r.createdAt <= now
  }

  /** A promotion names the socket its record names, or the one this process resolves. */
  predicate Tidy(env: string, pc: Pc) {
    match pc
    case Promote(snap, _, _, socket, _) => socket == snap.tmuxSocket || socket == Some(env)
    case Noting(_, next) => Tidy(env, next)
    case _ => true
  }

  /** What holds between steps. */
  ghost predicate Fit(w: World, env: string, pc: Pc) {
    Valid(w.state) && Past(w.state, w.now) && ValidText(env) && Tidy(env, pc)
  }

  /** An insertion is the one write that validation may refuse, and then it writes nothing. */
  ghost predicate Checked(w: World, pc: Pc, c: Chance) {
    pc.Insert? && !(c.fault && !c.takesEffect) ==> Valid(InsertStep(w, pc, c.(fault := false)).0.state)
  }

  lemma {:induction false} SwapIsFit(w: World, env: string, pc: Pc)
    requires Fit(w, env, pc) && IsSwap(pc) && pc.snap in w.state.sessions && !(pc.MarkStopping? && IsClosed(pc.snap.status))
    ensures var r := Replacement(pc, w.now);
      r.id == pc.snap.id && r.createdAt == pc.snap.createdAt && ValidRecord(r) && Tidy(env, AfterSwap(pc))
    ensures ValidGroups(w.state.groups) && ValidGroups(WithoutMembers(w.state.groups, {pc.snap.id}))
  {
    ForgettingKeepsGroups(w.state.groups, {pc.snap.id});
    SwapIsValid(w.now, env, pc);
  }

  lemma {:induction false} SwapIsValid(now: Instant, env: string, pc: Pc)
    requires IsSwap(pc) && !(pc.MarkStopping? && IsClosed(pc.snap.status))
    requires ValidRecord(pc.snap) && pc.snap.createdAt <= now && ValidText(env) && Tidy(env, pc)
    ensures ValidRecord(Replacement(pc, now)) && Tidy(env, AfterSwap(pc))
  {
    ReplacementIsValid(pc, now);
    assert AfterSwap(pc).Noting? ==> Tidy(env, AfterSwap(pc).next);
  }

  lemma {:induction false} SwapKeepsFit(w: World, env: string, pc: Pc, c: Chance)
    requires Fit(w, env, pc) && IsSwap(pc)
    ensures var (after, next) := SwapStep(w, pc, c); Fit(after, env, next)
  {
    var at := Position(w.state.sessions, pc.snap.id);
    if at < |w.state.sessions| && w.state.sessions[at] == pc.snap && !(pc.MarkStopping? && IsClosed(pc.snap.status)) {
      SwapIsFit(w, env, pc);
      var groups := if pc.MarkRemoved? then WithoutMembers(w.state.groups, {pc.snap.id}) else w.state.groups;
      WriteKeepsFit(w, env, c, at, Replacement(pc, w.now), groups, pc, AfterSwap(pc));
      assert SwapStep(w, pc, c) == WriteAt(w, c, at, Replacement(pc, w.now), groups, AfterSwap(pc));
    } else {
      assert SwapStep(w, pc, c) == (w, Failed);
    }
  }

  lemma {:induction false} WriteKeepsFit(w: World, env: string, c: Chance, at: nat, updated: SessionRecord, groups: seq<Group>, pc: Pc, next: Pc)
    requires Fit(w, env, pc) && Tidy(env, next) && at < |w.state.sessions|
    requires updated.id == w.state.sessions[at].id && updated.createdAt == w.state.sessions[at].createdAt
    requires ValidRecord(updated) && ValidGroups(groups)
    ensures var (after, reached) := WriteAt(w, c, at, updated, groups, next); Fit(after, env, reached)
  {
    ReplacingKeepsValid(w.state, at, updated, groups);
    assert w.state.sessions[at] in w.state.sessions;
  }

  lemma {:induction false} RetractKeepsValid(s: State, keep: SessionRecord -> bool)
    requires Valid(s)
    ensures Valid(State(Filter(s.sessions, keep), s.groups))
  {
    FilterKeepsDistinct(s.sessions, keep, RecordId);
  }

  lemma {:induction false} FinishKeepsFit(w: World, env: string, pc: Pc, c: Chance)
    requires Fit(w, env, pc) && pc.FinishStop?
    ensures var (after, next) := FinishStopStep(w, pc, c); Fit(after, env, next)
  {
    var at := Position(w.state.sessions, pc.snap.id);
    if at == |w.state.sessions| || w.state.sessions[at].target != pc.snap.target {
      assert FinishStopStep(w, pc, c) == (w, Failed);
    } else if w.state.sessions[at].status == Ended {
      assert Tidy(env, FinishedNote(pc).next);
      assert FinishStopStep(w, pc, c) == (w, FinishedNote(pc));
    } else if w.state.sessions[at].status != SessionStatus.Stopping {
      assert FinishStopStep(w, pc, c) == (w, Failed);
    } else {
      var current := w.state.sessions[at];
      assert current in w.state.sessions && Tidy(env, FinishedNote(pc).next);
      StoppedIsValid(current, pc.exitStatus, w.now);
      WriteKeepsFit(w, env, c, at, StoppedRecord(current, pc.exitStatus, w.now), w.state.groups, pc, FinishedNote(pc));
    }
  }

  lemma {:induction false} ActivateKeepsFit(w: World, env: string, pc: Pc, c: Chance)
    requires Fit(w, env, pc) && pc.ActivateFirst?
    ensures var (after, next) := ActivateStep(w, env, pc, c); Fit(after, env, next)
  {
    var at := Position(w.state.sessions, pc.id);
    if at < |w.state.sessions| && w.state.sessions[at].status == Creating && w.state.sessions[at].tmuxSession.None? {
      var current := w.state.sessions[at];
      assert current in w.state.sessions;
      var note := Noting(Entry(current, AuditAction.Activate, Some(Creating), Running, Some(pc.identity), None), Finished);
      assert Tidy(env, note);
      WriteKeepsFit(w, env, c, at, ActivatedRecord(current, pc.identity, pc.launched, env, w.now), w.state.groups, pc, note);
    }
  }

  lemma {:induction false} InsertKeepsFit(w: World, env: string, pc: Pc, c: Chance)
    requires Fit(w, env, pc) && pc.Insert? && Checked(w, pc, c)
    ensures var (after, next) := InsertStep(w, pc, c); Fit(after, env, next)
  {
    var (after, next) := InsertStep(w, pc, c);
    assert next.Noting? ==> Tidy(env, next.next);
  }

  lemma {:induction false} OtherStepsKeepTidy(w: World, env: string, pc: Pc, c: Chance)
    requires Tidy(env, pc) && !IsSwap(pc)
    requires !pc.Insert? && !pc.FinishStop? && !pc.ActivateFirst? && !pc.Retract?
    ensures var (after, next) := Step(w, env, pc, c); Tidy(env, next) && after.state == w.state && after.now == w.now
  {
    if pc.Reload? {
      var next := ReloadStep(w, pc, c);
      assert next.Noting? ==> Tidy(env, next.next);
    }
  }

  /** No step but an insertion ever leaves an invalid state for validation to refuse. */
  lemma {:induction false} StepKeepsFit(w: World, env: string, pc: Pc, c: Chance)
    requires Fit(w, env, pc) && Checked(w, pc, c)
    ensures var (after, next) := Step(w, env, pc, c); Fit(after, env, next)
  {
    if IsSwap(pc) {
      SwapKeepsFit(w, env, pc, c);
    } else if pc.Insert? {
      InsertKeepsFit(w, env, pc, c);
    } else if pc.FinishStop? {
      FinishKeepsFit(w, env, pc, c);
    } else if pc.ActivateFirst? {
      ActivateKeepsFit(w, env, pc, c);
    } else if pc.Retract? {
      RetractKeepsValid(w.state, (r: SessionRecord) => r.id != pc.id || r.status != Creating || r.tmuxSession.Some?);
    } else {
      OtherStepsKeepTidy(w, env, pc, c);
    }
  }

  // ---------- Every interleaving ----------

  /** Processes resolve usable sockets, everyone else saves valid states, and an insertion
      is checked like any other write. */
  ghost predicate Orderly(config: Config, move: Move) {
    match move
    case Begin(_, _, env) => ValidText(env)
    case BeginCreate(_, env) => ValidText(env)
    case Act(p, c) => p < |config.procs| && Checked(Later(config.world, c), config.procs[p].pc, c)
    case OthersWrite(state) => Valid(state)
    case _ => true
  }

  ghost predicate AllFit(config: Config) {
    && Valid(config.world.state) && Past(config.world.state, config.world.now)
    && forall p | 0 <= p < |config.procs| :: Fit(config.world, config.procs[p].env, config.procs[p].pc)
  }

  ghost predicate IsOrderlyRun(run: seq<Config>, moves: seq<Move>, target: SessionId -> string) {
    && IsRun(run, moves, target)
    && Valid(run[0].world.state) && Past(run[0].world.state, run[0].world.now)
    && forall i | 0 <= i < |moves| :: Orderly(run[i], moves[i])
  }

  lemma {:induction false} ActKeepsFit(config: Config, p: nat, c: Chance)
    requires AllFit(config) && Orderly(config, Act(p, c))
    ensures AllFit(ActOn(config, p, c))
  {
    var w, proc := Later(config.world, c), config.procs[p];
    var (after, next) := Step(w, proc.env, proc.pc, c);
    assert Fit(w, proc.env, proc.pc);
    StepKeepsFit(w, proc.env, proc.pc, c);
    assert Fit(after, proc.env, next);
    forall q | 0 <= q < |config.procs| && q != p ensures Fit(after, config.procs[q].env, config.procs[q].pc) {}
  }

  lemma {:induction false} TakeKeepsFit(config: Config, move: Move, target: SessionId -> string)
    requires AllFit(config) && Orderly(config, move) && Permitted(config, move, target)
    ensures AllFit(Take(config, move, target))
  {
    if move.Act? {
      ActKeepsFit(config, move.p, move.c);
    }
  }

  /** In every interleaving of any number of operations, whatever fails, the stored state is
      valid at every moment: validation never turns a lifecycle write away. */
  lemma {:induction false} EveryStateIsValid(run: seq<Config>, moves: seq<Move>, at: nat, target: SessionId -> string)
    requires IsOrderlyRun(run, moves, target) && at < |run|
    ensures AllFit(run[at])
  {
    if at > 0 {
      EveryStateIsValid(run, moves, at - 1, target);
      TakeKeepsFit(run[at - 1], moves[at - 1], target);
    }
  }
}
