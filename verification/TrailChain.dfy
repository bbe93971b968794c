/** Without crashes, failed writes or overlap, the trail tells one connected story about every
    session, and the story ends where the record is. */
module TrailChain {
  import opened Common
  import opened Records
  import opened Tmux
  import opened Audit
  import opened Lifecycle
  import opened SingleIncarnation

  /** What the trail retains about one session. */
  function Line(trail: seq<AuditEntry>, id: SessionId): seq<AuditEntry> {
    Filter(trail, (e: AuditEntry) => e.session == id)
  }

  /** Each transition starts where the one before it ended. */
  ghost predicate Linked(line: seq<AuditEntry>) {
    forall i | 0 <= i < |line| - 1 :: line[i + 1].from == Some(line[i].to)
  }

  /** The line ends at this status, or retention has emptied it. */
  ghost predicate EndsAt(line: seq<AuditEntry>, status: SessionStatus) {
    line != [] ==> line[|line| - 1].to == status
  }

  ghost predicate Chained(w: World) {
    && InOrder(w.trail)
    && (forall e | e in w.trail :: e.at <= w.now)
    && (forall id :: Linked(Line(w.trail, id)))
  }

  /** Whether the operation in progress still owes the trail a line about this session. */
  predicate Owes(pc: Pc, id: SessionId) {
    (pc.Noting? && pc.entry.session == id) || (pc.Reload? && pc.snap.id == id)
  }

  ghost predicate UpToDate(w: World, pc: Pc) {
    forall r | r in w.state.sessions && !Owes(pc, r.id) :: EndsAt(Line(w.trail, r.id), r.status)
  }

  ghost predicate AllAt(w: World, id: SessionId, status: SessionStatus) {
    forall r | r in w.state.sessions && r.id == id :: r.status == status
  }

  /** What an operation may rely on about the statuses of its own record. */
  ghost predicate Steady(w: World, pc: Pc)
    decreases pc
  {
    match pc
    case Insert(record) => record.status == Creating && Line(w.trail, record.id) == [] && forall r | r in w.state.sessions :: r.id != record.id
    case Inspecting(_, snap) => snap.proof.Some?
    case Reinspecting(op, snap, _) => snap.proof.Some? && (op == ToStop ==> AllAt(w, snap.id, SessionStatus.Stopping))
    case Killing(op, snap, _, _) => snap.proof.Some? && (op == ToStop ==> AllAt(w, snap.id, SessionStatus.Stopping))
    case MarkStopping(snap, _) => snap.proof.Some?
    case MarkOpened(snap, _) => snap.proof.Some?
    case FinishStop(snap, _, _) => AllAt(w, snap.id, SessionStatus.Stopping)
    case Promote(snap, _, _, _, action) => action.Activate? ==> snap.status == Creating
    case Reserve(snap) => snap.proof.Some?
    case Reload(snap) => snap.proof.Some? && AllAt(w, snap.id, Creating) && EndsAt(Line(w.trail, snap.id), snap.status)
    case LaunchAgain(r, _) => r.status == Creating
    case Noting(entry, next) =>
      && AllAt(w, entry.session, entry.to)
      && (if entry.from.None? then Line(w.trail, entry.session) == [] else EndsAt(Line(w.trail, entry.session), entry.from.value))
      && !next.Insert? && !next.Noting? && !next.Reload? && Steady(w, next)
    case _ => true
  }

  ghost predicate Telling(w: World, pc: Pc) {
    OneRecordEach(w.state.sessions) && Chained(w) && UpToDate(w, pc) && Steady(w, pc)
  }

  /** No write fails and the trail can be read; a transport may fail, and the backend refuse. */
  ghost predicate Smooth(t: Turn, move: Move) {
    match move
    case Begin(_, _) => t.pc == Finished || t.pc == Failed
    case BeginCreate(record) =>
      && (t.pc == Finished || t.pc == Failed) && record.status == Creating
      && Line(t.world.trail, record.id) == [] && (forall r | r in t.world.state.sessions :: r.id != record.id)
    case Act(c) =>
      && (c.fault ==> t.pc.Start? || t.pc.Inspecting? || t.pc.Reinspecting? || t.pc.Killing? || t.pc.LaunchAgain? || t.pc.LaunchFirst?)
      && (c.unreadable ==> !t.pc.Noting?)
    case Forget(state) =>
      && (t.pc == Finished || t.pc == Failed)
      && OneRecordEach(state.sessions) && forall r | r in state.sessions :: r in t.world.state.sessions
    case _ => true
  }

  ghost predicate IsSmoothRun(run: seq<Turn>, moves: seq<Move>, home: Home) {
    && |run| == |moves| + 1
    && Telling(run[0].world, run[0].pc) && run[0].pc == Finished
    && forall i | 0 <= i < |moves| :: Smooth(run[i], moves[i]) && run[i + 1] == Take(run[i], moves[i], home)
  }

  // ---------- Lines under retention ----------

  lemma {:induction false} LineOfOneMore(trail: seq<AuditEntry>, e: AuditEntry, id: SessionId)
    ensures Line(trail + [e], id) == Line(trail, id) + (if e.session == id then [e] else [])
  {
    if trail == [] {
      assert [] + [e] == [e];
    } else {
      assert (trail + [e])[1..] == trail[1..] + [e];
      LineOfOneMore(trail[1..], e, id);
    }
  }

  lemma {:induction false} LineOfSuffix(trail: seq<AuditEntry>, dropped: nat, id: SessionId) returns (k: nat)
    requires dropped <= |trail|
    ensures k <= |Line(trail, id)| && Line(trail[dropped..], id) == Line(trail, id)[k..]
  {
    if dropped == 0 {
      assert trail[0..] == trail;
      k := 0;
    } else {
      assert trail[dropped..] == trail[1..][dropped - 1..];
      k := LineOfSuffix(trail[1..], dropped - 1, id);
      if trail[0].session == id { k := k + 1; }
    }
  }

  lemma {:induction false} GrowingKeepsLinks(line: seq<AuditEntry>, e: AuditEntry)
    requires Linked(line) && (line == [] || e.from == Some(line[|line| - 1].to))
    ensures Linked(line + [e]) && EndsAt(line + [e], e.to)
  {}

  /** Noting an entry that continues the line keeps it linked, whatever retention drops. */
  lemma {:induction false} NotingKeepsLines(trail: seq<AuditEntry>, e: AuditEntry, days: nat, now: Instant, id: SessionId, status: SessionStatus)
    requires InOrder(trail + [e]) && Linked(Line(trail, id)) && (e.session != id ==> EndsAt(Line(trail, id), status))
    requires e.session == id ==> e.to == status && (Line(trail, id) == [] || e.from == Some(Line(trail, id)[|Line(trail, id)| - 1].to))
    ensures var line := Line(RetainBounded(trail + [e], days, now), id); Linked(line) && EndsAt(line, status)
  {
    LineOfOneMore(trail, e, id);
    var longer := Line(trail + [e], id);
    if e.session == id {
      GrowingKeepsLinks(Line(trail, id), e);
    } else {
      assert longer == Line(trail, id);
    }
    var dropped := RetentionDropsAPrefix(trail + [e], days, now);
    var k := LineOfSuffix(trail + [e], dropped, id);
  }

  lemma {:induction false} LinesStayLinked(trail: seq<AuditEntry>, e: AuditEntry, days: nat, now: Instant, id: SessionId)
    requires InOrder(trail + [e]) && Linked(Line(trail, id))
    requires e.session == id ==> Line(trail, id) == [] || e.from == Some(Line(trail, id)[|Line(trail, id)| - 1].to)
    ensures Linked(Line(RetainBounded(trail + [e], days, now), id))
  {
    var line := Line(trail, id);
    var last := if line == [] then e.to else line[|line| - 1].to;
    assert EndsAt(line, last);
    NotingKeepsLines(trail, e, days, now, id, if e.session == id then e.to else last);
  }

  lemma {:induction false} NotingKeepsOrder(trail: seq<AuditEntry>, e: AuditEntry, days: nat, now: Instant)
    requires InOrder(trail) && (forall past | past in trail :: past.at <= now) && e.at == now
    ensures var after := RetainBounded(trail + [e], days, now); InOrder(after) && forall kept | kept in after :: kept.at <= now
  {
    var longer := trail + [e];
    assert InOrder(longer);
    var dropped := RetentionDropsAPrefix(longer, days, now);
  }

  // ---------- One step ----------

  lemma {:induction false} SteadyDespiteTrail(w: World, trail: seq<AuditEntry>, pc: Pc)
    requires Steady(w, pc) && !pc.Insert? && !pc.Noting? && !pc.Reload?
    ensures Steady(w.(trail := trail), pc)
  {}

  /** The entry a pending note will be, once its time is known. */
  ghost predicate Continues(trail: seq<AuditEntry>, e: AuditEntry) {
    var line := Line(trail, e.session);
    line == [] || e.from == Some(line[|line| - 1].to)
  }

  lemma {:induction false} NotingKeepsChains(w: World, e: AuditEntry, days: nat)
    requires Chained(w) && e.at == w.now && Continues(w.trail, e)
    ensures Chained(w.(trail := RetainBounded(w.trail + [e], days, w.now)))
  {
    var after := RetainBounded(w.trail + [e], days, w.now);
    NotingKeepsOrder(w.trail, e, days, w.now);
    assert InOrder(w.trail + [e]);
    forall id ensures Linked(Line(after, id)) {
      LinesStayLinked(w.trail, e, days, w.now, id);
    }
  }

  lemma {:induction false} NotingBringsUpToDate(w: World, e: AuditEntry, days: nat, next: Pc)
    requires Chained(w) && e.at == w.now && Continues(w.trail, e) && AllAt(w, e.session, e.to) && UpToDate(w, Noting(e, next))
    ensures UpToDate(w.(trail := RetainBounded(w.trail + [e], days, w.now)), next)
  {
    var after := RetainBounded(w.trail + [e], days, w.now);
    assert InOrder(w.trail + [e]);
    forall r | r in w.state.sessions ensures EndsAt(Line(after, r.id), r.status) {
      assert r.id != e.session ==> !Owes(Noting(e, next), r.id);
      NotingKeepsLines(w.trail, e, days, w.now, r.id, r.status);
    }
  }

  lemma {:induction false} NoteStepTells(w: World, pc: Pc, c: Chance)
    requires Telling(w, pc) && pc.Noting? && !c.fault && !c.unreadable
    ensures var (after, next) := NoteStep(w, pc, c); Telling(after, next)
  {
    var (after, next) := NoteStep(w, pc, c);
    if pc.entry.from != Some(pc.entry.to) {
      var e := pc.entry.(at := w.now);
      assert UpToDate(w, Noting(e, pc.next));
      NotingKeepsChains(w, e, c.retentionDays);
      NotingBringsUpToDate(w, e, c.retentionDays, pc.next);
      SteadyDespiteTrail(w, after.trail, pc.next);
    }
  }

  lemma {:induction false} WritingTells(w: World, c: Chance, at: nat, updated: SessionRecord, groups: seq<Group>, pc: Pc, next: Pc)
    requires Telling(w, pc) && at < |w.state.sessions| && !pc.Noting? && !pc.Reload? && !c.fault
    requires updated.id == w.state.sessions[at].id
    requires if Owes(next, updated.id) then true else updated.status == w.state.sessions[at].status
    ensures var (after, _) := WriteAt(w, c, at, updated, groups, next);
      && OneRecordEach(after.state.sessions) && Chained(after) && UpToDate(after, next) && after.trail == w.trail
      && AllAt(after, updated.id, updated.status)
    ensures EndsAt(Line(w.trail, updated.id), w.state.sessions[at].status)
  {
    var before, sessions := w.state.sessions, w.state.sessions[at := updated];
    assert before[at] in before;
    forall r | r in sessions && !Owes(next, r.id) ensures EndsAt(Line(w.trail, r.id), r.status) {
      var i :| 0 <= i < |sessions| && sessions[i] == r;
      assert before[i] in before;
    }
    assert sessions[at] == updated;
  }

  lemma {:induction false} AfterSwapIsSteady(w: World, after: World, pc: Pc)
    requires IsSwap(pc) && Steady(w, pc) && !(pc.MarkStopping? && IsClosed(pc.snap.status))
    requires AllAt(after, pc.snap.id, Replacement(pc, w.now).status) && EndsAt(Line(after.trail, pc.snap.id), pc.snap.status)
    ensures Steady(after, AfterSwap(pc))
  {}

  lemma {:induction false} SwapTells(w: World, pc: Pc, c: Chance)
    requires Telling(w, pc) && IsSwap(pc) && !c.fault
    ensures var (after, next) := SwapStep(w, pc, c); Telling(after, next)
  {
    var at := Position(w.state.sessions, pc.snap.id);
    if at < |w.state.sessions| && w.state.sessions[at] == pc.snap && !(pc.MarkStopping? && IsClosed(pc.snap.status)) {
      var updated := Replacement(pc, w.now);
      var groups := if pc.MarkRemoved? then WithoutMembers(w.state.groups, {pc.snap.id}) else w.state.groups;
      WritingTells(w, c, at, updated, groups, pc, AfterSwap(pc));
      var (after, next) := WriteAt(w, c, at, updated, groups, AfterSwap(pc));
      AfterSwapIsSteady(w, after, pc);
      assert SwapStep(w, pc, c) == (after, next);
    }
  }

  lemma {:induction false} NoteIsSteady(w: World, entry: AuditEntry, next: Pc)
    requires AllAt(w, entry.session, entry.to) && (next.Finished? || next.LaunchFirst?)
    requires if entry.from.None? then Line(w.trail, entry.session) == [] else EndsAt(Line(w.trail, entry.session), entry.from.value)
    ensures Steady(w, Noting(entry, next))
  {
    assert Steady(w, next);
  }

  lemma {:induction false} FinishTells(w: World, pc: Pc, c: Chance)
    requires Telling(w, pc) && pc.FinishStop? && !c.fault
    ensures var (after, next) := FinishStopStep(w, pc, c); Telling(after, next)
  {
    var at := Position(w.state.sessions, pc.snap.id);
    if at < |w.state.sessions| && w.state.sessions[at].target == pc.snap.target {
      var current := w.state.sessions[at];
      assert current in w.state.sessions;
      WritingTells(w, c, at, StoppedRecord(current, pc.exitStatus, w.now), w.state.groups, pc, FinishedNote(pc));
      var (after, next) := FinishStopStep(w, pc, c);
      NoteIsSteady(after, FinishedNote(pc).entry, Finished);
    }
  }

  lemma {:induction false} ActivateTells(w: World, env: string, pc: Pc, c: Chance)
    requires Telling(w, pc) && pc.ActivateFirst? && !c.fault
    ensures var (after, next) := ActivateStep(w, env, pc, c); Telling(after, next)
  {
    var at := Position(w.state.sessions, pc.id);
    if at < |w.state.sessions| && w.state.sessions[at].status == Creating && w.state.sessions[at].tmuxSession.None? {
      var current := w.state.sessions[at];
      WritingTells(w, c, at, ActivatedRecord(current, pc.identity, pc.launched, env, w.now), w.state.groups, pc,
                   Noting(Entry(current, AuditAction.Activate, Some(Creating), Running, Some(pc.identity), None), Finished));
      var (after, next) := ActivateStep(w, env, pc, c);
      NoteIsSteady(after, next.entry, Finished);
    }
  }

  lemma {:induction false} InsertTells(w: World, pc: Pc, c: Chance)
    requires Telling(w, pc) && pc.Insert? && !c.fault
    ensures var (after, next) := InsertStep(w, pc, c); Telling(after, next)
  {
    var (after, next) := InsertStep(w, pc, c);
    NoteIsSteady(after, next.entry, next.next);
  }

  lemma {:induction false} RetractTells(w: World, pc: Pc, c: Chance)
    requires Telling(w, pc) && pc.Retract?
    ensures Telling(RetractStep(w, pc, c), Failed)
  {
    var keep := (r: SessionRecord) => r.id != pc.id || r.status != Creating || r.tmuxSession.Some?;
    FilterKeepsDistinct(w.state.sessions, keep, RecordId);
    var kept := Filter(w.state.sessions, keep);
    forall i, j | 0 <= i < j < |kept| ensures kept[i].id != kept[j].id {
      assert Map(kept, RecordId)[i] != Map(kept, RecordId)[j];
    }
  }

  lemma {:induction false} SteadyNeedsNoBackend(w: World, after: World, pc: Pc)
    requires after.state == w.state && after.trail == w.trail
    ensures Steady(after, pc) == Steady(w, pc)
    decreases pc
  {
    if pc.Noting? {
      SteadyNeedsNoBackend(w, after, pc.next);
    }
  }

  lemma {:induction false} StartingIsSteady(w: World, op: Operation, found: Option<SessionRecord>)
    ensures var next := AfterRead(op, found); Steady(w, next) && !next.Noting? && !next.Reload?
  {}

  lemma {:induction false} ReadingTells(w: World, env: string, pc: Pc, c: Chance)
    requires Telling(w, pc)
    requires pc.Start? || pc.Inspecting? || pc.Reinspecting? || pc.Killing? || pc.LaunchAgain? || pc.LaunchFirst?
    ensures var (after, next) := Step(w, env, pc, c); Telling(after, next)
  {
    var (after, next) := Step(w, env, pc, c);
    ReadingIsSteady(w, env, pc, c);
  }

  lemma {:induction false} ReadingIsSteady(w: World, env: string, pc: Pc, c: Chance)
    requires Steady(w, pc)
    requires pc.Start? || pc.Inspecting? || pc.Reinspecting? || pc.Killing? || pc.LaunchAgain? || pc.LaunchFirst?
    ensures var (after, next) := Step(w, env, pc, c);
      Steady(w, next) && !next.Noting? && !next.Reload? && after.state == w.state && after.trail == w.trail && after.now == w.now
  {
    if pc.Start? {
      StartingIsSteady(w, pc.op, Lookup(w.state.sessions, pc.id));
    } else if pc.Killing? {
      assert Step(w, env, pc, c) == KillStep(w, env, pc, c);
    } else if pc.LaunchAgain? || pc.LaunchFirst? {
      assert Step(w, env, pc, c) == LaunchStep(w, env, pc, c);
    } else {
      AskingIsSteady(w, env, pc, c);
    }
  }

  lemma {:induction false} AskingIsSteady(w: World, env: string, pc: Pc, c: Chance)
    requires Steady(w, pc) && (pc.Inspecting? || pc.Reinspecting?)
    ensures var (after, next) := Step(w, env, pc, c);
      Steady(w, next) && !next.Noting? && !next.Reload? && after == w
  {
    var answer := Answer(w, env, pc.snap, c);
    if pc.Inspecting? {
      assert Step(w, env, pc, c) == (w, if c.fault then Failed else AfterInspect(pc.op, pc.snap, answer));
    } else {
      assert Step(w, env, pc, c) == (w, if c.fault then Failed else AfterReinspect(pc.op, pc.snap, pc.identity, answer));
    }
  }

  lemma {:induction false} ReloadTells(w: World, pc: Pc, c: Chance)
    requires Telling(w, pc) && pc.Reload? && !c.fault
    ensures Telling(w, ReloadStep(w, pc, c))
  {
    var next := ReloadStep(w, pc, c);
    var found := Lookup(w.state.sessions, pc.snap.id);
    if found.Some? {
      assert found.value.status == Creating;
      assert Steady(w, next.next);
    }
  }

  lemma {:induction false} StepTells(w: World, env: string, pc: Pc, c: Chance)
    requires Telling(w, pc)
    requires c.unreadable ==> !pc.Noting?
    requires c.fault ==> pc.Start? || pc.Inspecting? || pc.Reinspecting? || pc.Killing? || pc.LaunchAgain? || pc.LaunchFirst?
    ensures var (after, next) := Step(w, env, pc, c); Telling(after, next)
  {
    if IsSwap(pc) {
      SwapTells(w, pc, c);
    } else if pc.Start? || pc.Inspecting? || pc.Reinspecting? || pc.Killing? || pc.LaunchAgain? || pc.LaunchFirst? {
      ReadingTells(w, env, pc, c);
    } else if pc.Reload? {
      ReloadTells(w, pc, c);
    } else {
      OtherWritesTell(w, env, pc, c);
    }
  }

  lemma {:induction false} OtherWritesTell(w: World, env: string, pc: Pc, c: Chance)
    requires Telling(w, pc) && !c.fault && (c.unreadable ==> !pc.Noting?)
    requires pc.Insert? || pc.FinishStop? || pc.ActivateFirst? || pc.Retract? || pc.Noting? || pc.Finished? || pc.Failed?
    ensures var (after, next) := Step(w, env, pc, c); Telling(after, next)
  {
    if pc.Insert? {
      InsertTells(w, pc, c);
      assert Step(w, env, pc, c) == InsertStep(w, pc, c);
    } else if pc.FinishStop? {
      FinishTells(w, pc, c);
      assert Step(w, env, pc, c) == FinishStopStep(w, pc, c);
    } else if pc.ActivateFirst? {
      ActivateTells(w, env, pc, c);
      assert Step(w, env, pc, c) == ActivateStep(w, env, pc, c);
    } else if pc.Retract? {
      RetractTells(w, pc, c);
      assert Step(w, env, pc, c) == (RetractStep(w, pc, c), Failed);
    } else if pc.Noting? {
      NoteStepTells(w, pc, c);
      assert Step(w, env, pc, c) == NoteStep(w, pc, c);
    } else {
      assert Step(w, env, pc, c) == (w, pc);
    }
  }

  // ---------- Every smooth run ----------

  lemma {:induction false} TimeTells(w: World, now: Instant, pc: Pc)
    requires Telling(w, pc) && w.now <= now
    ensures Telling(w.(now := now), pc)
  {
    SteadyNeedsNoBackend(w, w.(now := now), pc);
  }

  lemma {:induction false} BackendTells(w: World, later: Backend, pc: Pc)
    requires Telling(w, pc)
    ensures Telling(w.(backend := later), pc)
  {
    SteadyNeedsNoBackend(w, w.(backend := later), pc);
  }

  lemma {:induction false} ActingTells(t: Turn, c: Chance)
    requires Telling(t.world, t.pc)
    requires c.unreadable ==> !t.pc.Noting?
    requires c.fault ==> t.pc.Start? || t.pc.Inspecting? || t.pc.Reinspecting? || t.pc.Killing? || t.pc.LaunchAgain? || t.pc.LaunchFirst?
    ensures var (after, next) := Advance(t.world, t.env, t.pc, c); Telling(after, next)
  {
    var w := Later(t.world, c);
    TimeTells(t.world, w.now, t.pc);
    assert Advance(t.world, t.env, t.pc, c) == Step(w, t.env, t.pc, c);
    StepTells(w, t.env, t.pc, c);
  }

  lemma {:induction false} TakingTells(t: Turn, move: Move, home: Home)
    requires Telling(t.world, t.pc) && Smooth(t, move)
    ensures var after := Take(t, move, home); Telling(after.world, after.pc)
  {
    match move
    case Act(c) => ActingTells(t, c);
    case CommandExits(place, status) => BackendTells(t.world, AfterExit(t.world.backend, place, status), t.pc);
    case SessionVanishes(place) => BackendTells(t.world, Without(t.world.backend, place), t.pc);
    case _ =>
  }

  lemma {:induction false} SmoothRunTells(run: seq<Turn>, moves: seq<Move>, at: nat, home: Home)
    requires IsSmoothRun(run, moves, home) && at < |run|
    ensures Telling(run[at].world, run[at].pc)
  {
    if at > 0 {
      SmoothRunTells(run, moves, at - 1, home);
      TakingTells(run[at - 1], moves[at - 1], home);
    }
  }

  /** At every moment of a run without crashes, failed writes or overlap, what the trail
      retains about a session is one linked chain; and whenever no operation is under way,
      the chain of every record ends at the status the record has. */
  lemma {:induction false} TheTrailTellsTheStory(run: seq<Turn>, moves: seq<Move>, at: nat, id: SessionId, home: Home)
    requires IsSmoothRun(run, moves, home) && at < |run|
    ensures var w := run[at].world;
      && Linked(Line(w.trail, id))
      && (run[at].pc == Finished || run[at].pc == Failed ==>
            forall r | r in w.state.sessions && r.id == id :: EndsAt(Line(w.trail, id), r.status))
  {
    SmoothRunTells(run, moves, at, home);
  }
}
