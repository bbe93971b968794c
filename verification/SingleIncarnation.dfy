/** What holds over every sequence of lifecycle operations that do not overlap, each cut
    short anywhere, where the environment always resolves the same socket: a session never has
    two incarnations on any socket, recorded or resolved, and nothing runs behind a record that
    says it has ended. */
module SingleIncarnation {
  import opened Common
  import opened Records
  import opened Tmux
  import opened Audit
  import opened Lifecycle

  /** The server a session's commands always resolve to. */
  type Home = SessionId -> Server

  /** One operation in progress, or between operations a finished one. */
  datatype Turn = Turn(world: World, env: string, pc: Pc)

  /** Beginning an operation abandons the one before, wherever it stood. */
  datatype Move =
    | Begin(op: Operation, id: SessionId)
    | BeginCreate(record: SessionRecord)
    | Act(c: Chance)
    | CommandExits(place: Place, status: Option<int>)
    | SessionVanishes(place: Place)
    | Forget(state: State)

  ghost predicate Mine(b: Backend, place: Place, r: SessionRecord) {
    place in b.sessions && place.name == r.id && r.proof == Some(b.sessions[place].proof)
  }

  ghost predicate NoneLeft(b: Backend, r: SessionRecord) {
    forall place | place in b.sessions :: !Mine(b, place, r)
  }

  ghost predicate NoneRunning(b: Backend, r: SessionRecord) {
    forall place | place in b.sessions && Mine(b, place, r) :: b.sessions[place].launched.Exited?
  }

  ghost predicate OnlyEver(b: Backend, r: SessionRecord, identity: TmuxSessionId) {
    forall place | place in b.sessions && Mine(b, place, r) :: b.sessions[place].identity == identity
  }

  /** The server a record's commands reach: the socket it records, or the resolved one when it
      records none, as a reservation does wherever its last incarnation lived. */
  function Where(r: SessionRecord, home: Home): Server {
    Server(r.target, r.tmuxSocket.GetOr(home(r.id).socket))
  }

  ghost predicate AllAt(b: Backend, r: SessionRecord, server: Server) {
    forall place | place in b.sessions && Mine(b, place, r) :: place.server == server
  }

  /** How a proof-bearing record is tied to what exists in tmux. */
  ghost predicate Tied(b: Backend, r: SessionRecord, home: Home) {
    r.proof.Some? ==>
      && r.target == home(r.id).target
      && AllAt(b, r, Where(r, home))
      && (r.tmuxSession.Some? ==> OnlyEver(b, r, r.tmuxSession.value))
      && (r.tmuxPane.Some? ==> forall place | place in b.sessions && Mine(b, place, r) :: b.sessions[place].pane == r.tmuxPane.value)
      && (r.status == Ended ==> NoneRunning(b, r))
      && (r.status == Removed ==> NoneLeft(b, r))
      && (r.status == Creating ==> r.tmuxSession.None? && r.tmuxPane.None? && r.tmuxSocket.None?)
  }

  ghost predicate OneRecordEach(sessions: seq<SessionRecord>) {
    forall i, j | 0 <= i < j < |sessions| :: sessions[i].id != sessions[j].id
  }

  ghost predicate TiedWorld(w: World, home: Home) {
    OneRecordEach(w.state.sessions) && forall r | r in w.state.sessions :: Tied(w.backend, r, home)
  }

  ghost predicate IsReservation(r: SessionRecord) {
    r.status == Creating && r.proof.Some? && r.tmuxSession.None? && r.tmuxPane.None? && r.tmuxSocket.None?
  }

  /** What the operation in progress knows that is still true. */
  ghost predicate TiedPc(w: World, env: string, pc: Pc, home: Home)
    decreases pc
  {
    match pc
    case Start(_, id) => env == home(id).socket
    case Insert(record) => IsReservation(record) && Unheard(w, record, home) && env == home(record.id).socket
    case Inspecting(op, snap) => Current(w, snap, env, home) && (op == ToOpen ==> snap.status == Running)
    case Reinspecting(op, snap, identity) => op == ToOpen || Acting(w, op, snap, identity, env, home)
    case Killing(op, snap, identity, _) => Acting(w, op, snap, identity, env, home)
    case MarkStopping(snap, found) => Current(w, snap, env, home) && Found(w.backend, snap, found)
    case FinishStop(snap, _, _) => NoneLeft(w.backend, snap) && forall r | r in w.state.sessions && r.id == snap.id :: r.proof == snap.proof
    case MarkOpened(snap, identity) => Current(w, snap, env, home) && OnlyEver(w.backend, snap, identity) && snap.status == Running
    case MarkObserved(snap, identity) => Current(w, snap, env, home) && OnlyEver(w.backend, snap, identity)
    case MarkEnded(snap, found, _) => Current(w, snap, env, home) && Found(w.backend, snap, found) && NoneRunning(w.backend, snap) && snap.status != Removed
    case Promote(snap, identity, pane, socket, _) =>
      && Current(w, snap, env, home) && OnlyEver(w.backend, snap, identity)
      && (pane.Some? ==> forall place | place in w.backend.sessions && Mine(w.backend, place, snap) :: w.backend.sessions[place].pane == pane.value)
      && AllAt(w.backend, snap, Server(snap.target, socket.GetOr(home(snap.id).socket)))
    case Reserve(snap) => Current(w, snap, env, home) && NoneLeft(w.backend, snap)
    case Reload(snap) => Current(w, ReservedRecord(snap), env, home) && NoneLeft(w.backend, snap)
    case LaunchAgain(r, proof) => IsReservation(r) && r.proof == Some(proof) && Current(w, r, env, home) && NoneLeft(w.backend, r)
    case LaunchFirst(r) => IsReservation(r) && Current(w, r, env, home) && NoneLeft(w.backend, r)
    case ActivateFirst(id, identity, launched) =>
      env == home(id).socket && forall r | r in w.state.sessions && r.id == id :: Issued(w.backend, r, identity, launched)
    case Retract(_) => true
    case MarkRemoved(snap) => snap.proof.Some? ==> Current(w, snap, env, home) && NoneLeft(w.backend, snap)
    case Noting(_, next) => TiedPc(w, env, next, home)
    case Finished => true
    case Failed => true
  }

  ghost predicate Current(w: World, snap: SessionRecord, env: string, home: Home) {
    snap in w.state.sessions && snap.proof.Some? && env == home(snap.id).socket
  }

  ghost predicate Found(b: Backend, snap: SessionRecord, found: Option<TmuxSessionId>) {
    if found.Some? then OnlyEver(b, snap, found.value) else NoneLeft(b, snap)
  }

  ghost predicate Issued(b: Backend, r: SessionRecord, identity: TmuxSessionId, pane: TmuxPaneId) {
    OnlyEver(b, r, identity) && forall place | place in b.sessions && Mine(b, place, r) :: b.sessions[place].pane == pane
  }

  /** The record an operation holds while it inspects a second time and kills: a stop has
      marked it by then, the others have not touched it. */
  ghost predicate Acting(w: World, op: Operation, snap: SessionRecord, identity: TmuxSessionId, env: string, home: Home) {
    && snap.proof.Some? && Tied(w.backend, snap, home)
    && Current(w, if op == ToStop then StoppingRecord(snap, Some(identity)) else snap, env, home)
    && OnlyEver(w.backend, snap, identity)
  }

  ghost predicate Unheard(w: World, record: SessionRecord, home: Home) {
    && record.target == home(record.id).target
    && NoneLeft(w.backend, record)
    && forall r | r in w.state.sessions :: r.id != record.id
  }

  ghost predicate Permitted(t: Turn, move: Move, home: Home) {
    match move
    case BeginCreate(record) => IsReservation(record) && Unheard(t.world, record, home)
    case Forget(state) => OneRecordEach(state.sessions) && forall r | r in state.sessions :: r in t.world.state.sessions
    case _ => true
  }

  ghost function Take(t: Turn, move: Move, home: Home): Turn
  {
    match move
    case Begin(op, id) => Turn(t.world, home(id).socket, Start(op, id))
    case BeginCreate(record) => Turn(t.world, home(record.id).socket, Insert(record))
    case Act(c) => var (w, pc) := Advance(t.world, t.env, t.pc, c); Turn(w, t.env, pc)
    case CommandExits(place, status) => t.(world := t.world.(backend := AfterExit(t.world.backend, place, status)))
    case SessionVanishes(place) => t.(world := t.world.(backend := Without(t.world.backend, place)))
    case Forget(state) => Turn(t.world.(state := state), t.env, Finished)
  }

  ghost predicate IsRun(run: seq<Turn>, moves: seq<Move>, home: Home) {
    && |run| == |moves| + 1
    && TiedWorld(run[0].world, home) && run[0].pc == Finished
    && forall i | 0 <= i < |moves| :: Permitted(run[i], moves[i], home) && run[i + 1] == Take(run[i], moves[i], home)
  }

  // ---------- Sessions going away keep every tie ----------

  /** Every session of the later backend is one of the earlier, run no further. */
  ghost predicate Dwindles(b: Backend, later: Backend) {
    forall place | place in later.sessions ::
      && place in b.sessions
      && later.sessions[place].(launched := b.sessions[place].launched) == b.sessions[place]
      && (b.sessions[place].launched.Exited? ==> later.sessions[place].launched.Exited?)
  }

  lemma {:induction false} TiesSurviveDwindling(b: Backend, later: Backend, r: SessionRecord, home: Home)
    requires Tied(b, r, home) && Dwindles(b, later)
    ensures Tied(later, r, home)
  {}

  lemma {:induction false} PcSurvivesDwindling(w: World, later: Backend, env: string, pc: Pc, home: Home)
    requires TiedPc(w, env, pc, home) && Dwindles(w.backend, later)
    ensures TiedPc(w.(backend := later), env, pc, home)
    decreases pc
  {
    if pc.Noting? {
      PcSurvivesDwindling(w, later, env, pc.next, home);
    }
  }

  /** The invariant of a turn. Where a lemma concludes it, the conclusion is an equation
      with `true`, which stays one atom for the solver. */
  ghost predicate TiedTurn(w: World, env: string, pc: Pc, home: Home) {
    TiedWorld(w, home) && TiedPc(w, env, pc, home)
  }

  // ---------- One step ----------

  /** An exact inspection of a tied record tells the truth about every session it has. */
  lemma {:induction false} InspectionsAreTruthful(b: Backend, snap: SessionRecord, env: string, home: Home)
    requires Tied(b, snap, home) && snap.proof.Some? && env == home(snap.id).socket
    ensures PlaceOf(env, snap) == Place(Where(snap, home), snap.id)
    ensures var answer := Inspect(b, PlaceOf(env, snap), snap.proof.value, snap.tmuxPane);
      && (answer.Missing? ==> NoneLeft(b, snap))
      && (answer.RunningAs? ==> OnlyEver(b, snap, answer.identity))
      && (answer.EndedAs? ==> OnlyEver(b, snap, answer.identity) && NoneRunning(b, snap))
  {}

  lemma {:induction false} InspectingKeepsTies(w: World, env: string, pc: Pc, c: Chance, home: Home)
    requires TiedWorld(w, home) && TiedPc(w, env, pc, home) && pc.Inspecting?
    ensures TiedPc(w, env, Step(w, env, pc, c).1, home)
  {
    InspectionsAreTruthful(w.backend, pc.snap, env, home);
  }

  lemma {:induction false} ReinspectingKeepsTies(w: World, env: string, pc: Pc, c: Chance, home: Home)
    requires TiedWorld(w, home) && TiedPc(w, env, pc, home) && pc.Reinspecting?
    ensures TiedPc(w, env, Step(w, env, pc, c).1, home)
  {
    if pc.op != ToOpen {
      InspectionsAreTruthful(w.backend, pc.snap, env, home);
    }
  }

  lemma {:induction false} WritingKeepsTies(w: World, c: Chance, at: nat, updated: SessionRecord, groups: seq<Group>, next: Pc, home: Home)
    requires TiedWorld(w, home) && at < |w.state.sessions|
    requires updated.id == w.state.sessions[at].id && Tied(w.backend, updated, home)
    ensures var (after, pc) := WriteAt(w, c, at, updated, groups, next);
      && TiedWorld(after, home) && after.backend == w.backend
      && (pc != Failed ==> pc == next && updated in after.state.sessions && forall r | r in after.state.sessions && r.id == updated.id :: r == updated)
  {
    var sessions := w.state.sessions[at := updated];
    assert sessions[at] == updated;
  }

  lemma {:induction false} NotedIsTied(w: World, env: string, entry: AuditEntry, home: Home)
    ensures TiedPc(w, env, Noting(entry, Finished), home)
  {}

  /** A write after which only a line for the trail is left. */
  lemma {:induction false} LastWriteKeepsTies(w: World, env: string, c: Chance, at: nat, updated: SessionRecord, entry: AuditEntry, home: Home)
    requires TiedWorld(w, home) && at < |w.state.sessions|
    requires updated.id == w.state.sessions[at].id && Tied(w.backend, updated, home)
    ensures var (after, next) := WriteAt(w, c, at, updated, w.state.groups, Noting(entry, Finished)); TiedTurn(after, env, next, home)
  {
    WritingKeepsTies(w, c, at, updated, w.state.groups, Noting(entry, Finished), home);
    var (after, next) := WriteAt(w, c, at, updated, w.state.groups, Noting(entry, Finished));
    NotedIsTied(after, env, entry, home);
  }

  lemma {:induction false} AfterSwapIsTied(w: World, after: World, env: string, pc: Pc, now: Instant, home: Home)
    requires IsSwap(pc) && TiedPc(w, env, pc, home) && Tied(w.backend, pc.snap, home) && after.backend == w.backend
    requires Replacement(pc, now) in after.state.sessions
    requires forall r | r in after.state.sessions && r.id == pc.snap.id :: r == Replacement(pc, now)
    ensures TiedPc(after, env, AfterSwap(pc), home)
  {
    if pc.MarkStopping? {
      assert forall r | r in after.state.sessions && r.id == pc.snap.id :: r.proof == pc.snap.proof;
    }
  }

  lemma {:induction false} SwappedKeepsTies(w: World, env: string, pc: Pc, c: Chance, at: nat, groups: seq<Group>, home: Home)
    requires TiedWorld(w, home) && TiedPc(w, env, pc, home) && IsSwap(pc) && !(pc.MarkStopping? && IsClosed(pc.snap.status))
    requires at < |w.state.sessions| && w.state.sessions[at] == pc.snap
    ensures var (after, next) := WriteAt(w, c, at, Replacement(pc, w.now), groups, AfterSwap(pc)); TiedTurn(after, env, next, home)
  {
    assert Tied(w.backend, pc.snap, home);
    WritingKeepsTies(w, c, at, Replacement(pc, w.now), groups, AfterSwap(pc), home);
    var (after, next) := WriteAt(w, c, at, Replacement(pc, w.now), groups, AfterSwap(pc));
    if next != Failed {
      AfterSwapIsTied(w, after, env, pc, w.now, home);
    }
  }

  lemma {:induction false} SwappingKeepsTies(w: World, env: string, pc: Pc, c: Chance, home: Home)
    requires TiedWorld(w, home) && TiedPc(w, env, pc, home) && IsSwap(pc)
    ensures var (after, next) := SwapStep(w, pc, c); TiedTurn(after, env, next, home)
  {
    var at := Position(w.state.sessions, pc.snap.id);
    if at < |w.state.sessions| && w.state.sessions[at] == pc.snap && !(pc.MarkStopping? && IsClosed(pc.snap.status)) {
      var groups := if pc.MarkRemoved? then WithoutMembers(w.state.groups, {pc.snap.id}) else w.state.groups;
      SwappedKeepsTies(w, env, pc, c, at, groups, home);
      assert SwapStep(w, pc, c) == WriteAt(w, c, at, Replacement(pc, w.now), groups, AfterSwap(pc));
    } else {
      assert SwapStep(w, pc, c) == (w, Failed);
    }
  }

  lemma {:induction false} KillingKeepsTies(w: World, env: string, pc: Pc, c: Chance, home: Home)
    requires TiedWorld(w, home) && TiedPc(w, env, pc, home) && pc.Killing?
    ensures var (after, next) := KillStep(w, env, pc, c); TiedTurn(after, env, next, home)
  {
    var place := PlaceOf(env, pc.snap);
    var later := Without(w.backend, place);
    forall r | r in w.state.sessions ensures Tied(later, r, home) {
      TiesSurviveDwindling(w.backend, later, r, home);
    }
    assert place == Place(Where(pc.snap, home), pc.snap.id);
    assert NoneLeft(later, pc.snap);
  }

  lemma {:induction false} StoppedIsTied(b: Backend, current: SessionRecord, exitStatus: Option<int>, now: Instant, home: Home)
    requires Tied(b, current, home) && NoneLeft(b, current)
    ensures Tied(b, StoppedRecord(current, exitStatus, now), home)
  {
    var r := StoppedRecord(current, exitStatus, now);
    assert r.id == current.id && r.proof == current.proof && r.target == current.target;
  }

  lemma {:induction false} FinishingKeepsTies(w: World, env: string, pc: Pc, c: Chance, home: Home)
    requires TiedWorld(w, home) && TiedPc(w, env, pc, home) && pc.FinishStop?
    ensures var (after, next) := FinishStopStep(w, pc, c); TiedTurn(after, env, next, home)
  {
    var at := Position(w.state.sessions, pc.snap.id);
    if at < |w.state.sessions| && w.state.sessions[at].target == pc.snap.target && w.state.sessions[at].status == SessionStatus.Stopping {
      var current := w.state.sessions[at];
      StoppedIsTied(w.backend, current, pc.exitStatus, w.now, home);
      LastWriteKeepsTies(w, env, c, at, StoppedRecord(current, pc.exitStatus, w.now), FinishedNote(pc).entry, home);
      assert FinishStopStep(w, pc, c) == WriteAt(w, c, at, StoppedRecord(current, pc.exitStatus, w.now), w.state.groups, FinishedNote(pc));
    } else {
      NotedIsTied(w, env, FinishedNote(pc).entry, home);
    }
  }

  lemma {:induction false} InsertingKeepsTies(w: World, env: string, pc: Pc, c: Chance, home: Home)
    requires TiedWorld(w, home) && TiedPc(w, env, pc, home) && pc.Insert?
    ensures var (after, next) := InsertStep(w, pc, c); TiedWorld(after, home) && TiedPc(after, env, next, home)
  {
    var stamped := pc.record.(createdAt := w.now, lastUsedAt := w.now);
    assert forall place :: Mine(w.backend, place, stamped) <==> Mine(w.backend, place, pc.record);
    var sessions := w.state.sessions + [stamped];
    assert sessions[|w.state.sessions|] == stamped;
  }

  lemma {:induction false} LaunchingKeepsTies(w: World, env: string, record: SessionRecord, c: Chance, home: Home)
    requires TiedWorld(w, home) && IsReservation(record) && Current(w, record, env, home) && NoneLeft(w.backend, record)
    ensures var (backend, ok) := Launch(w, env, record, record.proof.value, c);
      && TiedWorld(w.(backend := backend), home)
      && (ok ==> forall r | r in w.state.sessions && r.id == record.id :: r == record && Issued(backend, r, c.identity, c.pane))
  {
    var (backend, ok) := Launch(w, env, record, record.proof.value, c);
    assert Tied(w.backend, record, home);
    forall r | r in w.state.sessions ensures Tied(backend, r, home) {
      if r.id != record.id {
        assert forall place :: Mine(backend, place, r) <==> Mine(w.backend, place, r);
      } else {
        assert r == record;
      }
    }
  }

  lemma {:induction false} LaunchStepKeepsTies(w: World, env: string, pc: Pc, c: Chance, home: Home)
    requires TiedWorld(w, home) && TiedPc(w, env, pc, home) && (pc.LaunchAgain? || pc.LaunchFirst?)
    ensures var (after, next) := LaunchStep(w, env, pc, c); TiedTurn(after, env, next, home)
  {
    LaunchingKeepsTies(w, env, if pc.LaunchAgain? then pc.reservation else pc.record, c, home);
  }

  lemma {:induction false} ActivatedIsTied(b: Backend, r: SessionRecord, identity: TmuxSessionId, pane: TmuxPaneId, env: string, now: Instant, home: Home)
    requires Tied(b, r, home) && Issued(b, r, identity, pane) && env == home(r.id).socket && r.status == Creating
    ensures Tied(b, ActivatedRecord(r, identity, pane, env, now), home)
  {
    var activated := ActivatedRecord(r, identity, pane, env, now);
    assert forall place :: Mine(b, place, activated) <==> Mine(b, place, r);
  }

  lemma {:induction false} ActivatingKeepsTies(w: World, env: string, pc: Pc, c: Chance, home: Home)
    requires TiedWorld(w, home) && TiedPc(w, env, pc, home) && pc.ActivateFirst?
    ensures var (after, next) := ActivateStep(w, env, pc, c); TiedTurn(after, env, next, home)
  {
    var at := Position(w.state.sessions, pc.id);
    if at < |w.state.sessions| && w.state.sessions[at].status == Creating && w.state.sessions[at].tmuxSession.None? {
      var current := w.state.sessions[at];
      ActivatedIsTied(w.backend, current, pc.identity, pc.launched, env, w.now, home);
      LastWriteKeepsTies(w, env, c, at, ActivatedRecord(current, pc.identity, pc.launched, env, w.now),
                         Entry(current, AuditAction.Activate, Some(Creating), Running, Some(pc.identity), None), home);
    }
  }

  lemma {:induction false} RetractingKeepsTies(w: World, pc: Pc, c: Chance, home: Home)
    requires TiedWorld(w, home) && pc.Retract?
    ensures TiedWorld(RetractStep(w, pc, c), home)
  {
    var keep := (r: SessionRecord) => r.id != pc.id || r.status != Creating || r.tmuxSession.Some?;
    FilterKeepsDistinct(w.state.sessions, keep, RecordId);
    var kept := Filter(w.state.sessions, keep);
    forall i, j | 0 <= i < j < |kept| ensures kept[i].id != kept[j].id {
      assert Map(kept, RecordId)[i] != Map(kept, RecordId)[j];
    }
  }

  lemma {:induction false} ReadingKeepsTies(w: World, env: string, pc: Pc, c: Chance, home: Home)
    requires TiedWorld(w, home) && TiedPc(w, env, pc, home)
    ensures pc.Start? ==> TiedPc(w, env, AfterRead(pc.op, Lookup(w.state.sessions, pc.id)), home)
    ensures pc.Reload? ==> TiedPc(w, env, ReloadStep(w, pc, c), home)
  {}

  lemma {:induction false} WritingStepKeepsTies(w: World, env: string, pc: Pc, c: Chance, home: Home)
    requires TiedWorld(w, home) && TiedPc(w, env, pc, home)
    requires pc.Insert? || pc.FinishStop? || pc.ActivateFirst? || pc.Retract? || IsSwap(pc)
    ensures var (after, next) := Step(w, env, pc, c); TiedTurn(after, env, next, home)
  {
    if IsSwap(pc) {
      SwappingKeepsTies(w, env, pc, c, home);
    } else if pc.Insert? {
      InsertingKeepsTies(w, env, pc, c, home);
    } else if pc.FinishStop? {
      FinishingKeepsTies(w, env, pc, c, home);
    } else if pc.ActivateFirst? {
      ActivatingKeepsTies(w, env, pc, c, home);
    } else {
      RetractingKeepsTies(w, pc, c, home);
    }
  }

  lemma {:induction false} ReadingStepKeepsTies(w: World, env: string, pc: Pc, c: Chance, home: Home)
    requires TiedWorld(w, home) && TiedPc(w, env, pc, home)
    requires pc.Start? || pc.Inspecting? || pc.Reinspecting? || pc.Reload?
    ensures var (after, next) := Step(w, env, pc, c); TiedTurn(after, env, next, home)
  {
    if pc.Inspecting? {
      InspectingKeepsTies(w, env, pc, c, home);
    } else if pc.Reinspecting? {
      ReinspectingKeepsTies(w, env, pc, c, home);
    } else {
      ReadingKeepsTies(w, env, pc, c, home);
    }
  }

  lemma {:induction false} TimeKeepsPc(w: World, now: Instant, env: string, pc: Pc, home: Home)
    requires TiedPc(w, env, pc, home)
    ensures TiedPc(w.(now := now), env, pc, home)
    decreases pc
  {
    if pc.Noting? {
      TimeKeepsPc(w, now, env, pc.next, home);
    }
  }

  lemma {:induction false} TrailIsNoTie(w: World, trail: seq<AuditEntry>, env: string, pc: Pc, home: Home)
    requires TiedPc(w, env, pc, home)
    ensures TiedPc(w.(trail := trail), env, pc, home)
    decreases pc
  {
    if pc.Noting? {
      TrailIsNoTie(w, trail, env, pc.next, home);
    }
  }

  lemma {:induction false} NotingKeepsTies(w: World, env: string, pc: Pc, c: Chance, home: Home)
    requires TiedWorld(w, home) && TiedPc(w, env, pc, home) && pc.Noting?
    ensures var (after, next) := NoteStep(w, pc, c); TiedTurn(after, env, next, home)
  {
    var (after, next) := NoteStep(w, pc, c);
    TrailIsNoTie(w, after.trail, env, pc.next, home);
  }

  lemma {:induction false} StepKeepsTies(w: World, env: string, pc: Pc, c: Chance, home: Home)
    requires TiedWorld(w, home) && TiedPc(w, env, pc, home)
    ensures var (after, next) := Step(w, env, pc, c); TiedTurn(after, env, next, home)
  {
    if pc.Insert? || pc.FinishStop? || pc.ActivateFirst? || pc.Retract? || IsSwap(pc) {
      WritingStepKeepsTies(w, env, pc, c, home);
    } else if pc.Start? || pc.Inspecting? || pc.Reinspecting? || pc.Reload? {
      ReadingStepKeepsTies(w, env, pc, c, home);
    } else if pc.Killing? {
      KillingKeepsTies(w, env, pc, c, home);
    } else if pc.LaunchAgain? || pc.LaunchFirst? {
      LaunchStepKeepsTies(w, env, pc, c, home);
    } else if pc.Noting? {
      NotingKeepsTies(w, env, pc, c, home);
    }
  }

  // ---------- Every reachable turn ----------

  lemma {:induction false} DwindlingKeepsTurn(w: World, later: Backend, env: string, pc: Pc, home: Home)
    requires TiedWorld(w, home) && TiedPc(w, env, pc, home) && Dwindles(w.backend, later)
    ensures TiedTurn(w.(backend := later), env, pc, home)
  {
    PcSurvivesDwindling(w, later, env, pc, home);
    forall r | r in w.state.sessions ensures Tied(later, r, home) {
      TiesSurviveDwindling(w.backend, later, r, home);
    }
  }

  lemma {:induction false} ActingKeepsTies(t: Turn, c: Chance, home: Home)
    requires TiedTurn(t.world, t.env, t.pc, home)
    ensures var (after, next) := Advance(t.world, t.env, t.pc, c); TiedTurn(after, t.env, next, home)
  {
    var w := Later(t.world, c);
    TimeKeepsPc(t.world, w.now, t.env, t.pc, home);
    assert Advance(t.world, t.env, t.pc, c) == Step(w, t.env, t.pc, c);
    StepKeepsTies(w, t.env, t.pc, c, home);
  }

  lemma {:induction false} TakingKeepsTies(t: Turn, move: Move, home: Home)
    requires TiedTurn(t.world, t.env, t.pc, home) && Permitted(t, move, home)
    ensures var after := Take(t, move, home); TiedTurn(after.world, after.env, after.pc, home)
  {
    match move
    case Act(c) => ActingKeepsTies(t, c, home);
    case CommandExits(place, status) =>
      DwindlingKeepsTurn(t.world, AfterExit(t.world.backend, place, status), t.env, t.pc, home);
    case SessionVanishes(place) =>
      DwindlingKeepsTurn(t.world, Without(t.world.backend, place), t.env, t.pc, home);
    case _ =>
  }

  lemma {:induction false} RunKeepsTies(run: seq<Turn>, moves: seq<Move>, at: nat, home: Home)
    requires IsRun(run, moves, home) && at < |run|
    ensures TiedTurn(run[at].world, run[at].env, run[at].pc, home)
  {
    if at > 0 {
      RunKeepsTies(run, moves, at - 1, home);
      TakingKeepsTies(run[at - 1], moves[at - 1], home);
    }
  }

  /** Whatever was begun, wherever it was cut short, and however uncertain a creation was: at
      every moment of the run, no two places on any socket hold incarnations of one recorded
      session, nothing runs behind an ended record, and nothing at all is left behind a
      removed one. */
  lemma {:induction false} NeverTwoIncarnations(run: seq<Turn>, moves: seq<Move>, at: nat, r: SessionRecord, home: Home)
    requires IsRun(run, moves, home) && at < |run|
    requires r in run[at].world.state.sessions && r.proof.Some?
    ensures var b := run[at].world.backend;
      && (forall p, q | p in b.sessions && q in b.sessions && Mine(b, p, r) && Mine(b, q, r) :: p == q)
      && (r.status == Ended ==> forall p | p in b.sessions && Mine(b, p, r) :: b.sessions[p].launched.Exited?)
      && (r.status == Removed ==> forall p | p in b.sessions :: !Mine(b, p, r))
  {
    RunKeepsTies(run, moves, at, home);
  }
}
