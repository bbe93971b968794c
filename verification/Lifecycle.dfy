/** The lifecycle operations (src/lifecycle.rs, and the create path of src/cli.rs) cut into
    their atomic steps. An operation reads a record, inspects the backend without a lock,
    swaps the record if nobody changed it, acts on the backend, and swaps again; between any
    two steps it may stop for good, and other processes may step. */
module Lifecycle {
  import opened Common
  import opened Records
  import opened Tmux
  import opened Audit

  datatype World = World(state: State, backend: Backend, trail: seq<AuditEntry>, now: Instant)

  datatype Operation = ToStop | ToOpen | ToObserve | ToRestart | ToRemove

  /** Everything one step finds outside the program: how much time passed, whether its
      transport or its write failed, whether a failing one took effect all the same, whether
      the answer was unreadable, and what a creation would be issued. */
  datatype Chance = Chance(
    elapsed: nat, fault: bool, takesEffect: bool, unreadable: bool,
    identity: TmuxSessionId, pane: TmuxPaneId, retentionDays: nat)

  /** Where one operation stands, and what it has read so far. */
  datatype Pc =
    | Start(op: Operation, id: SessionId)
    | Insert(record: SessionRecord)
    | Inspecting(op: Operation, snap: SessionRecord)
    | Reinspecting(op: Operation, snap: SessionRecord, identity: TmuxSessionId)
    | Killing(op: Operation, snap: SessionRecord, identity: TmuxSessionId, exitStatus: Option<int>)
    | MarkStopping(snap: SessionRecord, found: Option<TmuxSessionId>)
    | FinishStop(snap: SessionRecord, found: Option<TmuxSessionId>, exitStatus: Option<int>)
    | MarkOpened(snap: SessionRecord, identity: TmuxSessionId)
    | MarkObserved(snap: SessionRecord, identity: TmuxSessionId)
    | MarkEnded(snap: SessionRecord, found: Option<TmuxSessionId>, exitStatus: Option<int>)
    | Promote(snap: SessionRecord, identity: TmuxSessionId, pane: Option<TmuxPaneId>, socket: Option<string>, action: AuditAction)
    | Reserve(snap: SessionRecord)
    | Reload(snap: SessionRecord)
    | LaunchAgain(reservation: SessionRecord, proof: OwnershipProof)
    | LaunchFirst(record: SessionRecord)
    | ActivateFirst(id: SessionId, identity: TmuxSessionId, launched: TmuxPaneId)
    | Retract(id: SessionId)
    | MarkRemoved(snap: SessionRecord)
    | Noting(entry: AuditEntry, next: Pc)
    | Finished
    | Failed

  // ---------- What each write makes of a record ----------

  function StoppingRecord(r: SessionRecord, found: Option<TmuxSessionId>): SessionRecord {
    r.(status := SessionStatus.Stopping, tmuxSession := found.Or(r.tmuxSession))
  }

  /** An end judges itself: another immediate failure lengthens the run, any other ends it. */
  function Judged(r: SessionRecord, now: Instant): SessionRecord {
    if FailedImmediately(r, now) then NoteImmediateFailure(r, now) else r.(immediateFailures := [])
  }

  function StoppedRecord(r: SessionRecord, exitStatus: Option<int>, now: Instant): SessionRecord {
    Judged(r.(status := Ended, closedAt := Some(now), exitStatus := exitStatus), now)
  }

  function EndedRecord(r: SessionRecord, found: Option<TmuxSessionId>, exitStatus: Option<int>, now: Instant): SessionRecord {
    Judged(r.(status := Ended, tmuxSession := found.Or(r.tmuxSession), closedAt := Some(r.closedAt.GetOr(now)), exitStatus := exitStatus), now)
  }

  function OpenedRecord(r: SessionRecord, identity: TmuxSessionId, now: Instant): SessionRecord {
    r.(tmuxSession := Some(identity), lastUsedAt := now)
  }

  function ObservedRecord(r: SessionRecord, identity: TmuxSessionId): SessionRecord {
    r.(status := Running, tmuxSession := Some(identity), closedAt := None, exitStatus := None)
  }

  function PromotedRecord(r: SessionRecord, identity: TmuxSessionId, pane: Option<TmuxPaneId>, socket: Option<string>, now: Instant): SessionRecord {
    r.(status := Running, tmuxSession := Some(identity), tmuxPane := pane, tmuxSocket := socket, closedAt := None, exitStatus := None, lastUsedAt := now)
  }

  function ReservedRecord(r: SessionRecord): SessionRecord {
    r.(status := Creating, tmuxSession := None, tmuxPane := None, tmuxSocket := None, closedAt := None, exitStatus := None)
  }

  function ActivatedRecord(r: SessionRecord, identity: TmuxSessionId, pane: TmuxPaneId, socket: string, now: Instant): SessionRecord {
    r.(status := Running, tmuxSession := Some(identity), tmuxPane := Some(pane), tmuxSocket := Some(socket), lastUsedAt := now)
  }

  function RemovedRecord(r: SessionRecord, now: Instant): SessionRecord {
    r.(status := Removed, lastUsedAt := now, closedAt := Some(r.closedAt.GetOr(now)))
  }

  /** Groups forget a removed orchestrator's group and every removed worker. */
  function WithoutMembers(groups: seq<Group>, removed: set<SessionId>): seq<Group> {
    Map(Filter(groups, (g: Group) => g.orchestrator !in removed),
        (g: Group) => g.(workers := Filter(g.workers, (m: Member) => m.session !in removed)))
  }

  // ---------- Writing under the store lock ----------

  /** A save that fails may still have committed its rename. A validation that refuses the
      new state is one of the faults; `Validity` shows that it refuses no lifecycle write. */
  function Saved(w: World, c: Chance, state: State): (World, bool) {
    if c.fault && !c.takesEffect then (w, false) else (w.(state := state), !c.fault)
  }

  /** Replaces the record at `at`, then continues if the write reported success. */
  function WriteAt(w: World, c: Chance, at: nat, updated: SessionRecord, groups: seq<Group>, next: Pc): (World, Pc)
    requires at < |w.state.sessions|
  {
    var (after, ok) := Saved(w, c, State(w.state.sessions[at := updated], groups));
    (after, if ok then next else Failed)
  }

  // ---------- Decisions made from one answer ----------

  /** A record that names an incarnation is only ever about that one. */
  predicate Disagrees(snap: SessionRecord, identity: TmuxSessionId) {
    snap.tmuxSession.Some? && snap.tmuxSession.value != identity
  }

  /** The server a record's commands reach: its own socket, or what the environment resolves. */
  function PlaceOf(env: string, snap: SessionRecord): Place {
    Place(Server(snap.target, snap.tmuxSocket.GetOr(env)), snap.id)
  }

  /** A reservation is only made from an end or from an earlier reservation. */
  function ReserveFrom(snap: SessionRecord): Pc {
    if snap.status == Ended || snap.status == Creating then Reserve(snap) else Failed
  }

  function AfterInspect(op: Operation, snap: SessionRecord, answer: WorkloadState): Pc {
    match op
    case ToStop => (
      match answer
      case Unknown => Failed
      case Missing => MarkStopping(snap, None)
      case RunningAs(identity) => if Disagrees(snap, identity) then Failed else MarkStopping(snap, Some(identity))
      case EndedAs(identity, _) => if Disagrees(snap, identity) then Failed else MarkStopping(snap, Some(identity)))
    case ToOpen => (
      match answer
      case RunningAs(identity) => if Disagrees(snap, identity) then Failed else MarkOpened(snap, identity)
      case _ => Failed)
    case ToObserve => (
      match answer
      case Unknown => Failed
      case RunningAs(identity) =>
        if Disagrees(snap, identity) then Failed
        else if snap.status == Creating || snap.status == Running then MarkObserved(snap, identity)
        else Finished
      case EndedAs(identity, status) =>
        if Disagrees(snap, identity) then Failed
        else if snap.status == Removed then Finished
        else MarkEnded(snap, Some(identity), status)
      case Missing => if snap.status == Removed then Finished else MarkEnded(snap, None, None))
    case ToRestart => (
      match answer
      case Unknown => Failed
      case RunningAs(identity) =>
        if snap.status != Creating && snap.tmuxSession != Some(identity) then Failed
        else Promote(snap, identity, snap.tmuxPane, snap.tmuxSocket, Observed)
      case EndedAs(identity, _) => if Disagrees(snap, identity) then Failed else Reinspecting(op, snap, identity)
      case Missing => ReserveFrom(snap))
    case ToRemove => (
      match answer
      case EndedAs(identity, _) => if Disagrees(snap, identity) then Failed else Reinspecting(op, snap, identity)
      case Missing => MarkRemoved(snap)
      case _ => Failed)
  }

  function AfterReinspect(op: Operation, snap: SessionRecord, identity: TmuxSessionId, answer: WorkloadState): Pc {
    match op
    case ToStop => (
      match answer
      case RunningAs(current) => if current == identity then Killing(op, snap, identity, None) else Failed
      case EndedAs(current, status) => if current == identity then Killing(op, snap, identity, status) else Failed
      case Missing => FinishStop(snap, Some(identity), None)
      case Unknown => Failed)
    case ToOpen => (
      match answer
      case RunningAs(current) => if current == identity then Finished else Failed
      case _ => Failed)
    case ToObserve => Failed
    case ToRestart => (
      match answer
      case EndedAs(current, _) => if current == identity then Killing(op, snap, identity, None) else Failed
      case Missing => ReserveFrom(snap)
      case _ => Failed)
    case ToRemove => (
      match answer
      case EndedAs(current, _) => if current == identity then Killing(op, snap, identity, None) else Failed
      case Missing => MarkRemoved(snap)
      case _ => Failed)
  }

  function AfterKill(op: Operation, snap: SessionRecord, identity: TmuxSessionId, exitStatus: Option<int>): Pc {
    match op
    case ToStop => FinishStop(snap, Some(identity), exitStatus)
    case ToRestart => ReserveFrom(snap)
    case ToRemove => MarkRemoved(snap)
    case _ => Failed
  }

  /** What an operation does with the record it found. */
  function AfterRead(op: Operation, found: Option<SessionRecord>): Pc {
    if found.None? then Failed else
    var snap := found.value;
    match op
    case ToStop => if IsClosed(snap.status) || snap.proof.None? then Failed else Inspecting(op, snap)
    case ToOpen => if snap.status != Running || snap.proof.None? then Failed else Inspecting(op, snap)
    case ToObserve => if snap.proof.None? then Failed else Inspecting(op, snap)
    case ToRestart => if snap.proof.None? || snap.status == Removed || snap.command.None? then Failed else Inspecting(op, snap)
    case ToRemove =>
      if snap.status == Removed then Finished
      else if snap.proof.None? then MarkRemoved(snap)
      else if snap.status != Ended then Failed
      else Inspecting(op, snap)
  }

  function Entry(snap: SessionRecord, action: AuditAction, from: Option<SessionStatus>, to: SessionStatus,
                 incarnation: Option<TmuxSessionId>, exitStatus: Option<int>): AuditEntry {
    AuditEntry(0, snap.id, action, from, to, incarnation, exitStatus)
  }

  // ---------- Compare and swap ----------

  /** The steps that write only over the exact record their operation read. */
  predicate IsSwap(pc: Pc) {
    pc.MarkStopping? || pc.MarkOpened? || pc.MarkObserved? || pc.MarkEnded? || pc.Promote? || pc.Reserve? || pc.MarkRemoved?
  }

  function Replacement(pc: Pc, now: Instant): SessionRecord
    requires IsSwap(pc)
  {
    match pc
    case MarkStopping(snap, found) => StoppingRecord(snap, found)
    case MarkOpened(snap, identity) => OpenedRecord(snap, identity, now)
    case MarkObserved(snap, identity) => ObservedRecord(snap, identity)
    case MarkEnded(snap, found, status) => EndedRecord(snap, found, status, now)
    case Promote(snap, identity, pane, socket, _) => PromotedRecord(snap, identity, pane, socket, now)
    case Reserve(snap) => ReservedRecord(snap)
    case MarkRemoved(snap) => RemovedRecord(snap, now)
  }

  function AfterSwap(pc: Pc): Pc
    requires IsSwap(pc)
  {
    match pc
    case MarkStopping(snap, found) =>
      Noting(Entry(snap, Stop, Some(snap.status), SessionStatus.Stopping, found.Or(snap.tmuxSession), snap.exitStatus),
             if found.Some? then Reinspecting(ToStop, snap, found.value) else FinishStop(snap, None, None))
    case MarkOpened(snap, identity) => Reinspecting(ToOpen, snap, identity)
    case MarkObserved(snap, identity) =>
      Noting(Entry(snap, Observed, Some(snap.status), Running, Some(identity), None), Finished)
    case MarkEnded(snap, found, status) =>
      Noting(Entry(snap, Reconciled, Some(snap.status), Ended, found.Or(snap.tmuxSession), status), Finished)
    case Promote(snap, identity, _, _, action) =>
      Noting(Entry(snap, action, Some(if action.Activate? then Creating else snap.status), Running, Some(identity), None), Finished)
    case Reserve(snap) => Reload(snap)
    case MarkRemoved(snap) =>
      Noting(Entry(snap, Removal, Some(snap.status), Removed, snap.tmuxSession, snap.exitStatus), Finished)
  }

  function SwapStep(w: World, pc: Pc, c: Chance): (World, Pc)
    requires IsSwap(pc)
  {
    var at := Position(w.state.sessions, pc.snap.id);
    if at == |w.state.sessions| || w.state.sessions[at] != pc.snap || (pc.MarkStopping? && IsClosed(pc.snap.status)) then (w, Failed)
    else WriteAt(w, c, at, Replacement(pc, w.now),
                 if pc.MarkRemoved? then WithoutMembers(w.state.groups, {pc.snap.id}) else w.state.groups,
                 AfterSwap(pc))
  }

  // ---------- The atomic steps ----------

  function Answer(w: World, env: string, snap: SessionRecord, c: Chance): WorkloadState
    requires snap.proof.Some?
  {
    if c.unreadable then Unknown else Inspect(w.backend, PlaceOf(env, snap), snap.proof.value, snap.tmuxPane)
  }

  function KillStep(w: World, env: string, pc: Pc, c: Chance): (World, Pc)
    requires pc.Killing? && pc.snap.proof.Some?
  {
    var place := PlaceOf(env, pc.snap);
    if !Guarded(w.backend, place, pc.snap.proof.value, pc.identity) || (c.fault && !c.takesEffect) then (w, Failed)
    else (w.(backend := Without(w.backend, place)),
          if c.fault then Failed else AfterKill(pc.op, pc.snap, pc.identity, pc.exitStatus))
  }

  function FinishedNote(pc: Pc): Pc
    requires pc.FinishStop?
  {
    Noting(Entry(pc.snap, Stopped, Some(SessionStatus.Stopping), Ended, pc.found.Or(pc.snap.tmuxSession), pc.exitStatus), Finished)
  }

  function FinishStopStep(w: World, pc: Pc, c: Chance): (World, Pc)
    requires pc.FinishStop?
  {
    var at := Position(w.state.sessions, pc.snap.id);
    if at == |w.state.sessions| || w.state.sessions[at].target != pc.snap.target then (w, Failed)
    else if w.state.sessions[at].status == Ended then (w, FinishedNote(pc))
    else if w.state.sessions[at].status != SessionStatus.Stopping then (w, Failed)
    else WriteAt(w, c, at, StoppedRecord(w.state.sessions[at], pc.exitStatus, w.now), w.state.groups, FinishedNote(pc))
  }

  /** Asks the backend for a new session on the socket this process resolves. A failing
      transport may have committed it, and then nobody can say which session it is. */
  function Launch(w: World, env: string, record: SessionRecord, proof: OwnershipProof, c: Chance): (result: (Backend, bool)) {
    var place := Place(Server(record.target, env), record.id);
    if CanCreate(w.backend, place, c.identity, c.pane) && (!c.fault || c.takesEffect)
    then (Created(w.backend, place, proof, c.identity, c.pane), !c.fault)
    else (w.backend, false)
  }

  function ActivateStep(w: World, env: string, pc: Pc, c: Chance): (World, Pc)
    requires pc.ActivateFirst?
  {
    var at := Position(w.state.sessions, pc.id);
    if at == |w.state.sessions| || w.state.sessions[at].status != Creating || w.state.sessions[at].tmuxSession.Some? then (w, Failed)
    else
      var current := w.state.sessions[at];
      WriteAt(w, c, at, ActivatedRecord(current, pc.identity, pc.launched, env, w.now), w.state.groups,
              Noting(Entry(current, AuditAction.Activate, Some(Creating), Running, Some(pc.identity), None), Finished))
  }

  /** The trail never stops an operation, and a transition that changed nothing is no line.
      A trail that cannot be read is set aside, and the line starts a new one. */
  function NoteStep(w: World, pc: Pc, c: Chance): (World, Pc)
    requires pc.Noting?
  {
    if pc.entry.from == Some(pc.entry.to) || (c.fault && !c.takesEffect) then (w, pc.next)
    else
      var kept := if c.unreadable then [] else w.trail;
      (w.(trail := RetainBounded(kept + [pc.entry.(at := w.now)], c.retentionDays, w.now)), pc.next)
  }

  function InsertStep(w: World, pc: Pc, c: Chance): (World, Pc)
    requires pc.Insert?
  {
    var stamped := pc.record.(createdAt := w.now, lastUsedAt := w.now);
    var (after, ok) := Saved(w, c, State(w.state.sessions + [stamped], w.state.groups));
    (after, if ok then Noting(Entry(stamped, AuditAction.Create, None, Creating, None, None), LaunchFirst(stamped)) else Failed)
  }

  function ReloadStep(w: World, pc: Pc, c: Chance): Pc
    requires pc.Reload?
  {
    var found := Lookup(w.state.sessions, pc.snap.id);
    if c.fault || found.None? || pc.snap.proof.None? then Failed
    else Noting(Entry(found.value, AuditAction.Restart, Some(pc.snap.status), Creating, found.value.tmuxSession, found.value.exitStatus),
                LaunchAgain(found.value, pc.snap.proof.value))
  }

  function LaunchStep(w: World, env: string, pc: Pc, c: Chance): (World, Pc)
    requires pc.LaunchAgain? || pc.LaunchFirst?
  {
    if pc.LaunchAgain? then
      var (backend, ok) := Launch(w, env, pc.reservation, pc.proof, c);
      (w.(backend := backend), if ok then Promote(pc.reservation, c.identity, Some(c.pane), Some(env), AuditAction.Activate) else Failed)
    else if pc.record.proof.None? then (w, Failed)
    else
      var (backend, ok) := Launch(w, env, pc.record, pc.record.proof.value, c);
      (w.(backend := backend),
       if ok then ActivateFirst(pc.record.id, c.identity, c.pane)
       else if backend != w.backend || c.unreadable then Failed
       else Retract(pc.record.id))
  }

  /** A creation that certainly failed takes its own reservation back. */
  function RetractStep(w: World, pc: Pc, c: Chance): World
    requires pc.Retract?
  {
    var kept := Filter(w.state.sessions, (r: SessionRecord) => r.id != pc.id || r.status != Creating || r.tmuxSession.Some?);
    Saved(w, c, State(kept, w.state.groups)).0
  }

  /** One atomic step of one operation, run by a process whose environment resolves `env`. */
  function Step(w: World, env: string, pc: Pc, c: Chance): (World, Pc) {
    if IsSwap(pc) then SwapStep(w, pc, c) else
    match pc
    case Start(op, id) => (w, if c.fault then Failed else AfterRead(op, Lookup(w.state.sessions, id)))
    case Insert(_) => InsertStep(w, pc, c)
    case Inspecting(op, snap) =>
      (w, if c.fault || snap.proof.None? then Failed else AfterInspect(op, snap, Answer(w, env, snap, c)))
    case Reinspecting(op, snap, identity) =>
      (w, if c.fault || snap.proof.None? then Failed else AfterReinspect(op, snap, identity, Answer(w, env, snap, c)))
    case Killing(_, snap, _, _) => if snap.proof.None? then (w, Failed) else KillStep(w, env, pc, c)
    case FinishStop(_, _, _) => FinishStopStep(w, pc, c)
    case Reload(_) => (w, ReloadStep(w, pc, c))
    case LaunchAgain(_, _) => LaunchStep(w, env, pc, c)
    case LaunchFirst(_) => LaunchStep(w, env, pc, c)
    case ActivateFirst(_, _, _) => ActivateStep(w, env, pc, c)
    case Retract(_) => (RetractStep(w, pc, c), Failed)
    case Noting(_, _) => NoteStep(w, pc, c)
    case _ => (w, pc)
  }

  function Later(w: World, c: Chance): World { w.(now := w.now + c.elapsed) }

  /** A step taken after some time has passed. */
  function Advance(w: World, env: string, pc: Pc, c: Chance): (World, Pc) {
    Step(Later(w, c), env, pc, c)
  }
}
