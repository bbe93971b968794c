/** The lifecycle operations as they are written (src/lifecycle.rs, and create_and_attach of
    src/cli.rs): methods that inspect, edit one stored record, act on tmux, and edit it again.
    What each step meets outside the program is given in advance, as the sequence `answers`;
    every method ends exactly where the step machine ends on those answers, and reports what
    that run determines. */
module LifecycleService {
  import opened Common
  import opened Records
  import opened Tmux
  import opened Audit
  import opened Lifecycle
  import opened Store
  import opened Validity
  import opened SingleIncarnation
  import opened StopRecovery

  datatype CloseError =
    | UnknownSession | AlreadyClosed | WorkloadUnknown | ConcurrentModification | StateFailed
    | InspectFailed | CloseFailed | FinalizeFailed | MissingOwnershipProof | MissingCommand
    | InvalidStatus | CreateFailed

  datatype Result<T> = Ok(value: T) | Err(error: CloseError)

  datatype ClosedWorkload = WasMissing | Terminated

  /** What a creation reports: the new session, a certain failure, or an uncertain one. */
  datatype Creation = Launched(identity: TmuxSessionId, pane: TmuxPaneId) | CertainlyFailed | Uncertain

  /** What a guarded kill reports. */
  datatype Closing = Closed | Rejected | Unanswered

  // ---------- What a write does ----------

  predicate Writes(pc: Pc) {
    IsSwap(pc) || pc.Insert? || pc.FinishStop? || pc.ActivateFirst? || pc.Retract?
  }

  /** Whether the record a swap was decided on is not there any more. */
  predicate Overtaken(w: World, pc: Pc)
    requires IsSwap(pc)
  {
    var at := Position(w.state.sessions, pc.snap.id);
    at == |w.state.sessions| || w.state.sessions[at] != pc.snap || (pc.MarkStopping? && IsClosed(pc.snap.status))
  }

  /** Whether the session a stop wants to end is not the one it marked any more. */
  predicate Replaced(w: World, pc: Pc)
    requires pc.FinishStop?
  {
    var at := Position(w.state.sessions, pc.snap.id);
    at == |w.state.sessions| || w.state.sessions[at].target != pc.snap.target ||
    (w.state.sessions[at].status != Ended && w.state.sessions[at].status != SessionStatus.Stopping)
  }

  /** Whether the reservation a creation wants to activate is not there any more. */
  predicate Unreserved(w: World, id: SessionId) {
    var at := Position(w.state.sessions, id);
    at == |w.state.sessions| || w.state.sessions[at].status != Creating || w.state.sessions[at].tmuxSession.Some?
  }

  function Stamped(r: SessionRecord, now: Instant): SessionRecord { r.(createdAt := now, lastUsedAt := now) }

  function CreationNote(r: SessionRecord): Pc {
    Noting(Entry(r, AuditAction.Create, None, Creating, None, None), LaunchFirst(r))
  }

  function ActivationNote(current: SessionRecord, session: TmuxSessionId): Pc {
    Noting(Entry(current, AuditAction.Activate, Some(Creating), Running, Some(session), None), Finished)
  }

  predicate Survives(r: SessionRecord, id: SessionId) { r.id != id || r.status != Creating || r.tmuxSession.Some? }

  /** The state a write wants to save and how it goes on, unless it finds nothing to write to. */
  function Attempt(w: World, env: string, pc: Pc): Option<(State, Pc)>
    requires Writes(pc)
  {
    var s := w.state;
    if IsSwap(pc) then
      var groups := if pc.MarkRemoved? then WithoutMembers(s.groups, {pc.snap.id}) else s.groups;
      if Overtaken(w, pc) then None
      else Some((State(s.sessions[Position(s.sessions, pc.snap.id) := Replacement(pc, w.now)], groups), AfterSwap(pc)))
    else match pc
      case Insert(record) =>
        var r := Stamped(record, w.now);
        Some((State(s.sessions + [r], s.groups), CreationNote(r)))
      case FinishStop(snap, _, exitStatus) =>
        var at := Position(s.sessions, snap.id);
        if Replaced(w, pc) || s.sessions[at].status == Ended then None
        else Some((State(s.sessions[at := StoppedRecord(s.sessions[at], exitStatus, w.now)], s.groups), FinishedNote(pc)))
      case ActivateFirst(id, session, pane) =>
        var at := Position(s.sessions, id);
        if Unreserved(w, id) then None
        else Some((State(s.sessions[at := ActivatedRecord(s.sessions[at], session, pane, env, w.now)], s.groups), ActivationNote(s.sessions[at], session)))
      case Retract(id) =>
        Some((State(Filter(s.sessions, (r: SessionRecord) => Survives(r, id)), s.groups), Failed))
  }

  /** Where a write goes that finds nothing to write to. */
  function Unwritten(w: World, pc: Pc): Pc
    requires Writes(pc)
  {
    if pc.FinishStop? && !Replaced(w, pc) then FinishedNote(pc) else Failed
  }

  /** Whether a write attempts to save a state that validation does not accept. */
  ghost predicate Refused(w: World, env: string, pc: Pc) {
    Writes(pc) && var attempt := Attempt(w, env, pc); attempt.Some? && !Valid(attempt.value.0)
  }

  /** A state that validation refuses is a write that failed without an effect. */
  ghost function Heard(w: World, env: string, pc: Pc, c: Chance): Chance {
    if Refused(w, env, pc) then c.(fault := true, takesEffect := false) else c
  }

  /** What becomes of an attempt to save a state and go on. */
  ghost function Saving(w: World, c: Chance, s: State, next: Pc): (World, Pc) {
    if Valid(s) && (!c.fault || c.takesEffect) then (w.(state := s), if c.fault then Failed else next) else (w, Failed)
  }

  ghost function Attempted(w: World, env: string, pc: Pc, c: Chance): (World, Pc)
    requires Writes(pc)
  {
    match Attempt(w, env, pc)
    case None => (w, Unwritten(w, pc))
    case Some((s, next)) => Saving(w, c, s, next)
  }

  /** A step that writes saves what it attempts, unless its chance prevents it. */
  lemma {:induction false} StepsAttempt(w: World, env: string, pc: Pc, c: Chance)
    requires Writes(pc)
    ensures Step(w, env, pc, c) ==
      match Attempt(w, env, pc)
      case None => (w, Unwritten(w, pc))
      case Some((s, next)) => (if c.fault && !c.takesEffect then w else w.(state := s), if c.fault then Failed else next)
  {
    if pc.Retract? {
      FilterAgrees(w.state.sessions, (r: SessionRecord) => Survives(r, pc.id),
                   (r: SessionRecord) => r.id != pc.id || r.status != Creating || r.tmuxSession.Some?);
    }
  }

  /** A step that writes saves exactly what it attempts, if validation and the disk allow. */
  lemma {:induction false} WritesAreAttempts(w: World, env: string, pc: Pc, c: Chance)
    requires Writes(pc)
    ensures Step(w, env, pc, Heard(w, env, pc, c)) == Attempted(w, env, pc, c)
  {
    StepsAttempt(w, env, pc, Heard(w, env, pc, c));
  }

  // ---------- Why a step fails ----------

  /** Why an operation does not go on with the record it found. */
  function WhyUnread(op: Operation, snap: SessionRecord): CloseError {
    match op
    case ToStop => if IsClosed(snap.status) then AlreadyClosed else MissingOwnershipProof
    case ToOpen => if snap.status != Running then InvalidStatus else MissingOwnershipProof
    case ToObserve => MissingOwnershipProof
    case ToRestart =>
      if snap.proof.None? then MissingOwnershipProof else if snap.status == Removed then InvalidStatus else MissingCommand
    case ToRemove => InvalidStatus
  }

  /** Why an operation does not go on after its first look. */
  function WhyUninspected(op: Operation, snap: SessionRecord, answer: WorkloadState): CloseError {
    if answer.Unknown? then WorkloadUnknown
    else if op == ToOpen && !answer.RunningAs? then InvalidStatus
    else if op == ToRestart && answer.Missing? then InvalidStatus
    else ConcurrentModification
  }

  /** Why an operation does not go on after its second look. */
  function WhyUnconfirmed(op: Operation, answer: WorkloadState): CloseError {
    if answer.Unknown? then WorkloadUnknown
    else if op == ToRestart && answer.Missing? then InvalidStatus
    else ConcurrentModification
  }

  /** The kind of error that a write is that changes nothing. */
  function WriteError(w: World, pc: Pc): CloseError
    requires Writes(pc)
  {
    if IsSwap(pc) then (if pc.MarkStopping? && !Overtaken(w, pc) then StateFailed else ConcurrentModification)
    else if pc.FinishStop? then (if Replaced(w, pc) then ConcurrentModification else FinalizeFailed)
    else if pc.Retract? then CreateFailed
    else StateFailed
  }

  /** The kind of error that a failing step is. */
  function Why(w: World, env: string, pc: Pc, c: Chance): CloseError {
    if Writes(pc) then WriteError(w, pc) else
    match pc
    case Start(op, id) => (
      var found := Lookup(w.state.sessions, id);
      if c.fault then StateFailed else if found.None? then UnknownSession else WhyUnread(op, found.value))
    case Inspecting(op, snap) =>
      if c.fault || snap.proof.None? then InspectFailed else WhyUninspected(op, snap, Answer(w, env, snap, c))
    case Reinspecting(op, snap, _) =>
      if c.fault || snap.proof.None? then InspectFailed else WhyUnconfirmed(op, Answer(w, env, snap, c))
    case Killing(_, snap, identity, _) =>
      if c.fault || snap.proof.None? then CloseFailed
      else if Guarded(w.backend, PlaceOf(env, snap), snap.proof.value, identity) then InvalidStatus
      else ConcurrentModification
    case Reload(_) => if c.fault then StateFailed else UnknownSession
    case LaunchAgain(_, _) => CreateFailed
    case LaunchFirst(_) => CreateFailed
    case _ => StateFailed
  }

  // ---------- The run that an operation is ----------

  /** Where a run stands, and after a failure the kind of error it is. */
  datatype Reached = Reached(world: World, pc: Pc, why: Option<CloseError>)

  /** One step at a moment, on what the outside answers. */
  ghost function StepAt(w: World, env: string, pc: Pc, c: Chance, why: Option<CloseError>): Reached {
    var stepped := Step(w, env, pc, Heard(w, env, pc, c));
    Reached(stepped.0, stepped.1, if pc != Failed && stepped.1 == Failed then Some(Why(w, env, pc, c)) else why)
  }

  ghost function OneStep(r: Reached, env: string, c: Chance): Reached {
    StepAt(Later(r.world, c), env, r.pc, c, r.why)
  }

  predicate IsOver(pc: Pc) { pc == Finished || pc == Failed }

  /** The `k`-th step of a run that has not ended meets the answer that is due. */
  ghost predicate Linked(run: seq<Reached>, env: string, answers: nat -> Chance, from: nat, k: nat)
    requires k + 1 < |run|
  {
    !IsOver(run[k].pc) && run[k + 1] == OneStep(run[k], env, answers(from + k))
  }

  /** A run of the step machine that meets the answers from `from` on, one at each step. */
  ghost predicate IsPath(run: seq<Reached>, env: string, answers: nat -> Chance, from: nat) {
    |run| > 0 && forall k: nat | k + 1 < |run| :: Linked(run, env, answers, from, k)
  }

  lemma {:induction false} PathGrows(run: seq<Reached>, env: string, answers: nat -> Chance, from: nat, next: Reached)
    requires IsPath(run, env, answers, from) && !IsOver(run[|run| - 1].pc)
    requires next == OneStep(run[|run| - 1], env, answers(from + |run| - 1))
    ensures IsPath(run + [next], env, answers, from)
  {
    var longer := run + [next];
    assert longer[|run| - 1] == run[|run| - 1] && longer[|run|] == next;
    forall k: nat | k + 1 < |longer| ensures Linked(longer, env, answers, from, k) {
      if k + 1 < |run| { LinkStays(run, env, answers, from, next, k); }
    }
  }

  lemma {:induction false} LinkStays(run: seq<Reached>, env: string, answers: nat -> Chance, from: nat, next: Reached, k: nat)
    requires k + 1 < |run| && Linked(run, env, answers, from, k)
    ensures Linked(run + [next], env, answers, from, k)
  {
    var longer := run + [next];
    assert longer[k] == run[k] && longer[k + 1] == run[k + 1];
  }

  lemma {:induction false} WritingStep(before: World, env: string, pc: Pc, c: Chance)
    requires Writes(pc)
    ensures var w, reached := Later(before, c), OneStep(Reached(before, pc, None), env, c);
      && (reached.world, reached.pc) == Attempted(w, env, pc, c)
      && reached.why == if reached.pc == Failed then Some(WriteError(w, pc)) else None
  {
    WritesAreAttempts(Later(before, c), env, pc, c);
  }

  lemma {:induction false} OtherStep(before: World, env: string, pc: Pc, c: Chance)
    requires !Writes(pc) && pc != Failed
    ensures var w, reached := Later(before, c), OneStep(Reached(before, pc, None), env, c);
      && (reached.world, reached.pc) == Lifecycle.Step(w, env, pc, c)
      && reached.why == if reached.pc == Failed then Some(Why(w, env, pc, c)) else None
  {}

  /** How a run goes on where the next step writes. */
  lemma {:induction false} WriteReaches(run: seq<Reached>, env: string, answers: nat -> Chance, from: nat, before: World, pc: Pc, c: Chance)
    returns (reached: Reached)
    requires IsPath(run, env, answers, from) && run[|run| - 1] == Reached(before, pc, None) && c == answers(from + |run| - 1)
    requires Writes(pc)
    ensures IsPath(run + [reached], env, answers, from)
    ensures var w := Later(before, c);
      && (reached.world, reached.pc) == Attempted(w, env, pc, c)
      && reached.why == if reached.pc == Failed then Some(WriteError(w, pc)) else None
  {
    reached := OneStep(Reached(before, pc, None), env, c);
    PathGrows(run, env, answers, from, reached);
    WritingStep(before, env, pc, c);
  }

  lemma {:induction false} SaveReaches(run: seq<Reached>, env: string, answers: nat -> Chance, from: nat, before: World, pc: Pc, c: Chance, s: State, next: Pc)
    returns (reached: Reached)
    requires IsPath(run, env, answers, from) && run[|run| - 1] == Reached(before, pc, None) && c == answers(from + |run| - 1)
    requires Writes(pc) && Attempt(Later(before, c), env, pc) == Some((s, next))
    ensures IsPath(run + [reached], env, answers, from)
    ensures (reached.world, reached.pc) == Saving(Later(before, c), c, s, next)
    ensures reached.why == if reached.pc == Failed then Some(WriteError(Later(before, c), pc)) else None
  {
    reached := WriteReaches(run, env, answers, from, before, pc, c);
  }

  /** How a run goes on where the next step leaves the stored state alone. */
  lemma {:induction false} OtherReaches(run: seq<Reached>, env: string, answers: nat -> Chance, from: nat, before: World, pc: Pc, c: Chance)
    returns (reached: Reached)
    requires IsPath(run, env, answers, from) && run[|run| - 1] == Reached(before, pc, None) && c == answers(from + |run| - 1)
    requires !Writes(pc) && !IsOver(pc)
    ensures IsPath(run + [reached], env, answers, from)
    ensures var w := Later(before, c);
      && (reached.world, reached.pc) == Lifecycle.Step(w, env, pc, c)
      && reached.why == if reached.pc == Failed then Some(Why(w, env, pc, c)) else None
  {
    reached := OneStep(Reached(before, pc, None), env, c);
    PathGrows(run, env, answers, from, reached);
    OtherStep(before, env, pc, c);
  }

  lemma {:induction false} PathsAgree(run: seq<Reached>, other: seq<Reached>, env: string, answers: nat -> Chance, from: nat, k: nat)
    requires IsPath(run, env, answers, from) && IsPath(other, env, answers, from) && run[0] == other[0]
    requires k < |run| && k < |other|
    ensures run[k] == other[k]
  {
    if k > 0 {
      PathsAgree(run, other, env, answers, from, k - 1);
      assert Linked(run, env, answers, from, k - 1) && Linked(other, env, answers, from, k - 1);
    }
  }

  lemma RunsEndOnce(run: seq<Reached>, env: string, answers: nat -> Chance, from: nat, k: nat)
    requires IsPath(run, env, answers, from) && k < |run| && IsOver(run[k].pc)
    ensures |run| == k + 1
  {
    assert k + 1 < |run| ==> Linked(run, env, answers, from, k);
  }

  /** There is only one run from a start to an end on given answers, so these determine how
      many of them an operation meets, what it leaves and how it fails. */
  lemma AnswersDetermineTheRun(run: seq<Reached>, other: seq<Reached>, env: string, answers: nat -> Chance, from: nat)
    requires IsPath(run, env, answers, from) && IsPath(other, env, answers, from) && run[0] == other[0]
    requires IsOver(run[|run| - 1].pc) && IsOver(other[|other| - 1].pc)
    ensures run == other
  {
    var k := if |run| <= |other| then |run| - 1 else |other| - 1;
    PathsAgree(run, other, env, answers, from, k);
    RunsEndOnce(run, env, answers, from, k);
    RunsEndOnce(other, env, answers, from, k);
    forall i | 0 <= i < |run| ensures run[i] == other[i] {
      PathsAgree(run, other, env, answers, from, i);
    }
  }

  // ---------- The backend and the trail ----------

  class TmuxBackend {
    var b: Backend

    constructor ()
      ensures b == Backend(map[], map[], 0)
    {
      b := Backend(map[], map[], 0);
    }

    method Ask(place: Place, proof: OwnershipProof, pane: Option<TmuxPaneId>, unreadable: bool) returns (answer: WorkloadState)
      ensures answer == if unreadable then Unknown else Inspect(b, place, proof, pane)
    {
      return if unreadable then Unknown else Inspect(b, place, proof, pane);
    }

    /** The guard and the kill are one command on the server. */
    method CloseExact(place: Place, proof: OwnershipProof, identity: TmuxSessionId, c: Chance) returns (closing: Closing)
      modifies this
      ensures var guarded := Guarded(old(b), place, proof, identity);
        && b == (if guarded && (!c.fault || c.takesEffect) then Without(old(b), place) else old(b))
        && closing == (if c.fault then Unanswered else if guarded then Closed else Rejected)
    {
      if c.fault && !c.takesEffect { return Unanswered; }
      closing := Rejected;
      if Guarded(b, place, proof, identity) {
        b := Without(b, place);
        closing := Closed;
      }
      if c.fault { closing := Unanswered; }
    }

    method Create(place: Place, proof: OwnershipProof, c: Chance) returns (created: Creation)
      modifies this
      ensures var acts := CanCreate(old(b), place, c.identity, c.pane) && (!c.fault || c.takesEffect);
        && b == (if acts then Created(old(b), place, proof, c.identity, c.pane) else old(b))
        && (created.Launched? <==> acts && !c.fault)
        && (created.Launched? ==> created == Launched(c.identity, c.pane))
        && (created.Uncertain? <==> (acts && c.fault) || (!acts && c.unreadable))
    {
      if CanCreate(b, place, c.identity, c.pane) && (!c.fault || c.takesEffect) {
        b := Created(b, place, proof, c.identity, c.pane);
        return if c.fault then Uncertain else Launched(c.identity, c.pane);
      }
      return if c.unreadable then Uncertain else CertainlyFailed;
    }
  }

  class AuditStore {
    var entries: seq<AuditEntry>

    constructor ()
      ensures entries == []
    {
      entries := [];
    }

    /** Pushes one entry and retains the window; an unreadable trail is set aside first. */
    method RecordAt(e: AuditEntry, now: Instant, c: Chance)
      modifies this
      ensures entries ==
        if c.fault && !c.takesEffect then old(entries)
        else RetainBounded((if c.unreadable then [] else old(entries)) + [e], c.retentionDays, now)
    {
      if !c.fault || c.takesEffect {
        var kept := if c.unreadable then [] else entries;
        entries := RetainBounded(kept + [e], c.retentionDays, now);
      }
    }
  }

  /** Keeps everything but a reservation of this id that names no session. */
  method WithoutReservation(sessions: seq<SessionRecord>, id: SessionId) returns (kept: seq<SessionRecord>)
    ensures kept == Filter(sessions, (r: SessionRecord) => Survives(r, id))
  {
    kept := [];
    for i := 0 to |sessions|
      invariant kept == Filter(sessions[..i], (r: SessionRecord) => Survives(r, id))
    {
      FilterGrows(sessions, i, (r: SessionRecord) => Survives(r, id));
      var r := sessions[i];
      if r.id != id || r.status != Creating || r.tmuxSession.Some? {
        kept := kept + [r];
      }
    }
    assert sessions[..|sessions|] == sessions;
  }

  lemma {:induction false} ReplacedIsFound(sessions: seq<SessionRecord>, id: SessionId, updated: SessionRecord)
    requires Position(sessions, id) < |sessions| && updated.id == id
    ensures var at := Position(sessions, id); Lookup(sessions[at := updated], id) == Some(updated)
  {
    var at := Position(sessions, id);
    var after := sessions[at := updated];
    assert after[at].id == id && forall i | 0 <= i < at :: after[i] == sessions[i];
  }

  function ErrorOf<T>(result: Result<T>): Option<CloseError> {
    match result
    case Ok(_) => None
    case Err(error) => Some(error)
  }

  class LifecycleService {
    const env: string
    const store: StateStore
    const tmux: TmuxBackend
    const audit: AuditStore
    const answers: nat -> Chance
    var now: Instant
    var turn: nat

    /** The run that the method in progress has followed so far, and where it stands. */
    ghost var run: seq<Reached>
    ghost var from: nat
    ghost var pc: Pc
    ghost var why: Option<CloseError>

    constructor (env: string, store: StateStore, tmux: TmuxBackend, audit: AuditStore, answers: nat -> Chance, now: Instant)
      ensures this.env == env && this.store == store && this.tmux == tmux && this.audit == audit && this.answers == answers
      ensures this.now == now && turn == 0
    {
      this.env, this.store, this.tmux, this.audit, this.answers, this.now, turn := env, store, tmux, audit, answers, now, 0;
    }

    ghost function Present(): World
      reads this, store, tmux, audit
    {
      World(store.state, tmux.b, audit.entries, now)
    }

    /** From a world and a step, the answers since `from` have led here: to the end, or to a
        failure of the kind that is reported. */
    ghost predicate Ran(origin: World, start: Pc, from: nat, error: Option<CloseError>)
      reads this, store, tmux, audit
    {
      exists run :: IsPath(run, env, answers, from) && |run| == turn - from + 1 && run[0] == Reached(origin, start, None)
        && run[|run| - 1] == Reached(Present(), if error.None? then Finished else Failed, error)
    }

    ghost predicate Follows()
      reads this, store, tmux, audit
    {
      && IsPath(run, env, answers, from) && |run| == turn - from + 1
      && run[|run| - 1] == Reached(Present(), pc, why) && (pc != Failed ==> why.None?)
    }

    /** Time has passed, and the step that meets `c` is still to be taken. */
    ghost predicate Awaits(before: World, c: Chance)
      reads this
    {
      && IsPath(run, env, answers, from) && |run| == turn - from && c == answers(turn - 1)
      && run[|run| - 1] == Reached(before, pc, why) && !IsOver(pc) && why.None?
    }

    /** The method has come to its end, with the error it is about to report. */
    ghost predicate Returns(error: Option<CloseError>)
      reads this
    {
      if error.None? then pc == Finished else pc == Failed && why == error
    }

    /** What an exact inspection of a recorded session answers as things are. */
    ghost function Seen(s: State, id: SessionId): WorkloadState
      reads tmux
    {
      var found := Lookup(s.sessions, id);
      if found.None? then Unknown else Shown(found.value)
    }

    ghost function Shown(r: SessionRecord): WorkloadState
      reads tmux
    {
      if r.proof.None? then Unknown else Inspect(tmux.b, PlaceOf(env, r), r.proof.value, r.tmuxPane)
    }

    ghost method Begin(start: Pc)
      requires !IsOver(start)
      modifies this`run, this`from, this`pc, this`why
      ensures Follows() && run == [Reached(Present(), start, None)] && from == turn && pc == start
    {
      run, from, pc, why := [Reached(Present(), start, None)], turn, start, None;
    }

    method Next() returns (c: Chance, ghost before: World)
      requires Follows() && !IsOver(pc)
      modifies this`now, this`turn
      ensures Awaits(before, c) && before == old(Present()) && turn == old(turn) + 1
      ensures Present() == Later(before, c)
    {
      before := Present();
      c := answers(turn);
      turn := turn + 1;
      now := now + c.elapsed;
    }

    /** Records that the world has taken the step it was awaiting. */
    ghost method Step(before: World, c: Chance, reached: Reached)
      requires Awaits(before, c) && IsPath(run + [reached], env, answers, from)
      requires Present() == reached.world && (reached.pc != Failed ==> reached.why.None?)
      modifies this`run, this`pc, this`why
      ensures Follows() && run[0] == old(run[0]) && pc == reached.pc && why == reached.why
    {
      run, pc, why := run + [reached], reached.pc, reached.why;
    }

    // ---------- Reading ----------

    method OwnedRecord(id: SessionId) returns (found: Result<SessionRecord>)
      requires Follows() && pc.Start? && pc.id == id
      modifies this`now, this`turn, this`run, this`pc, this`why
      ensures Follows() && run[0] == old(run[0]) && Present() == old(Present()).(now := now)
      ensures found.Ok? ==> Lookup(store.state.sessions, id) == Some(found.value) && pc == AfterRead(old(pc).op, Some(found.value))
      ensures found.Err? ==> pc == Failed
      ensures pc == Failed ==> why == Some(if found.Err? then found.error else WhyUnread(old(pc).op, found.value))
    {
      var c, before := Next();
      var loaded := store.Load(c.fault);
      ghost var reached := OtherReaches(run, env, answers, from, before, pc, c);
      Step(before, c, reached);
      if loaded.None? {
        return Err(StateFailed);
      }
      var record := Lookup(loaded.value.sessions, id);
      return if record.None? then Err(UnknownSession) else Ok(record.value);
    }

    method InspectExact(snap: SessionRecord) returns (answer: Result<WorkloadState>)
      requires Follows() && (pc.Inspecting? || pc.Reinspecting?) && pc.snap == snap && snap.proof.Some?
      modifies this`now, this`turn, this`run, this`pc, this`why
      ensures Follows() && run[0] == old(run[0]) && Present() == old(Present()).(now := now)
      ensures answer.Ok? && !answer.value.Unknown? ==> answer.value == Inspect(tmux.b, PlaceOf(env, snap), snap.proof.value, snap.tmuxPane)
      ensures pc == (if answer.Err? then Failed
                     else if old(pc).Inspecting? then AfterInspect(old(pc).op, snap, answer.value)
                     else AfterReinspect(old(pc).op, snap, old(pc).identity, answer.value))
      ensures pc == Failed ==> why == Some(if answer.Err? then answer.error
                                           else if old(pc).Inspecting? then WhyUninspected(old(pc).op, snap, answer.value)
                                           else WhyUnconfirmed(old(pc).op, answer.value))
    {
      var c, before := Next();
      var asked := tmux.Ask(PlaceOf(env, snap), snap.proof.value, snap.tmuxPane, c.unreadable);
      ghost var reached := OtherReaches(run, env, answers, from, before, pc, c);
      Step(before, c, reached);
      return if c.fault then Err(InspectFailed) else Ok(asked);
    }

    // ---------- Acting on tmux ----------

    method CloseExact(snap: SessionRecord, identity: TmuxSessionId) returns (refused: Option<CloseError>)
      requires Follows() && pc.Killing? && pc.snap == snap && pc.identity == identity && snap.proof.Some?
      modifies this`now, this`turn, this`run, this`pc, this`why, tmux
      ensures Follows() && run[0] == old(run[0])
      ensures pc == if refused.None? then AfterKill(old(pc).op, snap, identity, old(pc).exitStatus) else Failed
      ensures refused.None? ==> tmux.b == Without(old(tmux.b), PlaceOf(env, snap)) && tmux.b != old(tmux.b)
      ensures pc == Failed ==> why == Some(refused.GetOr(InvalidStatus))
    {
      var c, before := Next();
      var closing := tmux.CloseExact(PlaceOf(env, snap), snap.proof.value, identity, c);
      ghost var reached := OtherReaches(run, env, answers, from, before, pc, c);
      Step(before, c, reached);
      match closing
      case Closed => return None;
      case Rejected => return Some(ConcurrentModification);
      case Unanswered => return Some(CloseFailed);
    }

    method Create(record: SessionRecord, proof: OwnershipProof) returns (created: Creation)
      requires Follows()
      requires pc == LaunchAgain(record, proof) || (pc == LaunchFirst(record) && record.proof == Some(proof))
      modifies this`now, this`turn, this`run, this`pc, this`why, tmux
      ensures Follows() && run[0] == old(run[0]) && (pc == Failed ==> why == Some(CreateFailed))
      ensures pc == (if created.Launched? && old(pc).LaunchAgain? then
                       Promote(record, created.identity, Some(created.pane), Some(env), AuditAction.Activate)
                     else if created.Launched? then ActivateFirst(record.id, created.identity, created.pane)
                     else if created.CertainlyFailed? && old(pc).LaunchFirst? then Retract(record.id)
                     else Failed)
    {
      var c, before := Next();
      created := tmux.Create(Place(Server(record.target, env), record.id), proof, c);
      ghost var reached := OtherReaches(run, env, answers, from, before, pc, c);
      Step(before, c, reached);
    }

    // ---------- Writing under the lock ----------

    /** Saves the state that the step attempts. */
    method Commit(s: State, ghost next: Pc, c: Chance, ghost before: World) returns (ok: bool)
      requires Awaits(before, c) && Present() == Later(before, c)
      requires Writes(pc) && Attempt(Present(), env, pc) == Some((s, next))
      modifies this`run, this`pc, this`why, store
      ensures Follows() && run[0] == old(run[0]) && pc == (if ok then next else Failed)
      ensures pc == Failed ==> why == Some(WriteError(old(Present()), old(pc)))
      ensures ok ==> store.state == s
    {
      ghost var reached := SaveReaches(run, env, answers, from, before, pc, c, s, next);
      ok := store.Save(s, WriteChance(c.fault, c.takesEffect));
      Step(before, c, reached);
    }

    /** Takes a step that finds nothing to write to. */
    ghost method Skip(c: Chance, before: World)
      requires Awaits(before, c) && Present() == Later(before, c)
      requires Writes(pc) && Attempt(Present(), env, pc) == None
      modifies this`run, this`pc, this`why
      ensures Follows() && run[0] == old(run[0]) && pc == Unwritten(Present(), old(pc))
      ensures pc == Failed ==> why == Some(WriteError(Present(), old(pc)))
    {
      var reached := WriteReaches(run, env, answers, from, before, pc, c);
      Step(before, c, reached);
    }

    /** Saves an edited record in the place of the one that was read. */
    method Swap(at: nat, edited: SessionRecord, groups: seq<Group>, c: Chance, ghost before: World) returns (ok: bool)
      requires Awaits(before, c) && Present() == Later(before, c)
      requires IsSwap(pc) && !Overtaken(Present(), pc) && at == Position(store.state.sessions, pc.snap.id)
      requires edited == Replacement(pc, now)
      requires groups == if pc.MarkRemoved? then WithoutMembers(store.state.groups, {pc.snap.id}) else store.state.groups
      modifies this`run, this`pc, this`why, store
      ensures Follows() && run[0] == old(run[0]) && pc == (if ok then AfterSwap(old(pc)) else Failed)
      ensures !ok ==> why == Some(if old(pc).MarkStopping? then StateFailed else ConcurrentModification)
      ensures ok ==> Lookup(store.state.sessions, edited.id) == Some(edited)
    {
      ReplacedIsFound(store.state.sessions, pc.snap.id, edited);
      ok := Commit(State(store.state.sessions[at := edited], groups), AfterSwap(pc), c, before);
    }

    /** The record of a session says it runs as an incarnation. */
    ghost predicate RunsAs(id: SessionId, identity: TmuxSessionId)
      reads store
    {
      var found := Lookup(store.state.sessions, id);
      found.Some? && found.value.status == Running && found.value.tmuxSession == Some(identity)
    }

    method EnsureStopping(snap: SessionRecord, identity: Option<TmuxSessionId>) returns (refused: Option<CloseError>)
      requires Follows() && pc == MarkStopping(snap, identity)
      modifies this`now, this`turn, this`run, this`pc, this`why, store
      ensures Follows() && run[0] == old(run[0]) && pc == (if refused.None? then AfterSwap(old(pc)) else Failed) && (refused.Some? ==> why == refused)
    {
      var c, before := Next();
      var s := store.state;
      var at := Position(s.sessions, snap.id);
      if at == |s.sessions| || s.sessions[at] != snap || IsClosed(snap.status) {
        Skip(c, before);
        return Some(ConcurrentModification);
      }
      var current := s.sessions[at];
      current := current.(tmuxSession := identity.Or(current.tmuxSession));
      current := current.(status := SessionStatus.Stopping);
      var ok := Swap(at, current, s.groups, c, before);
      return if ok then None else Some(StateFailed);
    }

    method StampOpened(snap: SessionRecord, identity: TmuxSessionId) returns (ok: bool)
      requires Follows() && pc == MarkOpened(snap, identity)
      modifies this`now, this`turn, this`run, this`pc, this`why, store
      ensures Follows() && run[0] == old(run[0]) && pc == (if ok then AfterSwap(old(pc)) else Failed) && (!ok ==> why == Some(ConcurrentModification))
      ensures ok && snap.status == Running ==> RunsAs(snap.id, identity)
    {
      var c, before := Next();
      var s := store.state;
      var at := Position(s.sessions, snap.id);
      if at == |s.sessions| || s.sessions[at] != snap {
        Skip(c, before);
        return false;
      }
      var current := s.sessions[at];
      current := current.(tmuxSession := Some(identity));
      current := current.(lastUsedAt := now);
      ok := Swap(at, current, s.groups, c, before);
    }

    method MarkObserved(snap: SessionRecord, identity: TmuxSessionId) returns (ok: bool)
      requires Follows() && pc == Pc.MarkObserved(snap, identity)
      modifies this`now, this`turn, this`run, this`pc, this`why, store
      ensures Follows() && run[0] == old(run[0]) && pc == (if ok then AfterSwap(old(pc)) else Failed) && (!ok ==> why == Some(ConcurrentModification))
    {
      var c, before := Next();
      var s := store.state;
      var at := Position(s.sessions, snap.id);
      if at == |s.sessions| || s.sessions[at] != snap {
        Skip(c, before);
        return false;
      }
      var current := s.sessions[at];
      current := current.(status := Running);
      current := current.(tmuxSession := Some(identity));
      current := current.(closedAt := None);
      current := current.(exitStatus := None);
      ok := Swap(at, current, s.groups, c, before);
    }

    method MarkEnded(snap: SessionRecord, identity: Option<TmuxSessionId>, exitStatus: Option<int>) returns (ok: bool)
      requires Follows() && pc == Pc.MarkEnded(snap, identity, exitStatus)
      modifies this`now, this`turn, this`run, this`pc, this`why, store
      ensures Follows() && run[0] == old(run[0]) && pc == (if ok then AfterSwap(old(pc)) else Failed) && (!ok ==> why == Some(ConcurrentModification))
    {
      var c, before := Next();
      var s := store.state;
      var at := Position(s.sessions, snap.id);
      if at == |s.sessions| || s.sessions[at] != snap {
        Skip(c, before);
        return false;
      }
      var current := s.sessions[at];
      current := current.(status := Ended);
      current := current.(tmuxSession := identity.Or(current.tmuxSession));
      current := current.(closedAt := Some(current.closedAt.GetOr(now)));
      current := current.(exitStatus := exitStatus);
      if FailedImmediately(current, now) {
        current := NoteImmediateFailure(current, now);
      } else {
        current := current.(immediateFailures := []);
      }
      ok := Swap(at, current, s.groups, c, before);
    }

    method PromoteRunning(snap: SessionRecord, session: TmuxSessionId, pane: Option<TmuxPaneId>, socket: Option<string>, ghost action: AuditAction) returns (ok: bool)
      requires Follows() && pc == Promote(snap, session, pane, socket, action)
      modifies this`now, this`turn, this`run, this`pc, this`why, store
      ensures Follows() && run[0] == old(run[0]) && pc == (if ok then AfterSwap(old(pc)) else Failed) && (!ok ==> why == Some(ConcurrentModification))
      ensures ok ==> RunsAs(snap.id, session)
    {
      var c, before := Next();
      var s := store.state;
      var at := Position(s.sessions, snap.id);
      if at == |s.sessions| || s.sessions[at] != snap {
        Skip(c, before);
        return false;
      }
      var current := s.sessions[at];
      current := current.(status := Running);
      current := current.(tmuxSession := Some(session));
      current := current.(tmuxPane := pane);
      current := current.(tmuxSocket := socket);
      current := current.(closedAt := None);
      current := current.(exitStatus := None);
      current := current.(lastUsedAt := now);
      ok := Swap(at, current, s.groups, c, before);
    }

    method ReserveAgain(snap: SessionRecord) returns (ok: bool)
      requires Follows() && pc == Reserve(snap)
      modifies this`now, this`turn, this`run, this`pc, this`why, store
      ensures Follows() && run[0] == old(run[0]) && pc == (if ok then AfterSwap(old(pc)) else Failed) && (!ok ==> why == Some(ConcurrentModification))
      ensures ok ==> Lookup(store.state.sessions, snap.id) == Some(ReservedRecord(snap))
    {
      var c, before := Next();
      var s := store.state;
      var at := Position(s.sessions, snap.id);
      if at == |s.sessions| || s.sessions[at] != snap {
        Skip(c, before);
        return false;
      }
      var current := s.sessions[at];
      current := current.(status := Creating);
      current := current.(tmuxSession := None);
      current := current.(tmuxPane := None);
      current := current.(tmuxSocket := None);
      current := current.(closedAt := None);
      current := current.(exitStatus := None);
      ok := Swap(at, current, s.groups, c, before);
    }

    method FinalizeRemoved(snap: SessionRecord) returns (ok: bool)
      requires Follows() && pc == MarkRemoved(snap)
      modifies this`now, this`turn, this`run, this`pc, this`why, store
      ensures Follows() && run[0] == old(run[0]) && pc == (if ok then AfterSwap(old(pc)) else Failed) && (!ok ==> why == Some(ConcurrentModification))
    {
      var c, before := Next();
      var s := store.state;
      var at := Position(s.sessions, snap.id);
      if at == |s.sessions| || s.sessions[at] != snap {
        Skip(c, before);
        return false;
      }
      var current := s.sessions[at];
      current := current.(status := Removed);
      current := current.(lastUsedAt := now);
      current := current.(closedAt := Some(current.closedAt.GetOr(now)));
      ok := Swap(at, current, WithoutMembers(s.groups, {snap.id}), c, before);
    }

    /** Unlike the swaps, the final write of a stop re-reads the record and only asks that it
        is still the same stopping session. */
    method FinishClose(id: SessionId, target: string, exitStatus: Option<int>) returns (refused: Option<CloseError>)
      requires Follows() && pc.FinishStop? && pc.snap.id == id && pc.snap.target == target && pc.exitStatus == exitStatus
      modifies this`now, this`turn, this`run, this`pc, this`why, store
      ensures Follows() && run[0] == old(run[0]) && pc == (if refused.None? then FinishedNote(old(pc)) else Failed) && (refused.Some? ==> why == refused)
    {
      var c, before := Next();
      var s := store.state;
      var at := Position(s.sessions, id);
      if at == |s.sessions| || s.sessions[at].target != target || (s.sessions[at].status != Ended && s.sessions[at].status != SessionStatus.Stopping) {
        Skip(c, before);
        return Some(ConcurrentModification);
      }
      var record := s.sessions[at];
      if record.status == Ended {
        Skip(c, before);
        return None;
      }
      record := record.(status := Ended);
      record := record.(closedAt := Some(now));
      record := record.(exitStatus := exitStatus);
      if FailedImmediately(record, now) {
        record := NoteImmediateFailure(record, now);
      } else {
        record := record.(immediateFailures := []);
      }
      var ok := Commit(State(s.sessions[at := record], s.groups), FinishedNote(pc), c, before);
      return if ok then None else Some(FinalizeFailed);
    }

    /** Notes a transition, unless it changed nothing; whether the line was written or not,
        the operation goes on. */
    method Note(snap: SessionRecord, action: AuditAction, was: Option<SessionStatus>, becomes: SessionStatus, incarnation: Option<TmuxSessionId>, exitStatus: Option<int>)
      requires Follows() && pc.Noting? && pc.next != Failed && pc.entry == Entry(snap, action, was, becomes, incarnation, exitStatus)
      modifies this`now, this`turn, this`run, this`pc, this`why, audit
      ensures Follows() && run[0] == old(run[0]) && pc == old(pc).next
    {
      var c, before := Next();
      if was != Some(becomes) {
        audit.RecordAt(AuditEntry(now, snap.id, action, was, becomes, incarnation, exitStatus), now, c);
      }
      ghost var reached := OtherReaches(run, env, answers, from, before, pc, c);
      Step(before, c, reached);
    }

    // ---------- The operations ----------

    /** Succeeds or fails as the run on the answers does. If nothing fails from outside, a
        recorded open session that was tied to tmux is stopped. */
    method StopOwned(id: SessionId) returns (result: Result<ClosedWorkload>)
      modifies this, store, tmux, audit
      ensures Ran(old(Present()), Start(ToStop, id), old(turn), ErrorOf(result))
      ensures result.Ok? ==> result.value == if tmux.b == old(tmux.b) then WasMissing else Terminated
      ensures StopsUnlessHindered(old(Present()), env, answers, old(turn), turn, id, Present(), result.Ok?)
    {
      Begin(Start(ToStop, id));
      result := Stop(id);
      EveryUnhinderedStopHasStopped(run, env, answers, from, id, Present(), ErrorOf(result));
    }

    method Stop(id: SessionId) returns (result: Result<ClosedWorkload>)
      requires Follows() && pc == Start(ToStop, id)
      modifies this`now, this`turn, this`run, this`pc, this`why, store, tmux, audit
      ensures Follows() && run[0] == old(run[0]) && Returns(ErrorOf(result))
      ensures result.Ok? ==> result.value == if tmux.b == old(tmux.b) then WasMissing else Terminated
    {
      var found := OwnedRecord(id);
      if found.Err? { return Err(found.error); }
      var record := found.value;
      if IsClosed(record.status) { return Err(AlreadyClosed); }
      if record.proof.None? { return Err(MissingOwnershipProof); }
      var inspected := InspectExact(record);
      if inspected.Err? { return Err(inspected.error); }
      if inspected.value.Unknown? { return Err(WorkloadUnknown); }
      var identity: Option<TmuxSessionId> := None;
      if !inspected.value.Missing? {
        if Disagrees(record, inspected.value.identity) { return Err(ConcurrentModification); }
        identity := Some(inspected.value.identity);
      }
      result := MarkAndFinish(record, identity);
    }

    method MarkAndFinish(record: SessionRecord, identity: Option<TmuxSessionId>) returns (result: Result<ClosedWorkload>)
      requires Follows() && record.proof.Some? && pc == MarkStopping(record, identity)
      modifies this`now, this`turn, this`run, this`pc, this`why, store, tmux, audit
      ensures Follows() && run[0] == old(run[0]) && Returns(ErrorOf(result))
      ensures result.Ok? ==> result.value == if tmux.b == old(tmux.b) then WasMissing else Terminated
    {
      var refused := EnsureStopping(record, identity);
      if refused.Some? { return Err(refused.value); }
      Note(record, AuditAction.Stop, Some(record.status), SessionStatus.Stopping, identity.Or(record.tmuxSession), record.exitStatus);
      result := Finish(record, identity);
    }

    /** The second half of a stop, after its first write. */
    method Finish(record: SessionRecord, identity: Option<TmuxSessionId>) returns (result: Result<ClosedWorkload>)
      requires Follows() && record.proof.Some?
      requires pc == if identity.Some? then Reinspecting(ToStop, record, identity.value) else FinishStop(record, None, None)
      modifies this`now, this`turn, this`run, this`pc, this`why, store, tmux, audit
      ensures Follows() && run[0] == old(run[0]) && Returns(ErrorOf(result))
      ensures result.Ok? ==> result.value == if tmux.b == old(tmux.b) then WasMissing else Terminated
    {
      var observed: Option<int> := None;
      var workload := WasMissing;
      if identity.Some? {
        var ended := EndSession(record, identity.value);
        if ended.Err? { return Err(ended.error); }
        workload, observed := ended.value.0, ended.value.1;
      }
      var refused := FinishClose(record.id, record.target, observed);
      if refused.Some? { return Err(refused.value); }
      Note(record, Stopped, Some(SessionStatus.Stopping), Ended, identity.Or(record.tmuxSession), observed);
      return Ok(workload);
    }

    /** Looks again at a session that is marked as stopping, and kills exactly it. The status of
        a command that had already exited is kept; that of one that was killed says nothing. */
    method EndSession(record: SessionRecord, identity: TmuxSessionId) returns (ended: Result<(ClosedWorkload, Option<int>)>)
      requires Follows() && pc == Reinspecting(ToStop, record, identity) && record.proof.Some?
      modifies this`now, this`turn, this`run, this`pc, this`why, tmux
      ensures Follows() && run[0] == old(run[0]) && pc == (if ended.Ok? then FinishStop(record, Some(identity), ended.value.1) else Failed)
      ensures ended.Err? ==> why == Some(ended.error)
      ensures ended.Ok? ==> ended.value.0 == if tmux.b == old(tmux.b) then WasMissing else Terminated
    {
      var again := InspectExact(record);
      if again.Err? { return Err(again.error); }
      var observed: Option<int> := None;
      match again.value {
      case Missing => return Ok((WasMissing, None));
      case Unknown => return Err(WorkloadUnknown);
      case RunningAs(current) =>
        if current != identity { return Err(ConcurrentModification); }
      case EndedAs(current, exitStatus) =>
        if current != identity { return Err(ConcurrentModification); }
        observed := exitStatus;
      }
      var refused := CloseExact(record, identity);
      return if refused.None? then Ok((Terminated, observed)) else Err(refused.value);
    }

    /** Succeeds only after finding the same live incarnation before and after its stamp. */
    method OpenOwned(id: SessionId) returns (result: Result<TmuxSessionId>)
      modifies this, store, tmux, audit
      ensures Ran(old(Present()), Start(ToOpen, id), old(turn), ErrorOf(result)) && tmux.b == old(tmux.b)
      ensures result.Ok? ==> RunsAs(id, result.value) && Seen(old(store.state), id) == RunningAs(result.value)
    {
      Begin(Start(ToOpen, id));
      result := Open(id);
    }

    method Open(id: SessionId) returns (result: Result<TmuxSessionId>)
      requires Follows() && pc == Start(ToOpen, id)
      modifies this`now, this`turn, this`run, this`pc, this`why, store, tmux, audit
      ensures Follows() && run[0] == old(run[0]) && Returns(ErrorOf(result))
      ensures tmux.b == old(tmux.b)
      ensures result.Ok? ==> RunsAs(id, result.value) && Seen(old(store.state), id) == RunningAs(result.value)
    {
      var found := OwnedRecord(id);
      if found.Err? { return Err(found.error); }
      var record := found.value;
      if record.status != Running { return Err(InvalidStatus); }
      if record.proof.None? { return Err(MissingOwnershipProof); }
      result := OpenRunning(record);
    }

    method OpenRunning(record: SessionRecord) returns (result: Result<TmuxSessionId>)
      requires Follows() && pc == Inspecting(ToOpen, record) && record.proof.Some? && record.status == Running
      modifies this`now, this`turn, this`run, this`pc, this`why, store
      ensures Follows() && run[0] == old(run[0]) && Returns(ErrorOf(result))
      ensures result.Ok? ==> RunsAs(record.id, result.value) && Shown(record) == RunningAs(result.value)
    {
      var inspected := InspectExact(record);
      if inspected.Err? { return Err(inspected.error); }
      if inspected.value.Unknown? { return Err(WorkloadUnknown); }
      if !inspected.value.RunningAs? { return Err(InvalidStatus); }
      var identity := inspected.value.identity;
      if Disagrees(record, identity) { return Err(ConcurrentModification); }
      result := StampAndConfirm(record, identity);
    }

    method StampAndConfirm(record: SessionRecord, identity: TmuxSessionId) returns (result: Result<TmuxSessionId>)
      requires Follows() && pc == MarkOpened(record, identity) && record.proof.Some? && record.status == Running
      modifies this`now, this`turn, this`run, this`pc, this`why, store
      ensures Follows() && run[0] == old(run[0]) && Returns(ErrorOf(result))
      ensures result.Ok? ==> result.value == identity && RunsAs(record.id, identity) && Shown(record) == RunningAs(identity)
    {
      var stamped := StampOpened(record, identity);
      if !stamped { return Err(ConcurrentModification); }
      var again := InspectExact(record);
      if again.Err? { return Err(again.error); }
      if again.value == RunningAs(identity) { return Ok(identity); }
      return Err(if again.value.Unknown? then WorkloadUnknown else ConcurrentModification);
    }

    method ObserveOwned(id: SessionId) returns (result: Result<WorkloadState>)
      modifies this, store, tmux, audit
      ensures Ran(old(Present()), Start(ToObserve, id), old(turn), ErrorOf(result)) && tmux.b == old(tmux.b)
      ensures result.Ok? ==> result.value == Seen(old(store.state), id)
    {
      Begin(Start(ToObserve, id));
      result := Observe(id);
    }

    method Observe(id: SessionId) returns (result: Result<WorkloadState>)
      requires Follows() && pc == Start(ToObserve, id)
      modifies this`now, this`turn, this`run, this`pc, this`why, store, tmux, audit
      ensures Follows() && run[0] == old(run[0]) && Returns(ErrorOf(result))
      ensures tmux.b == old(tmux.b)
      ensures result.Ok? ==> result.value == Seen(old(store.state), id)
    {
      var found := OwnedRecord(id);
      if found.Err? { return Err(found.error); }
      var record := found.value;
      if record.proof.None? { return Err(MissingOwnershipProof); }
      var inspected := InspectExact(record);
      if inspected.Err? { return Err(inspected.error); }
      var refused := Reconcile(record, inspected.value);
      return if refused.None? then Ok(inspected.value) else Err(refused.value);
    }

    /** Writes what was observed about a record into it. */
    method Reconcile(record: SessionRecord, answer: WorkloadState) returns (refused: Option<CloseError>)
      requires Follows() && pc == AfterInspect(ToObserve, record, answer)
      requires pc == Failed ==> why == Some(WhyUninspected(ToObserve, record, answer))
      modifies this`now, this`turn, this`run, this`pc, this`why, store, audit
      ensures Follows() && run[0] == old(run[0]) && Returns(refused)
      ensures refused.None? ==> !answer.Unknown?
    {
      match answer {
      case Unknown => return Some(WorkloadUnknown);
      case RunningAs(identity) =>
        if Disagrees(record, identity) { return Some(ConcurrentModification); }
        if record.status == Creating || record.status == Running {
          var marked := MarkObserved(record, identity);
          if !marked { return Some(ConcurrentModification); }
          Note(record, Observed, Some(record.status), Running, Some(identity), None);
        }
      case EndedAs(identity, exitStatus) =>
        if Disagrees(record, identity) { return Some(ConcurrentModification); }
        if record.status != Removed {
          var marked := MarkEnded(record, Some(identity), exitStatus);
          if !marked { return Some(ConcurrentModification); }
          Note(record, Reconciled, Some(record.status), Ended, Some(identity), exitStatus);
        }
      case Missing =>
        if record.status != Removed {
          var marked := MarkEnded(record, None, None);
          if !marked { return Some(ConcurrentModification); }
          Note(record, Reconciled, Some(record.status), Ended, record.tmuxSession, None);
        }
      }
      return None;
    }

    /** Takes an exited session's place for a restart or a removal: looks again, and kills only
        what it sees exited under the same identity. */
    method ReapExited(record: SessionRecord, identity: TmuxSessionId) returns (refused: Option<CloseError>)
      requires Follows() && pc.Reinspecting? && pc.snap == record && pc.identity == identity && record.proof.Some?
      requires pc.op == ToRestart || pc.op == ToRemove
      modifies this`now, this`turn, this`run, this`pc, this`why, tmux
      ensures Follows() && run[0] == old(run[0])
      ensures pc == (if refused.Some? then Failed else if old(pc).op == ToRestart then ReserveFrom(record) else MarkRemoved(record))
      ensures pc == Failed ==> why == Some(refused.GetOr(InvalidStatus))
    {
      var again := InspectExact(record);
      if again.Err? { return Some(again.error); }
      match again.value
      case EndedAs(current, _) =>
        if current != identity { return Some(ConcurrentModification); }
        refused := CloseExact(record, identity);
      case Missing => return None;
      case Unknown => return Some(WorkloadUnknown);
      case RunningAs(_) => return Some(ConcurrentModification);
    }

    method RestartOwned(id: SessionId) returns (result: Result<TmuxSessionId>)
      modifies this, store, tmux, audit
      ensures Ran(old(Present()), Start(ToRestart, id), old(turn), ErrorOf(result))
      ensures result.Ok? ==> RunsAs(id, result.value)
    {
      Begin(Start(ToRestart, id));
      result := Restart(id);
    }

    method Restart(id: SessionId) returns (result: Result<TmuxSessionId>)
      requires Follows() && pc == Start(ToRestart, id)
      modifies this`now, this`turn, this`run, this`pc, this`why, store, tmux, audit
      ensures Follows() && run[0] == old(run[0]) && Returns(ErrorOf(result))
      ensures result.Ok? ==> RunsAs(id, result.value)
    {
      var found := OwnedRecord(id);
      if found.Err? { return Err(found.error); }
      var record := found.value;
      if record.proof.None? { return Err(MissingOwnershipProof); }
      if record.status == Removed { return Err(InvalidStatus); }
      if record.command.None? { return Err(MissingCommand); }
      var inspected := InspectExact(record);
      if inspected.Err? { return Err(inspected.error); }
      match inspected.value {
      case Unknown => return Err(WorkloadUnknown);
      case RunningAs(identity) =>
        if record.status != Creating && record.tmuxSession != Some(identity) { return Err(ConcurrentModification); }
        result := Adopt(record, identity);
        return;
      case EndedAs(identity, _) =>
        if Disagrees(record, identity) { return Err(ConcurrentModification); }
        var refused := ReapExited(record, identity);
        if refused.Some? { return Err(refused.value); }
      case Missing =>
      }
      if record.status != Ended && record.status != Creating { return Err(InvalidStatus); }
      result := CreateAgain(record);
    }

    /** What runs already, perhaps after an uncertain creation, is promoted instead. */
    method Adopt(record: SessionRecord, identity: TmuxSessionId) returns (result: Result<TmuxSessionId>)
      requires Follows() && pc == Promote(record, identity, record.tmuxPane, record.tmuxSocket, Observed)
      modifies this`now, this`turn, this`run, this`pc, this`why, store, audit
      ensures Follows() && run[0] == old(run[0]) && Returns(ErrorOf(result))
      ensures result.Ok? ==> result.value == identity && RunsAs(record.id, identity)
    {
      var promoted := PromoteRunning(record, identity, record.tmuxPane, record.tmuxSocket, Observed);
      if !promoted { return Err(ConcurrentModification); }
      Note(record, Observed, Some(record.status), Running, Some(identity), None);
      return Ok(identity);
    }

    /** The second half of a restart: reserve, read the reservation back, create, promote. */
    method CreateAgain(record: SessionRecord) returns (result: Result<TmuxSessionId>)
      requires Follows() && pc == Reserve(record) && record.proof.Some?
      modifies this`now, this`turn, this`run, this`pc, this`why, store, tmux, audit
      ensures Follows() && run[0] == old(run[0]) && Returns(ErrorOf(result))
      ensures result.Ok? ==> RunsAs(record.id, result.value)
    {
      var reserved := ReserveAgain(record);
      if !reserved { return Err(ConcurrentModification); }
      var reservation := ReadBack(record);
      if reservation.Err? { return Err(reservation.error); }
      result := LaunchReserved(record, reservation.value);
    }

    method LaunchReserved(record: SessionRecord, r: SessionRecord) returns (result: Result<TmuxSessionId>)
      requires Follows() && record.proof.Some? && r.id == record.id
      requires pc == Noting(Entry(r, AuditAction.Restart, Some(record.status), Creating, r.tmuxSession, r.exitStatus), LaunchAgain(r, record.proof.value))
      modifies this`now, this`turn, this`run, this`pc, this`why, store, tmux, audit
      ensures Follows() && run[0] == old(run[0]) && Returns(ErrorOf(result))
      ensures result.Ok? ==> RunsAs(record.id, result.value)
    {
      Note(r, AuditAction.Restart, Some(record.status), Creating, r.tmuxSession, r.exitStatus);
      var created := Create(r, record.proof.value);
      if !created.Launched? { return Err(CreateFailed); }
      var promoted := PromoteRunning(r, created.identity, Some(created.pane), Some(env), AuditAction.Activate);
      if !promoted { return Err(ConcurrentModification); }
      Note(r, AuditAction.Activate, Some(Creating), Running, Some(created.identity), None);
      return Ok(created.identity);
    }

    method ReadBack(snap: SessionRecord) returns (found: Result<SessionRecord>)
      requires Follows() && pc == Reload(snap) && snap.proof.Some?
      modifies this`now, this`turn, this`run, this`pc, this`why
      ensures Follows() && run[0] == old(run[0]) && Present() == old(Present()).(now := now)
      ensures found.Err? ==> pc == Failed && why == Some(found.error)
      ensures found.Ok? ==> found.value.id == snap.id && pc == Noting(
        Entry(found.value, AuditAction.Restart, Some(snap.status), Creating, found.value.tmuxSession, found.value.exitStatus),
        LaunchAgain(found.value, snap.proof.value))
    {
      var c, before := Next();
      var loaded := store.Load(c.fault);
      ghost var reached := OtherReaches(run, env, answers, from, before, pc, c);
      Step(before, c, reached);
      if loaded.None? {
        return Err(StateFailed);
      }
      var record := Lookup(loaded.value.sessions, snap.id);
      return if record.None? then Err(UnknownSession) else Ok(record.value);
    }

    /** A record with a proof is removed once it has ended and nothing of its session is left. */
    method ReapEnded(record: SessionRecord) returns (reaped: Result<ClosedWorkload>)
      requires Follows() && record.status != Removed && pc == AfterRead(ToRemove, Some(record))
      requires pc == Failed ==> why == Some(InvalidStatus)
      modifies this`now, this`turn, this`run, this`pc, this`why, tmux
      ensures Follows() && run[0] == old(run[0]) && pc == (if reaped.Ok? then MarkRemoved(record) else Failed)
      ensures reaped.Err? ==> why == Some(reaped.error)
      ensures reaped.Ok? ==> reaped.value == if record.status == Ended && old(Shown(record)).EndedAs? then Terminated else WasMissing
    {
      if record.proof.None? { return Ok(WasMissing); }
      if record.status != Ended { return Err(InvalidStatus); }
      var inspected := InspectExact(record);
      if inspected.Err? { return Err(inspected.error); }
      match inspected.value
      case EndedAs(identity, _) =>
        if Disagrees(record, identity) { return Err(ConcurrentModification); }
        var refused := ReapExited(record, identity);
        return if refused.Some? then Err(refused.value) else Ok(Terminated);
      case Missing => return Ok(WasMissing);
      case Unknown => return Err(WorkloadUnknown);
      case RunningAs(_) => return Err(ConcurrentModification);
    }

    method Forget(record: SessionRecord) returns (ok: bool)
      requires Follows() && pc == MarkRemoved(record)
      modifies this`now, this`turn, this`run, this`pc, this`why, store, audit
      ensures Follows() && run[0] == old(run[0]) && Returns(if ok then None else Some(ConcurrentModification))
    {
      ok := FinalizeRemoved(record);
      if ok {
        Note(record, Removal, Some(record.status), Removed, record.tmuxSession, record.exitStatus);
      }
    }

    method RemoveOwned(id: SessionId) returns (result: Result<ClosedWorkload>)
      modifies this, store, tmux, audit
      ensures Ran(old(Present()), Start(ToRemove, id), old(turn), ErrorOf(result))
      ensures result.Ok? ==> var found := Lookup(old(store.state.sessions), id);
        && found.Some?
        && result.value == if found.value.status == Ended && old(Seen(store.state, id)).EndedAs? then Terminated else WasMissing
    {
      Begin(Start(ToRemove, id));
      result := Remove(id);
    }

    method Remove(id: SessionId) returns (result: Result<ClosedWorkload>)
      requires Follows() && pc == Start(ToRemove, id)
      modifies this`now, this`turn, this`run, this`pc, this`why, store, tmux, audit
      ensures Follows() && run[0] == old(run[0]) && Returns(ErrorOf(result))
      ensures result.Ok? ==> var found := Lookup(old(store.state.sessions), id);
        && found.Some?
        && result.value == if found.value.status == Ended && old(Seen(store.state, id)).EndedAs? then Terminated else WasMissing
    {
      var found := OwnedRecord(id);
      if found.Err? { return Err(found.error); }
      var record := found.value;
      if record.status == Removed { return Ok(WasMissing); }
      var reaped := ReapEnded(record);
      if reaped.Err? { return Err(reaped.error); }
      var removed := Forget(record);
      return if removed then reaped else Err(ConcurrentModification);
    }

    // ---------- Creating a session ----------

    method CreateAndAttach(selection: SessionRecord) returns (result: Result<TmuxSessionId>)
      requires selection.status == Creating && selection.proof.Some?
      modifies this, store, tmux, audit
      ensures Ran(old(Present()), Insert(selection), old(turn), ErrorOf(result))
      ensures result.Ok? ==> RunsAs(selection.id, result.value)
    {
      Begin(Insert(selection));
      result := Attach(selection);
    }

    method Attach(selection: SessionRecord) returns (result: Result<TmuxSessionId>)
      requires selection.status == Creating && selection.proof.Some? && Follows() && pc == Insert(selection)
      modifies this`now, this`turn, this`run, this`pc, this`why, store, tmux, audit
      ensures Follows() && run[0] == old(run[0]) && Returns(ErrorOf(result))
      ensures result.Ok? ==> RunsAs(selection.id, result.value)
    {
      var reservation := PushReservation(selection);
      if reservation.Err? { return Err(reservation.error); }
      var r := reservation.value;
      Note(r, AuditAction.Create, None, Creating, None, None);
      var created := Create(r, r.proof.value);
      match created
      case Uncertain => return Err(CreateFailed);
      case CertainlyFailed =>
        RetractReservation(r.id);
        return Err(CreateFailed);
      case Launched(identity, pane) =>
        var activated := ActivateReservation(r.id, identity, pane);
        if activated.Err? { return Err(activated.error); }
        Note(activated.value, AuditAction.Activate, Some(Creating), Running, Some(identity), None);
        return Ok(identity);
    }

    method PushReservation(selection: SessionRecord) returns (pushed: Result<SessionRecord>)
      requires Follows() && pc == Insert(selection)
      modifies this`now, this`turn, this`run, this`pc, this`why, store
      ensures Follows() && run[0] == old(run[0])
      ensures pushed.Err? ==> pc == Failed && why == Some(pushed.error)
      ensures pushed.Ok? ==> pushed.value == Stamped(selection, now) && pc == CreationNote(pushed.value)
    {
      var c, before := Next();
      var r := selection.(createdAt := now, lastUsedAt := now);
      var s := store.state;
      var ok := Commit(State(s.sessions + [r], s.groups), CreationNote(r), c, before);
      return if ok then Ok(r) else Err(StateFailed);
    }

    method RetractReservation(id: SessionId)
      requires Follows() && pc == Retract(id)
      modifies this`now, this`turn, this`run, this`pc, this`why, store
      ensures Follows() && run[0] == old(run[0]) && pc == Failed && why == Some(CreateFailed)
    {
      var c, before := Next();
      var s := store.state;
      var kept := WithoutReservation(s.sessions, id);
      var ok := Commit(State(kept, s.groups), Failed, c, before);
    }

    /** Unlike a swap, activation accepts any reservation of this id that names no session. */
    method ActivateReservation(id: SessionId, session: TmuxSessionId, pane: TmuxPaneId) returns (activated: Result<SessionRecord>)
      requires Follows() && pc == ActivateFirst(id, session, pane)
      modifies this`now, this`turn, this`run, this`pc, this`why, store
      ensures Follows() && run[0] == old(run[0])
      ensures activated.Err? ==> pc == Failed && why == Some(activated.error)
      ensures activated.Ok? ==> pc == ActivationNote(activated.value, session) && RunsAs(id, session)
    {
      var c, before := Next();
      var s := store.state;
      var at := Position(s.sessions, id);
      if at == |s.sessions| || s.sessions[at].status != Creating || s.sessions[at].tmuxSession.Some? {
        Skip(c, before);
        return Err(StateFailed);
      }
      var current := s.sessions[at];
      current := current.(tmuxSession := Some(session));
      current := current.(tmuxPane := Some(pane));
      current := current.(tmuxSocket := Some(env));
      current := current.(status := Running);
      current := current.(lastUsedAt := now);
      ReplacedIsFound(s.sessions, id, current);
      var ok := Commit(State(s.sessions[at := current], s.groups), ActivationNote(s.sessions[at], session), c, before);
      return if ok then Ok(s.sessions[at]) else Err(StateFailed);
    }
  }

  // ---------- What a completed operation has done ----------

  lemma {:induction false} StepKeepsTurn(w: World, env: string, pc: Pc, c: Chance, home: Home)
    requires TiedTurn(w, env, pc, home)
    ensures var (after, next) := Step(w, env, pc, c); TiedTurn(after, env, next, home)
  {
    StepKeepsTies(w, env, pc, c, home);
  }

  lemma {:induction false} LaterKeepsTurn(w: World, env: string, pc: Pc, c: Chance, home: Home)
    requires TiedTurn(w, env, pc, home)
    ensures TiedTurn(Later(w, c), env, pc, home)
  {
    TimeKeepsPc(w, w.now + c.elapsed, env, pc, home);
  }

  lemma {:induction false} OneStepKeepsTies(r: Reached, env: string, c: Chance, home: Home)
    requires TiedTurn(r.world, env, r.pc, home)
    ensures TiedTurn(OneStep(r, env, c).world, env, OneStep(r, env, c).pc, home)
  {
    LaterKeepsTurn(r.world, env, r.pc, c, home);
    StepKeepsTurn(Later(r.world, c), env, r.pc, Heard(Later(r.world, c), env, r.pc, c), home);
  }

  /** Whatever an operation meets, it leaves every record tied to what exists in tmux. */
  lemma {:induction false} OperationsKeepTies(run: seq<Reached>, env: string, answers: nat -> Chance, from: nat, k: nat, home: Home)
    requires IsPath(run, env, answers, from) && k < |run| && TiedTurn(run[0].world, env, run[0].pc, home)
    ensures TiedTurn(run[k].world, env, run[k].pc, home)
  {
    if k > 0 {
      OperationsKeepTies(run, env, answers, from, k - 1, home);
      assert Linked(run, env, answers, from, k - 1);
      OneStepKeepsTies(run[k - 1], env, answers(from + k - 1), home);
    }
  }

  lemma {:induction false} HeardIsChecked(w: World, env: string, pc: Pc, c: Chance)
    ensures Checked(w, pc, Heard(w, env, pc, c))
  {
    if pc.Insert? {
      StepsAttempt(w, env, pc, Heard(w, env, pc, c).(fault := false));
    }
  }

  lemma {:induction false} FitLasts(w: World, env: string, pc: Pc, later: Instant)
    requires Fit(w, env, pc) && w.now <= later
    ensures Fit(w.(now := later), env, pc)
  {}

  lemma {:induction false} HeardKeepsFit(w: World, env: string, pc: Pc, c: Chance)
    requires Fit(w, env, pc)
    ensures var (after, next) := Step(w, env, pc, Heard(w, env, pc, c)); Fit(after, env, next)
  {
    HeardIsChecked(w, env, pc, c);
    StepKeepsFit(w, env, pc, Heard(w, env, pc, c));
  }

  lemma {:induction false} OneStepKeepsFit(r: Reached, env: string, c: Chance)
    requires Fit(r.world, env, r.pc)
    ensures Fit(OneStep(r, env, c).world, env, OneStep(r, env, c).pc)
  {
    var w := Later(r.world, c);
    FitLasts(r.world, env, r.pc, w.now);
    HeardKeepsFit(w, env, r.pc, c);
    var (after, next) := Step(w, env, r.pc, Heard(w, env, r.pc, c));
    assert OneStep(r, env, c).world == after && OneStep(r, env, c).pc == next;
  }

  /** Whatever an operation meets, it leaves a valid state valid. */
  lemma {:induction false} OperationsKeepValid(run: seq<Reached>, env: string, answers: nat -> Chance, from: nat, k: nat)
    requires IsPath(run, env, answers, from) && k < |run| && Fit(run[0].world, env, run[0].pc)
    ensures Fit(run[k].world, env, run[k].pc)
  {
    if k > 0 {
      OperationsKeepValid(run, env, answers, from, k - 1);
      assert Linked(run, env, answers, from, k - 1);
      OneStepKeepsFit(run[k - 1], env, answers(from + k - 1));
    }
  }

  /** Whether an insertion is still to come. */
  predicate Inserts(pc: Pc) {
    if pc.Noting? then Inserts(pc.next) else pc.Insert?
  }

  lemma {:induction false} NothingInsertsLater(w: World, env: string, pc: Pc, c: Chance)
    requires !Inserts(pc)
    ensures !Inserts(Step(w, env, pc, c).1)
  {
    if IsSwap(pc) {
      var next := SwapStep(w, pc, c).1;
      assert next == Failed || next == AfterSwap(pc);
    }
  }

  /** Between these answers, everything was answered and every write succeeded. */
  ghost predicate Unhindered(answers: nat -> Chance, from: nat, end: nat) {
    forall k: nat | from <= k < end :: !answers(k).fault && !answers(k).unreadable
  }

  lemma {:induction false} AttemptsAreValid(w: World, env: string, pc: Pc)
    requires Fit(w, env, pc) && !pc.Insert?
    ensures !Refused(w, env, pc)
  {
    if Writes(pc) {
      var calm := Chance(0, false, false, false, 0, 0, 0);
      StepsAttempt(w, env, pc, calm);
      StepKeepsFit(w, env, pc, calm);
      var (after, next) := Step(w, env, pc, calm);
      assert Fit(after, env, next);
    }
  }

  lemma HeardUnlessRefused(w: World, env: string, pc: Pc, c: Chance)
    requires !Refused(w, env, pc)
    ensures Heard(w, env, pc, c) == c
  {}

  function Met(answers: nat -> Chance, from: nat, k: nat): seq<Chance> {
    if k == 0 then [] else Met(answers, from, k - 1) + [answers(from + k - 1)]
  }

  /** Iterating the steps on some chances leads where a run stands. */
  ghost predicate LeadsTo(w: World, env: string, start: Pc, met: seq<Chance>, r: Reached) {
    Iterate(w, env, start, met) == (r.world, r.pc) && !Inserts(r.pc)
  }

  lemma {:induction false} NothingIsRefused(w: World, env: string, pc: Pc, c: Chance)
    requires Fit(w, env, pc) && !Inserts(pc)
    ensures var now := Later(w, c);
      Heard(now, env, pc, c) == c && !Inserts(Step(now, env, pc, c).1)
  {
    var now := Later(w, c);
    assert !pc.Insert?;
    FitLasts(w, env, pc, now.now);
    AttemptsAreValid(now, env, pc);
    HeardUnlessRefused(now, env, pc, c);
    NothingInsertsLater(now, env, pc, c);
  }

  lemma {:induction false} HearingLeadsOn(w: World, start: Pc, met: seq<Chance>, r: Reached, env: string, c: Chance)
    requires LeadsTo(w, env, start, met, r) && Fit(r.world, env, r.pc)
    ensures LeadsTo(w, env, start, met + [c], OneStep(r, env, c))
  {
    NothingIsRefused(r.world, env, r.pc, c);
    IterateOneMore(w, env, start, met, c);
  }

  lemma {:induction false} UnhinderedIsReachable(answers: nat -> Chance, from: nat, k: nat)
    requires Unhindered(answers, from, from + k)
    ensures Reachable(Met(answers, from, k))
  {
    if k > 0 { UnhinderedIsReachable(answers, from, k - 1); }
  }

  /** In a valid state, a run without insertions hears every answer as it came. */
  lemma {:induction false} RunIsIterated(w: World, start: Pc, run: seq<Reached>, env: string, answers: nat -> Chance, from: nat, k: nat)
    requires IsPath(run, env, answers, from) && k < |run| && run[0] == Reached(w, start, None)
    requires Fit(w, env, start) && !Inserts(start)
    ensures LeadsTo(w, env, start, Met(answers, from, k), run[k])
  {
    if k == 0 {
      NothingLeadsNowhere(w, env, start);
    } else {
      RunIsIterated(w, start, run, env, answers, from, k - 1);
      OperationsKeepValid(run, env, answers, from, k - 1);
      LedOn(w, start, run, env, answers, from, k - 1);
    }
  }

  lemma NothingLeadsNowhere(w: World, env: string, start: Pc)
    requires !Inserts(start)
    ensures LeadsTo(w, env, start, [], Reached(w, start, None))
  {}

  lemma LinkIs(run: seq<Reached>, env: string, answers: nat -> Chance, from: nat, k: nat)
    requires IsPath(run, env, answers, from) && k + 1 < |run|
    ensures run[k + 1] == OneStep(run[k], env, answers(from + k))
  {
    assert Linked(run, env, answers, from, k);
  }

  lemma {:induction false} LedOn(w: World, start: Pc, run: seq<Reached>, env: string, answers: nat -> Chance, from: nat, k: nat)
    requires IsPath(run, env, answers, from) && k + 1 < |run|
    requires LeadsTo(w, env, start, Met(answers, from, k), run[k]) && Fit(run[k].world, env, run[k].pc)
    ensures LeadsTo(w, env, start, Met(answers, from, k + 1), run[k + 1])
  {
    LinkIs(run, env, answers, from, k);
    HearingLeadsOn(w, start, Met(answers, from, k), run[k], env, answers(from + k));
  }

  /** The session can be stopped: it is recorded as open with a proof, its record is tied to
      what exists, the state is valid, and no clock is behind it. */
  ghost predicate Stoppable(w: World, env: string, id: SessionId, home: Home) {
    && TiedWorld(w, home) && home(id).socket == env && Fit(w, env, Start(ToStop, id))
    && var found := Lookup(w.state.sessions, id);
       found.Some? && found.value.proof.Some? && !IsClosed(found.value.status)
  }

  /** A stop that returned, and met nothing but answers and successful writes, has succeeded
      and has stopped the session. */
  lemma {:induction false} UnhinderedStopHasStopped(run: seq<Reached>, env: string, answers: nat -> Chance, from: nat, id: SessionId, home: Home)
    requires IsPath(run, env, answers, from) && run[0] == Reached(run[0].world, Start(ToStop, id), None)
    requires Stoppable(run[0].world, env, id, home) && Unhindered(answers, from, from + |run| - 1)
    requires IsOver(run[|run| - 1].pc)
    ensures var w, last := run[0].world, run[|run| - 1]; HasStopped(w, last.world, last.pc, Lookup(w.state.sessions, id).value)
  {
    var w, start := run[0].world, Start(ToStop, id);
    RunIsIterated(w, start, run, env, answers, from, |run| - 1);
    UnhinderedIsReachable(answers, from, |run| - 1);
    ReachedIsStopped(w, env, id, Met(answers, from, |run| - 1), home);
  }

  /** If nothing failed from outside, a session that could be stopped has been stopped. */
  ghost predicate StopsUnlessHindered(w: World, env: string, answers: nat -> Chance, from: nat, end: nat, id: SessionId, after: World, ok: bool) {
    forall home: Home | Stoppable(w, env, id, home) && Unhindered(answers, from, end) ::
      ok && HasStopped(w, after, Finished, Lookup(w.state.sessions, id).value)
  }

  lemma EveryUnhinderedStopHasStopped(run: seq<Reached>, env: string, answers: nat -> Chance, from: nat, id: SessionId,
                                      after: World, error: Option<CloseError>)
    requires IsPath(run, env, answers, from) && run[0] == Reached(run[0].world, Start(ToStop, id), None)
    requires run[|run| - 1] == Reached(after, if error.None? then Finished else Failed, error)
    ensures StopsUnlessHindered(run[0].world, env, answers, from, from + |run| - 1, id, after, error.None?)
  {
    forall home: Home | Stoppable(run[0].world, env, id, home) && Unhindered(answers, from, from + |run| - 1)
      ensures error.None? && HasStopped(run[0].world, after, Finished, Lookup(run[0].world.state.sessions, id).value)
    {
      UnhinderedStopHasStopped(run, env, answers, from, id, home);
    }
  }

  lemma {:induction false} ReachedIsStopped(w: World, env: string, id: SessionId, met: seq<Chance>, home: Home)
    requires Stoppable(w, env, id, home) && Reachable(met)
    requires var last := Iterate(w, env, Start(ToStop, id), met).1; last == Finished || last == Failed
    ensures var (after, last) := Iterate(w, env, Start(ToStop, id), met); HasStopped(w, after, last, Lookup(w.state.sessions, id).value)
  {
    var start, r := Start(ToStop, id), Lookup(w.state.sessions, id).value;
    var calm := seq(8, i => Chance(0, false, false, false, 0, 0, 0));
    var (after, last) := Iterate(w, env, start, met);
    IterateOn(w, env, start, met, calm);
    assert Reachable(met + calm);
    StopCompletes(w, r, met + calm, home);
    if last == Failed {
      FailedStays(after, env, calm);
    } else {
      FinishedStays(after, env, calm);
    }
  }

  lemma {:induction false} IterateOneMore(w: World, env: string, pc: Pc, cs: seq<Chance>, c: Chance)
    ensures var (before, at) := Iterate(w, env, pc, cs); Iterate(w, env, pc, cs + [c]) == Advance(before, env, at, c)
    decreases |cs|
  {
    if cs == [] {
      assert [c][1..] == [] && ([] + [c])[0] == c && ([] + [c])[1..] == [];
    } else {
      assert (cs + [c])[0] == cs[0] && (cs + [c])[1..] == cs[1..] + [c];
      var (after, next) := Advance(w, env, pc, cs[0]);
      IterateOneMore(after, env, next, cs[1..], c);
    }
  }

  lemma {:induction false} IterateOn(w: World, env: string, pc: Pc, cs: seq<Chance>, more: seq<Chance>)
    ensures var (after, reached) := Iterate(w, env, pc, cs);
      && Iterate(w, env, pc, cs + more) == Iterate(after, env, reached, more)
      && KillCount(w, env, pc, cs + more) == KillCount(w, env, pc, cs) + KillCount(after, env, reached, more)
    decreases |cs|
  {
    if cs == [] {
      assert cs + more == more;
    } else {
      assert (cs + more)[0] == cs[0] && (cs + more)[1..] == cs[1..] + more;
      var (after, next) := Advance(w, env, pc, cs[0]);
      IterateOn(after, env, next, cs[1..], more);
    }
  }

  lemma {:induction false} FailedStays(w: World, env: string, cs: seq<Chance>)
    ensures Iterate(w, env, Failed, cs).1 == Failed
    decreases |cs|
  {
    if cs != [] {
      FailedStays(Advance(w, env, Failed, cs[0]).0, env, cs[1..]);
    }
  }
}
