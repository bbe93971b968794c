/** What no interleaving of any number of lifecycle operations can do: end a session that the
    killing operation has not twice seen for itself, under its own proof and identity. */
module KillSafety {
  import opened Common
  import opened Records
  import opened Tmux
  import opened Audit
  import opened Lifecycle

  /** What one operation learned or committed: an answered inspection, with the session that
      really held the place at that moment, or its own write of a status. */
  datatype Event = Saw(place: Place, answer: WorkloadState, seen: Option<Incarnation>) | Wrote(status: SessionStatus)

  /** One running operation. An operation that crashed is one that never steps again. */
  datatype Proc = Proc(env: string, pc: Pc, past: seq<Event>)

  /** A session an operation ended, and everything that operation had done before. */
  datatype Kill = Kill(env: string, op: Operation, snap: SessionRecord, victim: Incarnation, past: seq<Event>)

  datatype Config = Config(world: World, procs: seq<Proc>, kills: seq<Kill>)

  datatype Move =
    | Begin(op: Operation, id: SessionId, env: string)
    | BeginCreate(record: SessionRecord, env: string)
    | Act(p: nat, c: Chance)
    | CommandExits(place: Place, status: Option<int>)
    | SessionVanishes(place: Place)
    | OthersWrite(state: State)

  /** What `pc` learns or commits by stepping. */
  ghost function Learned(w: World, env: string, pc: Pc, c: Chance): seq<Event> {
    if (pc.Inspecting? || pc.Reinspecting?) && !c.fault && pc.snap.proof.Some? then
      [Saw(PlaceOf(env, pc.snap), Answer(w, env, pc.snap, c), Owned(w.backend, PlaceOf(env, pc.snap), pc.snap.proof.value))]
    else if pc.MarkStopping? && Step(w, env, pc, c).1.Noting? then [Wrote(SessionStatus.Stopping)]
    else []
  }

  /** The session a step takes out of the backend, if it does. */
  ghost function Ended(w: World, env: string, pc: Pc, c: Chance): Option<Incarnation> {
    if pc.Killing? && pc.snap.proof.Some? && Step(w, env, pc, c).0.backend != w.backend
    then Owned(w.backend, PlaceOf(env, pc.snap), pc.snap.proof.value)
    else None
  }

  /** The configuration after process `p` moved, learned and perhaps killed. */
  ghost function Moved(config: Config, p: nat, result: (World, Pc), learned: seq<Event>, victim: Option<Incarnation>): Config
    requires p < |config.procs|
  {
    var proc := config.procs[p];
    Config(result.0,
           config.procs[p := Proc(proc.env, result.1, proc.past + learned)],
           if victim.None? || !proc.pc.Killing? then config.kills
           else config.kills + [Kill(proc.env, proc.pc.op, proc.pc.snap, victim.value, proc.past)])
  }

  ghost function ActOn(config: Config, p: nat, c: Chance): Config
    requires p < |config.procs|
  {
    var proc, w := config.procs[p], Later(config.world, c);
    Moved(config, p, Step(w, proc.env, proc.pc, c), Learned(w, proc.env, proc.pc, c), Ended(w, proc.env, proc.pc, c))
  }

  /** A session id fixes its target for good: ids are never reused, and no write moves one.
      Everyone else who writes the state file only drops records or edits groups. */
  ghost predicate Permitted(config: Config, move: Move, target: SessionId -> string) {
    match move
    case BeginCreate(record, _) =>
      record.target == target(record.id) && record.status == Creating && record.tmuxSession.None? && record.tmuxPane.None?
    case Act(p, _) => p < |config.procs|
    case OthersWrite(state) => forall r | r in state.sessions :: r in config.world.state.sessions
    case _ => true
  }

  ghost function Take(config: Config, move: Move, target: SessionId -> string): Config
    requires Permitted(config, move, target)
  {
    match move
    case Begin(op, id, env) => config.(procs := config.procs + [Proc(env, Start(op, id), [])])
    case BeginCreate(record, env) => config.(procs := config.procs + [Proc(env, Insert(record), [])])
    case Act(p, c) => ActOn(config, p, c)
    case CommandExits(place, status) => config.(world := config.world.(backend := AfterExit(config.world.backend, place, status)))
    case SessionVanishes(place) => config.(world := config.world.(backend := Without(config.world.backend, place)))
    case OthersWrite(state) => config.(world := config.world.(state := state))
  }

  /** A run from a state in which no operation has begun. */
  ghost predicate IsRun(run: seq<Config>, moves: seq<Move>, target: SessionId -> string) {
    && |run| == |moves| + 1
    && Initial(run[0], target)
    && forall i | 0 <= i < |moves| :: Permitted(run[i], moves[i], target) && run[i + 1] == Take(run[i], moves[i], target)
  }

  /** The pane of a record was issued together with its session identity on its socket. */
  ghost predicate PaneIssued(b: Backend, server: Server, identity: TmuxSessionId, pane: TmuxPaneId) {
    (server, identity) in b.issued && b.issued[(server, identity)].pane == pane
  }

  ghost predicate HonestRecord(b: Backend, r: SessionRecord, target: SessionId -> string) {
    && r.target == target(r.id)
    && (r.tmuxPane.Some? ==>
          && r.status != Creating && r.tmuxSession.Some? && r.tmuxSocket.Some?
          && PaneIssued(b, Server(r.target, r.tmuxSocket.value), r.tmuxSession.value, r.tmuxPane.value))
  }

  ghost predicate HonestWorld(w: World, target: SessionId -> string) {
    Sound(w.backend) && forall r | r in w.state.sessions :: HonestRecord(w.backend, r, target)
  }

  ghost predicate Initial(config: Config, target: SessionId -> string) {
    HonestWorld(config.world, target) && config.procs == [] && config.kills == []
  }

  // ---------- What every operation carries with it ----------

  ghost predicate HonestPc(b: Backend, env: string, pc: Pc, target: SessionId -> string) {
    match pc
    case Start(_, _) => true
    case Insert(record) => record.target == target(record.id) && record.status == Creating && record.tmuxPane.None?
    case Inspecting(_, snap) => HonestRecord(b, snap, target)
    case Reinspecting(_, snap, identity) => HonestRecord(b, snap, target)
    case Killing(_, snap, identity, _) => HonestRecord(b, snap, target)
    case MarkStopping(snap, found) => HonestRecord(b, snap, target) && (found.Some? ==> !Disagrees(snap, found.value))
    case FinishStop(snap, _, _) => true
    case MarkOpened(snap, identity) => HonestRecord(b, snap, target) && !Disagrees(snap, identity)
    case MarkObserved(snap, identity) => HonestRecord(b, snap, target) && !Disagrees(snap, identity)
    case MarkEnded(snap, found, _) => HonestRecord(b, snap, target) && (found.Some? ==> !Disagrees(snap, found.value))
    case Promote(snap, identity, pane, socket, _) =>
      && HonestRecord(b, snap, target)
      && (pane.Some? ==> socket.Some? && PaneIssued(b, Server(snap.target, socket.value), identity, pane.value))
    case Reserve(snap) => HonestRecord(b, snap, target)
    case Reload(snap) => true
    case LaunchAgain(reservation, _) => HonestRecord(b, reservation, target)
    case LaunchFirst(record) => record.target == target(record.id)
    case ActivateFirst(id, identity, launched) => PaneIssued(b, Server(target(id), env), identity, launched)
    case Retract(_) => true
    case MarkRemoved(snap) => HonestRecord(b, snap, target)
    case Noting(_, next) => HonestPc(b, env, next, target)
    case Finished => true
    case Failed => true
  }

  /** The operation saw the session of this identity, under the snapshot's proof, at the
      snapshot's place, and the snapshot names no other identity. */
  ghost predicate Sighting(e: Event, env: string, snap: SessionRecord, identity: TmuxSessionId) {
    && e.Saw? && e.place == PlaceOf(env, snap)
    && (e.answer == RunningAs(identity) || (e.answer.EndedAs? && e.answer.identity == identity))
    && e.seen.Some? && e.seen.value.identity == identity && snap.proof == Some(e.seen.value.proof)
    && !Disagrees(snap, identity)
  }

  ghost predicate ExitedSighting(e: Event, env: string, snap: SessionRecord, identity: TmuxSessionId) {
    Sighting(e, env, snap, identity) && e.answer.EndedAs? && e.seen.value.launched.Exited?
  }

  ghost predicate SawOnce(op: Operation, env: string, snap: SessionRecord, identity: TmuxSessionId, past: seq<Event>) {
    match op
    case ToStop => |past| == 2 && Sighting(past[0], env, snap, identity) && past[1] == Wrote(SessionStatus.Stopping)
    case ToOpen => true
    case _ => |past| == 1 && ExitedSighting(past[0], env, snap, identity)
  }

  /** The whole history of an operation that is about to kill: a stop inspected, committed
      its own stopping write, and inspected again; a restart or a removal inspected twice
      and both times found the command exited. */
  ghost predicate SawTwice(op: Operation, env: string, snap: SessionRecord, identity: TmuxSessionId, past: seq<Event>) {
    match op
    case ToStop =>
      |past| == 3 && Sighting(past[0], env, snap, identity) && past[1] == Wrote(SessionStatus.Stopping) && Sighting(past[2], env, snap, identity)
    case ToRestart =>
      |past| == 2 && ExitedSighting(past[0], env, snap, identity) && ExitedSighting(past[1], env, snap, identity)
    case ToRemove =>
      |past| == 2 && ExitedSighting(past[0], env, snap, identity) && ExitedSighting(past[1], env, snap, identity)
    case _ => false
  }

  ghost predicate Evidence(env: string, pc: Pc, past: seq<Event>) {
    match pc
    case Start(_, _) => past == []
    case Inspecting(_, _) => past == []
    case MarkStopping(snap, found) => |past| == 1 && (found.Some? ==> Sighting(past[0], env, snap, found.value))
    case Reinspecting(op, snap, identity) => SawOnce(op, env, snap, identity, past)
    case Killing(op, snap, identity, _) => SawTwice(op, env, snap, identity, past)
    case Noting(_, next) => Evidence(env, next, past)
    case _ => true
  }

  /** Whatever holds an identity that was once seen is what was seen, and if it had exited
      then, it has exited still. */
  ghost predicate Standing(b: Backend, e: Event) {
    e.Saw? && e.seen.Some? ==>
      var inc := e.seen.value;
      && (e.place.server, inc.identity) in b.issued
      && (e.place in b.sessions && b.sessions[e.place].identity == inc.identity ==>
            && b.sessions[e.place].(launched := inc.launched) == inc
            && (inc.launched.Exited? ==> b.sessions[e.place] == inc))
  }

  ghost predicate SafeProc(b: Backend, proc: Proc, target: SessionId -> string) {
    && HonestPc(b, proc.env, proc.pc, target)
    && Evidence(proc.env, proc.pc, proc.past)
    && forall i | 0 <= i < |proc.past| :: Standing(b, proc.past[i])
  }

  /** A kill is justified when its operation had twice seen exactly the session it ended, and
      a restart or a removal ended a session whose command had exited. */
  ghost predicate Justified(k: Kill) {
    && SawTwice(k.op, k.env, k.snap, k.victim.identity, k.past)
    && (forall e | e in k.past && e.Saw? :: e.seen.Some? && e.seen.value.birth == k.victim.birth)
    && (k.op != ToStop ==> k.victim.launched.Exited?)
  }

  ghost predicate Safe(config: Config, target: SessionId -> string) {
    && HonestWorld(config.world, target)
    && (forall p | 0 <= p < |config.procs| :: SafeProc(config.world.backend, config.procs[p], target))
    && (forall k | k in config.kills :: Justified(k))
  }

  // ---------- The backend moving on keeps all of it ----------

  lemma {:induction false} HonestPcLasts(b: Backend, later: Backend, env: string, pc: Pc, target: SessionId -> string)
    requires HonestPc(b, env, pc, target) && Follows(b, later)
    ensures HonestPc(later, env, pc, target)
    decreases pc
  {
    if pc.Noting? {
      HonestPcLasts(b, later, env, pc.next, target);
    }
  }

  lemma {:induction false} SafeProcLasts(b: Backend, later: Backend, proc: Proc, target: SessionId -> string)
    requires SafeProc(b, proc, target) && Follows(b, later)
    ensures SafeProc(later, proc, target)
  {
    HonestPcLasts(b, later, proc.env, proc.pc, target);
    forall i | 0 <= i < |proc.past| ensures Standing(later, proc.past[i]) {
      assert Standing(b, proc.past[i]);
    }
  }

  // ---------- One step of one operation ----------

  /** Whatever an inspection answers, what the operation goes on with is honest: a pane is
      only carried along with the identity it was issued with. */
  lemma {:induction false} DecisionsAreHonest(b: Backend, env: string, op: Operation, snap: SessionRecord, identity: TmuxSessionId, answer: WorkloadState, target: SessionId -> string)
    requires HonestRecord(b, snap, target)
    ensures HonestPc(b, env, AfterInspect(op, snap, answer), target)
    ensures HonestPc(b, env, AfterReinspect(op, snap, identity, answer), target)
  {}

  lemma {:induction false} InspectionsAreHonest(w: World, env: string, pc: Pc, c: Chance, target: SessionId -> string)
    requires HonestWorld(w, target) && HonestPc(w.backend, env, pc, target) && (pc.Inspecting? || pc.Reinspecting?)
    ensures HonestPc(w.backend, env, Step(w, env, pc, c).1, target)
  {
    if pc.snap.proof.Some? {
      var answer := Answer(w, env, pc.snap, c);
      DecisionsAreHonest(w.backend, env, pc.op, pc.snap, if pc.Reinspecting? then pc.identity else 0, answer, target);
    }
  }

  lemma {:induction false} ReplacementsAreHonest(b: Backend, env: string, pc: Pc, now: Instant, target: SessionId -> string)
    requires IsSwap(pc) && HonestPc(b, env, pc, target)
    ensures HonestRecord(b, Replacement(pc, now), target)
    ensures HonestPc(b, env, AfterSwap(pc), target)
  {}

  lemma {:induction false} SwapsAreHonest(w: World, env: string, pc: Pc, c: Chance, target: SessionId -> string)
    requires HonestWorld(w, target) && HonestPc(w.backend, env, pc, target) && IsSwap(pc)
    ensures var (after, next) := SwapStep(w, pc, c);
      HonestWorld(after, target) && after.backend == w.backend && HonestPc(w.backend, env, next, target)
  {
    ReplacementsAreHonest(w.backend, env, pc, w.now, target);
  }

  lemma {:induction false} LaunchesAreHonest(w: World, env: string, pc: Pc, c: Chance, target: SessionId -> string)
    requires HonestWorld(w, target) && HonestPc(w.backend, env, pc, target) && (pc.LaunchAgain? || pc.LaunchFirst?)
    ensures var (after, next) := LaunchStep(w, env, pc, c);
      HonestWorld(after, target) && Follows(w.backend, after.backend) && HonestPc(after.backend, env, next, target)
  {
    var record := if pc.LaunchAgain? then pc.reservation else pc.record;
    var proof := if pc.LaunchAgain? then Some(pc.proof) else record.proof;
    var place := Place(Server(record.target, env), record.id);
    if proof.Some? && CanCreate(w.backend, place, c.identity, c.pane) {
      CreateFollows(w.backend, place, proof.value, c.identity, c.pane);
    }
  }

  lemma {:induction false} WritingAtIsHonest(w: World, env: string, c: Chance, at: nat, updated: SessionRecord, groups: seq<Group>, next: Pc, target: SessionId -> string)
    requires HonestWorld(w, target) && at < |w.state.sessions| && HonestRecord(w.backend, updated, target) && HonestPc(w.backend, env, next, target)
    ensures var (after, pc) := WriteAt(w, c, at, updated, groups, next);
      HonestWorld(after, target) && after.backend == w.backend && HonestPc(w.backend, env, pc, target)
  {}

  lemma {:induction false} ActivateIsHonest(w: World, env: string, pc: Pc, c: Chance, target: SessionId -> string)
    requires HonestWorld(w, target) && pc.ActivateFirst? && HonestPc(w.backend, env, pc, target)
    ensures var (after, next) := ActivateStep(w, env, pc, c);
      HonestWorld(after, target) && after.backend == w.backend && HonestPc(w.backend, env, next, target)
  {
    var at := Position(w.state.sessions, pc.id);
    if at < |w.state.sessions| {
      var current := w.state.sessions[at];
      assert HonestRecord(w.backend, current, target);
      WritingAtIsHonest(w, env, c, at, ActivatedRecord(current, pc.identity, pc.launched, env, w.now), w.state.groups,
                        Noting(Entry(current, AuditAction.Activate, Some(Creating), Running, Some(pc.identity), None), Finished), target);
    }
  }

  lemma {:induction false} FinishIsHonest(w: World, env: string, pc: Pc, c: Chance, target: SessionId -> string)
    requires HonestWorld(w, target) && pc.FinishStop?
    ensures var (after, next) := FinishStopStep(w, pc, c);
      HonestWorld(after, target) && after.backend == w.backend && HonestPc(w.backend, env, next, target)
  {
    var at := Position(w.state.sessions, pc.snap.id);
    if at < |w.state.sessions| {
      var current := w.state.sessions[at];
      assert HonestRecord(w.backend, current, target);
      WritingAtIsHonest(w, env, c, at, StoppedRecord(current, pc.exitStatus, w.now), w.state.groups, FinishedNote(pc), target);
    }
  }

  lemma {:induction false} KillIsHonest(w: World, env: string, pc: Pc, c: Chance, target: SessionId -> string)
    requires HonestWorld(w, target) && pc.Killing? && pc.snap.proof.Some? && HonestPc(w.backend, env, pc, target)
    ensures var (after, next) := KillStep(w, env, pc, c);
      HonestWorld(after, target) && Follows(w.backend, after.backend) && HonestPc(after.backend, env, next, target)
  {
    KillFollows(w.backend, PlaceOf(env, pc.snap));
  }

  lemma {:induction false} ReadsAreHonest(w: World, env: string, pc: Pc, c: Chance, target: SessionId -> string)
    requires HonestWorld(w, target) && HonestPc(w.backend, env, pc, target)
    ensures pc.Start? ==> HonestPc(w.backend, env, AfterRead(pc.op, Lookup(w.state.sessions, pc.id)), target)
    ensures pc.Reload? ==> HonestPc(w.backend, env, ReloadStep(w, pc, c), target)
  {}

  /** Every step keeps records, panes and identities honest, and the backend only moves on. */
  lemma {:induction false} StepIsHonest(w: World, env: string, pc: Pc, c: Chance, target: SessionId -> string)
    requires HonestWorld(w, target) && HonestPc(w.backend, env, pc, target)
    ensures var (after, next) := Step(w, env, pc, c);
      HonestWorld(after, target) && Follows(w.backend, after.backend) && HonestPc(after.backend, env, next, target)
  {
    if IsSwap(pc) {
      SwapsAreHonest(w, env, pc, c, target);
    } else {
      match pc
      case Inspecting(_, _) => InspectionsAreHonest(w, env, pc, c, target);
      case Reinspecting(_, _, _) => InspectionsAreHonest(w, env, pc, c, target);
      case Insert(_) =>
      case LaunchAgain(_, _) => LaunchesAreHonest(w, env, pc, c, target);
      case LaunchFirst(_) => LaunchesAreHonest(w, env, pc, c, target);
      case FinishStop(_, _, _) => FinishIsHonest(w, env, pc, c, target);
      case ActivateFirst(_, _, _) => ActivateIsHonest(w, env, pc, c, target);
      case Killing(_, _, _, _) => if pc.snap.proof.Some? { KillIsHonest(w, env, pc, c, target); }
      case Start(_, _) => ReadsAreHonest(w, env, pc, c, target);
      case Reload(_) => ReadsAreHonest(w, env, pc, c, target);
      case _ =>
    }
  }

  lemma {:induction false} SwapHasEvidence(w: World, proc: Proc, c: Chance)
    requires IsSwap(proc.pc) && Evidence(proc.env, proc.pc, proc.past)
    ensures Evidence(proc.env, SwapStep(w, proc.pc, c).1, proc.past + Learned(w, proc.env, proc.pc, c))
  {
    assert proc.past + [] == proc.past;
    if proc.pc.MarkStopping? && SwapStep(w, proc.pc, c).1 != Failed {
      assert SwapStep(w, proc.pc, c).1 == AfterSwap(proc.pc);
      assert (proc.past + [Wrote(SessionStatus.Stopping)])[0] == proc.past[0];
    }
  }

  /** An honest record's pane is the pane of any session that answers to its identity, so an
      end that agrees with the record is an end of the launched command itself. */
  lemma {:induction false} EndsAreReal(b: Backend, env: string, snap: SessionRecord, target: SessionId -> string)
    requires Sound(b) && HonestRecord(b, snap, target) && snap.proof.Some?
    ensures var answer := Inspect(b, PlaceOf(env, snap), snap.proof.value, snap.tmuxPane);
      answer.EndedAs? && !Disagrees(snap, answer.identity) ==>
        Owned(b, PlaceOf(env, snap), snap.proof.value).Some? && Owned(b, PlaceOf(env, snap), snap.proof.value).value.launched.Exited?
  {}

  lemma {:induction false} InspectionHasEvidence(w: World, proc: Proc, c: Chance, target: SessionId -> string)
    requires HonestWorld(w, target) && SafeProc(w.backend, proc, target) && (proc.pc.Inspecting? || proc.pc.Reinspecting?)
    ensures var past := proc.past + Learned(w, proc.env, proc.pc, c);
      && Evidence(proc.env, Step(w, proc.env, proc.pc, c).1, past)
      && (forall i | 0 <= i < |past| :: Standing(w.backend, past[i]))
  {
    if proc.pc.snap.proof.Some? {
      EndsAreReal(w.backend, proc.env, proc.pc.snap, target);
    }
  }

  lemma {:induction false} KillHasEvidence(w: World, proc: Proc, c: Chance, target: SessionId -> string)
    requires HonestWorld(w, target) && SafeProc(w.backend, proc, target) && proc.pc.Killing? && proc.pc.snap.proof.Some?
    ensures Evidence(proc.env, KillStep(w, proc.env, proc.pc, c).1, proc.past)
    ensures var victim := Ended(w, proc.env, proc.pc, c);
      victim.Some? ==> Justified(Kill(proc.env, proc.pc.op, proc.pc.snap, victim.value, proc.past))
  {}

  lemma {:induction false} OtherStepsHaveEvidence(w: World, proc: Proc, c: Chance)
    requires Evidence(proc.env, proc.pc, proc.past)
    requires !IsSwap(proc.pc) && !proc.pc.Inspecting? && !proc.pc.Reinspecting? && !(proc.pc.Killing? && proc.pc.snap.proof.Some?)
    ensures Learned(w, proc.env, proc.pc, c) == [] && Ended(w, proc.env, proc.pc, c).None?
    ensures Evidence(proc.env, Step(w, proc.env, proc.pc, c).1, proc.past)
  {}

  /** A step extends the history it was taken on, and a kill it makes is justified. */
  lemma {:induction false} StepHasEvidence(w: World, proc: Proc, c: Chance, target: SessionId -> string)
    requires HonestWorld(w, target) && SafeProc(w.backend, proc, target)
    ensures var past := proc.past + Learned(w, proc.env, proc.pc, c);
      && Evidence(proc.env, Step(w, proc.env, proc.pc, c).1, past)
      && (forall i | 0 <= i < |past| :: Standing(w.backend, past[i]))
    ensures var victim := Ended(w, proc.env, proc.pc, c);
      victim.Some? ==> Justified(Kill(proc.env, proc.pc.op, proc.pc.snap, victim.value, proc.past))
  {
    assert proc.past + [] == proc.past;
    if IsSwap(proc.pc) {
      SwapHasEvidence(w, proc, c);
    } else if proc.pc.Inspecting? || proc.pc.Reinspecting? {
      InspectionHasEvidence(w, proc, c, target);
    } else if proc.pc.Killing? && proc.pc.snap.proof.Some? {
      KillHasEvidence(w, proc, c, target);
    } else {
      OtherStepsHaveEvidence(w, proc, c);
    }
  }

  // ---------- Every reachable configuration ----------

  /** What a step must bring for the whole configuration to stay safe. */
  ghost predicate SafeMove(config: Config, p: nat, result: (World, Pc), learned: seq<Event>, victim: Option<Incarnation>, target: SessionId -> string)
    requires p < |config.procs|
  {
    var proc := config.procs[p];
    && HonestWorld(result.0, target) && Follows(config.world.backend, result.0.backend)
    && SafeProc(result.0.backend, Proc(proc.env, result.1, proc.past + learned), target)
    && (victim.Some? && proc.pc.Killing? ==> Justified(Kill(proc.env, proc.pc.op, proc.pc.snap, victim.value, proc.past)))
  }

  lemma {:induction false} StepIsSafe(config: Config, p: nat, c: Chance, target: SessionId -> string)
    requires p < |config.procs| && Safe(config, target)
    ensures var w, proc := Later(config.world, c), config.procs[p];
      SafeMove(config, p, Step(w, proc.env, proc.pc, c), Learned(w, proc.env, proc.pc, c), Ended(w, proc.env, proc.pc, c), target)
  {
    var w, proc := Later(config.world, c), config.procs[p];
    var (after, pc) := Step(w, proc.env, proc.pc, c);
    var past := proc.past + Learned(w, proc.env, proc.pc, c);
    StepIsHonest(w, proc.env, proc.pc, c, target);
    StepHasEvidence(w, proc, c, target);
    forall i | 0 <= i < |past| ensures Standing(after.backend, past[i]) {
      assert Standing(w.backend, past[i]);
    }
  }

  lemma {:induction false} OneMovesOthersStay(config: Config, p: nat, result: (World, Pc), learned: seq<Event>, victim: Option<Incarnation>, target: SessionId -> string)
    requires p < |config.procs| && Safe(config, target)
    requires SafeMove(config, p, result, learned, victim, target)
    ensures Safe(Moved(config, p, result, learned, victim), target)
  {
    forall q | 0 <= q < |config.procs| && q != p ensures SafeProc(result.0.backend, config.procs[q], target) {
      SafeProcLasts(config.world.backend, result.0.backend, config.procs[q], target);
    }
  }

  lemma {:induction false} ActIsSafe(config: Config, p: nat, c: Chance, target: SessionId -> string)
    requires p < |config.procs| && Safe(config, target)
    ensures Safe(ActOn(config, p, c), target)
  {
    var w, proc := Later(config.world, c), config.procs[p];
    StepIsSafe(config, p, c, target);
    var result, learned, victim := Step(w, proc.env, proc.pc, c), Learned(w, proc.env, proc.pc, c), Ended(w, proc.env, proc.pc, c);
    assert ActOn(config, p, c) == Moved(config, p, result, learned, victim);
    OneMovesOthersStay(config, p, result, learned, victim, target);
  }

  lemma {:induction false} TakeIsSafe(config: Config, move: Move, target: SessionId -> string)
    requires Safe(config, target) && Permitted(config, move, target)
    ensures Safe(Take(config, move, target), target)
  {
    match move
    case Act(p, c) => ActIsSafe(config, p, c, target);
    case CommandExits(place, status) =>
      var later := AfterExit(config.world.backend, place, status);
      forall q | 0 <= q < |config.procs| ensures SafeProc(later, config.procs[q], target) {
        SafeProcLasts(config.world.backend, later, config.procs[q], target);
      }
    case SessionVanishes(place) =>
      KillFollows(config.world.backend, place);
      var later := Without(config.world.backend, place);
      forall q | 0 <= q < |config.procs| ensures SafeProc(later, config.procs[q], target) {
        SafeProcLasts(config.world.backend, later, config.procs[q], target);
      }
    case _ =>
  }

  lemma {:induction false} RunIsSafe(run: seq<Config>, moves: seq<Move>, at: nat, target: SessionId -> string)
    requires IsRun(run, moves, target) && at < |run|
    ensures Safe(run[at], target)
  {
    if at > 0 {
      RunIsSafe(run, moves, at - 1, target);
      TakeIsSafe(run[at - 1], moves[at - 1], target);
    }
  }

  /** In every interleaving, with crashes anywhere: each session an operation ended is one it
      had seen twice under its own proof and identity - the very same session, not a later
      one - and a stop had committed its own stopping write between the two looks, while a
      restart or a removal found the command exited both times and ended it exited. */
  lemma {:induction false} EveryKillIsJustified(run: seq<Config>, moves: seq<Move>, at: nat, kill: Kill, target: SessionId -> string)
    requires IsRun(run, moves, target) && at < |run| && kill in run[at].kills
    ensures |kill.past| == (if kill.op == ToStop then 3 else 2)
    ensures var first, last := kill.past[0], kill.past[|kill.past| - 1];
      && first.Saw? && last.Saw? && first.place == last.place == PlaceOf(kill.env, kill.snap)
      && first.seen.Some? && last.seen.Some?
      && first.seen.value.birth == last.seen.value.birth == kill.victim.birth
      && first.seen.value.identity == last.seen.value.identity == kill.victim.identity
      && kill.snap.proof == Some(first.seen.value.proof)
      && !Disagrees(kill.snap, kill.victim.identity)
    ensures kill.op == ToStop ==> kill.past[1] == Wrote(SessionStatus.Stopping)
    ensures kill.op != ToStop ==>
      && (kill.op == ToRestart || kill.op == ToRemove)
      && kill.past[0].answer.EndedAs? && kill.past[1].answer.EndedAs? && kill.victim.launched.Exited?
  {
    RunIsSafe(run, moves, at, target);
  }

  /** Nothing an operation does but a recorded kill takes a session out of the backend, and
      a kill takes exactly one. */
  lemma {:induction false} OnlyRecordedKillsEndSessions(run: seq<Config>, moves: seq<Move>, at: nat, place: Place, target: SessionId -> string)
    requires IsRun(run, moves, target) && at < |moves| && moves[at].Act?
    requires place in run[at].world.backend.sessions && place !in run[at + 1].world.backend.sessions
    ensures |run[at + 1].kills| == |run[at].kills| + 1 && run[at + 1].kills[..|run[at].kills|] == run[at].kills
    ensures run[at + 1].kills[|run[at].kills|].victim == run[at].world.backend.sessions[place]
    ensures run[at + 1].world.backend.sessions == run[at].world.backend.sessions - {place}
  {}
}
