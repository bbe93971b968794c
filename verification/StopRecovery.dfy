/** A stop can be cut short anywhere; running it again always gets to the end. */
module StopRecovery {
  import opened Common
  import opened Records
  import opened Tmux
  import opened Audit
  import opened Lifecycle
  import opened SingleIncarnation

  /** Where an operation is after taking the given steps, with nothing in between. */
  function Iterate(w: World, env: string, pc: Pc, cs: seq<Chance>): (World, Pc)
    decreases |cs|
  {
    if cs == [] then (w, pc)
    else var (after, next) := Advance(w, env, pc, cs[0]); Iterate(after, env, next, cs[1..])
  }

  /** How many sessions those steps take out of the backend. */
  function KillCount(w: World, env: string, pc: Pc, cs: seq<Chance>): nat
    decreases |cs|
  {
    if cs == [] then 0
    else
      var (after, next) := Advance(w, env, pc, cs[0]);
      (if pc.Killing? && after.backend != w.backend then 1 else 0) + KillCount(after, env, next, cs[1..])
  }

  /** Every answer comes back, is readable, and every write succeeds. */
  ghost predicate Reachable(cs: seq<Chance>) {
    forall c | c in cs :: !c.fault && !c.unreadable
  }

  /** The stop has ended: the record says so and kept its identity and its start, nothing is
      left of the session, and no other record was touched. */
  ghost predicate HasStopped(before: World, after: World, pc: Pc, r: SessionRecord) {
    && pc == Finished
    && NoneLeft(after.backend, r)
    && |after.state.sessions| == |before.state.sessions|
    && (forall i | 0 <= i < |before.state.sessions| ::
          if before.state.sessions[i].id == r.id then StoppedFrom(r, after.state.sessions[i])
          else after.state.sessions[i] == before.state.sessions[i])
  }

  ghost predicate StoppedFrom(r: SessionRecord, ended: SessionRecord) {
    && ended.id == r.id && ended.status == Ended && ended.closedAt.Some? && ended.proof == r.proof
    && (r.tmuxSession.Some? ==> ended.tmuxSession == r.tmuxSession)
    && ended.lastUsedAt == r.lastUsedAt && ended.createdAt == r.createdAt
    && ended.tmuxPane == r.tmuxPane && ended.tmuxSocket == r.tmuxSocket && ended.command == r.command
  }

  lemma {:induction false} FinishedStays(w: World, env: string, cs: seq<Chance>)
    ensures var (after, pc) := Iterate(w, env, Finished, cs);
      pc == Finished && after.state == w.state && after.backend == w.backend
    ensures KillCount(w, env, Finished, cs) == 0
    decreases |cs|
  {
    if cs != [] {
      FinishedStays(Advance(w, env, Finished, cs[0]).0, env, cs[1..]);
    }
  }

  lemma {:induction false} NotingThenFinished(w: World, env: string, entry: AuditEntry, cs: seq<Chance>)
    requires |cs| >= 1
    ensures var (after, pc) := Iterate(w, env, Noting(entry, Finished), cs);
      pc == Finished && after.state == w.state && after.backend == w.backend
    ensures KillCount(w, env, Noting(entry, Finished), cs) == 0
  {
    FinishedStays(Advance(w, env, Noting(entry, Finished), cs[0]).0, env, cs[1..]);
  }

  lemma {:induction false} FinishingCompletes(w: World, env: string, r: SessionRecord, found: Option<TmuxSessionId>, status: Option<int>, cs: seq<Chance>)
    requires Reachable(cs) && |cs| >= 2 && OneRecordEach(w.state.sessions) && NoneLeft(w.backend, r)
    requires StoppingRecord(r, found) in w.state.sessions
    requires r.tmuxSession.Some? && found.Some? ==> found == r.tmuxSession
    ensures var (after, pc) := Iterate(w, env, FinishStop(r, found, status), cs); HasStopped(w, after, pc, r)
    ensures KillCount(w, env, FinishStop(r, found, status), cs) == 0
  {
    var pc := FinishStop(r, found, status);
    var (after, next) := Advance(w, env, pc, cs[0]);
    var at := Position(w.state.sessions, r.id);
    assert w.state.sessions[at] == StoppingRecord(r, found);
    assert next == FinishedNote(pc);
    NotingThenFinished(after, env, next.entry, cs[1..]);
  }

  lemma {:induction false} KillingCompletes(w: World, env: string, r: SessionRecord, identity: TmuxSessionId, status: Option<int>, cs: seq<Chance>, home: Home)
    requires Reachable(cs) && |cs| >= 3 && OneRecordEach(w.state.sessions)
    requires Acting(w, ToStop, r, identity, env, home) && Guarded(w.backend, PlaceOf(env, r), r.proof.value, identity)
    requires !Disagrees(r, identity)
    ensures var (after, pc) := Iterate(w, env, Killing(ToStop, r, identity, status), cs); HasStopped(w, after, pc, r)
    ensures KillCount(w, env, Killing(ToStop, r, identity, status), cs) == 1
  {
    var c := cs[0];
    var w0 := Later(w, c);
    var pc := Killing(ToStop, r, identity, status);
    var (after, next) := Advance(w, env, pc, c);
    assert next == FinishStop(r, Some(identity), status);
    FinishingCompletes(after, env, r, Some(identity), status, cs[1..]);
  }

  lemma {:induction false} ReinspectingCompletes(w: World, env: string, r: SessionRecord, identity: TmuxSessionId, cs: seq<Chance>, home: Home)
    requires Reachable(cs) && |cs| >= 4 && OneRecordEach(w.state.sessions)
    requires Acting(w, ToStop, r, identity, env, home) && Guarded(w.backend, PlaceOf(env, r), r.proof.value, identity)
    requires !Disagrees(r, identity)
    ensures var (after, pc) := Iterate(w, env, Reinspecting(ToStop, r, identity), cs); HasStopped(w, after, pc, r)
    ensures KillCount(w, env, Reinspecting(ToStop, r, identity), cs) == 1
  {
    var pc := Reinspecting(ToStop, r, identity);
    var (after, next) := Advance(w, env, pc, cs[0]);
    assert next.Killing? && next == Killing(ToStop, r, identity, next.exitStatus);
    KillingCompletes(after, env, r, identity, next.exitStatus, cs[1..], home);
  }

  lemma {:induction false} MarkingSucceeds(w: World, r: SessionRecord, found: Option<TmuxSessionId>, c: Chance)
    requires OneRecordEach(w.state.sessions) && r in w.state.sessions && !IsClosed(r.status) && !c.fault
    ensures var (marked, next) := SwapStep(w, MarkStopping(r, found), c);
      && next == AfterSwap(MarkStopping(r, found)) && marked.backend == w.backend
      && |marked.state.sessions| == |w.state.sessions| && OneRecordEach(marked.state.sessions)
      && StoppingRecord(r, found) in marked.state.sessions
      && (forall i | 0 <= i < |w.state.sessions| && w.state.sessions[i].id != r.id :: marked.state.sessions[i] == w.state.sessions[i])
      && (forall i | 0 <= i < |w.state.sessions| && w.state.sessions[i].id == r.id :: marked.state.sessions[i].id == r.id)
  {
    var at := Position(w.state.sessions, r.id);
    assert w.state.sessions[at] == r;
    assert w.state.sessions[at := StoppingRecord(r, found)][at] == StoppingRecord(r, found);
  }

  lemma {:induction false} AfterMarkingCompletes(w: World, env: string, r: SessionRecord, found: Option<TmuxSessionId>, entry: AuditEntry, cs: seq<Chance>, home: Home)
    requires Reachable(cs) && |cs| >= 5 && OneRecordEach(w.state.sessions)
    requires r.proof.Some? && Tied(w.backend, r, home) && env == home(r.id).socket && Found(w.backend, r, found)
    requires StoppingRecord(r, found) in w.state.sessions
    requires found.Some? ==> !Disagrees(r, found.value) && Guarded(w.backend, PlaceOf(env, r), r.proof.value, found.value)
    ensures var pc := Noting(entry, if found.Some? then Reinspecting(ToStop, r, found.value) else FinishStop(r, None, None));
      && (var (after, next) := Iterate(w, env, pc, cs); HasStopped(w, after, next, r))
      && KillCount(w, env, pc, cs) == if found.Some? then 1 else 0
  {
    var pc := Noting(entry, if found.Some? then Reinspecting(ToStop, r, found.value) else FinishStop(r, None, None));
    var (noted, next) := Advance(w, env, pc, cs[0]);
    assert noted.state == w.state && noted.backend == w.backend && next == pc.next;
    if found.Some? {
      ReinspectingCompletes(noted, env, r, found.value, cs[1..], home);
    } else {
      FinishingCompletes(noted, env, r, None, None, cs[1..]);
    }
  }

  lemma {:induction false} MarkingCompletes(w: World, env: string, r: SessionRecord, found: Option<TmuxSessionId>, cs: seq<Chance>, home: Home)
    requires Reachable(cs) && |cs| >= 6 && OneRecordEach(w.state.sessions) && r in w.state.sessions
    requires r.proof.Some? && Tied(w.backend, r, home) && env == home(r.id).socket && !IsClosed(r.status) && Found(w.backend, r, found)
    requires found.Some? ==> !Disagrees(r, found.value) && Guarded(w.backend, PlaceOf(env, r), r.proof.value, found.value)
    ensures var (after, pc) := Iterate(w, env, MarkStopping(r, found), cs); HasStopped(w, after, pc, r)
    ensures KillCount(w, env, MarkStopping(r, found), cs) == if found.Some? then 1 else 0
  {
    var w0 := Later(w, cs[0]);
    var pc := MarkStopping(r, found);
    MarkingSucceeds(w0, r, found, cs[0]);
    var (marked, noting) := SwapStep(w0, pc, cs[0]);
    assert Advance(w, env, pc, cs[0]) == (marked, noting);
    AfterMarkingCompletes(marked, env, r, found, noting.entry, cs[1..], home);
    assert HasStopped(marked, Iterate(marked, env, noting, cs[1..]).0, Iterate(marked, env, noting, cs[1..]).1, r);
  }

  /** A stop of any open, tied record against a reachable backend ends it: eight steps are
      always enough, and it kills exactly when something is left to kill. */
  lemma {:induction false} StopCompletes(w: World, r: SessionRecord, cs: seq<Chance>, home: Home)
    requires Reachable(cs) && |cs| >= 8 && TiedWorld(w, home)
    requires r in w.state.sessions && r.proof.Some? && !IsClosed(r.status)
    ensures var env := home(r.id).socket; var (after, pc) := Iterate(w, env, Start(ToStop, r.id), cs); HasStopped(w, after, pc, r)
    ensures KillCount(w, home(r.id).socket, Start(ToStop, r.id), cs) == if NoneLeft(w.backend, r) then 0 else 1
  {
    var env := home(r.id).socket;
    var (read, inspecting) := Advance(w, env, Start(ToStop, r.id), cs[0]);
    assert inspecting == Inspecting(ToStop, r);
    var (asked, marking) := Advance(read, env, inspecting, cs[1]);
    InspectionsAreTruthful(w.backend, r, env, home);
    var rest := cs[2..];
    assert rest == cs[1..][1..];
    assert marking.MarkStopping? && asked.state == w.state && asked.backend == w.backend;
    MarkingCompletes(asked, env, r, marking.found, rest, home);
  }

  /** From any moment of any run - in particular from whatever a crashed or failed stop left
      behind - running stop again ends the record and the session, kills nothing if the
      earlier kill took effect, and keeps the recorded identity and start. */
  lemma {:induction false} RerunningStopRecovers(run: seq<Turn>, moves: seq<Move>, at: nat, r: SessionRecord, cs: seq<Chance>, home: Home)
    requires IsRun(run, moves, home) && at < |run| && Reachable(cs) && |cs| >= 8
    requires r in run[at].world.state.sessions && r.proof.Some? && !IsClosed(r.status)
    ensures var w, env := run[at].world, home(r.id).socket;
      && (var (after, pc) := Iterate(w, env, Start(ToStop, r.id), cs); HasStopped(w, after, pc, r))
      && KillCount(w, env, Start(ToStop, r.id), cs) == if NoneLeft(w.backend, r) then 0 else 1
  {
    RunKeepsTies(run, moves, at, home);
    StopCompletes(run[at].world, r, cs, home);
  }
}
