/** What the durable backend promises the lifecycle (src/tmux.rs, src/backend.rs): sessions
    are found by name and ownership proof on one socket, a kill is guarded by identity and
    proof, and neither a session identity nor a pane identity is ever issued twice. */
module Tmux {
  import opened Common
  import opened Records

  /** One tmux server: the host it runs on and the socket it answers. */
  datatype Server = Server(target: string, socket: string)

  /** A session name on one server; a server holds at most one session of a name. */
  datatype Place = Place(server: Server, name: SessionId)

  /** What the pane a workload was launched in is doing. A pane that was destroyed
      inside a surviving session has exited without a status. */
  datatype PaneState = Live | Exited(exitStatus: Option<int>)

  /** One tmux session from its creation to its end. */
  datatype Incarnation = Incarnation(
    identity: TmuxSessionId, pane: TmuxPaneId, proof: OwnershipProof, birth: nat, launched: PaneState)

  /** What was fixed about a session when its identity was issued. */
  datatype Issue = Issue(pane: TmuxPaneId, name: SessionId, proof: OwnershipProof, birth: nat)

  datatype Backend = Backend(
    sessions: map<Place, Incarnation>,
    issued: map<(Server, TmuxSessionId), Issue>,
    births: nat)

  datatype WorkloadState =
    | Missing
    | RunningAs(identity: TmuxSessionId)
    | EndedAs(identity: TmuxSessionId, exitStatus: Option<int>)
    | Unknown

  /** What the bookkeeping of issued identities says about the sessions that exist. */
  ghost predicate Sound(b: Backend) {
    && (forall place | place in b.sessions ::
          var inc := b.sessions[place];
          && (place.server, inc.identity) in b.issued
          && b.issued[(place.server, inc.identity)] == Issue(inc.pane, place.name, inc.proof, inc.birth))
    && (forall key | key in b.issued :: b.issued[key].birth < b.births)
  }

  /** The session of a name, if it carries the proof. */
  function Owned(b: Backend, place: Place, proof: OwnershipProof): Option<Incarnation> {
    if place in b.sessions && b.sessions[place].proof == proof then Some(b.sessions[place]) else None
  }

  /** The exact inspection: the launched pane when one is named, and otherwise the session.
      A named pane that answers nothing while its session survives has ended. */
  function Inspect(b: Backend, place: Place, proof: OwnershipProof, pane: Option<TmuxPaneId>): WorkloadState {
    match Owned(b, place, proof)
    case None => Missing
    case Some(inc) =>
      if pane.Some? && pane.value != inc.pane then EndedAs(inc.identity, None)
      else match inc.launched
        case Live => RunningAs(inc.identity)
        case Exited(status) => EndedAs(inc.identity, status)
  }

  /** Whether the guard in front of a kill lets it through. */
  predicate Guarded(b: Backend, place: Place, proof: OwnershipProof, identity: TmuxSessionId) {
    Owned(b, place, proof).Some? && Owned(b, place, proof).value.identity == identity
  }

  function Without(b: Backend, place: Place): Backend {
    b.(sessions := b.sessions - {place})
  }

  predicate CanCreate(b: Backend, place: Place, identity: TmuxSessionId, pane: TmuxPaneId) {
    && place !in b.sessions
    && (place.server, identity) !in b.issued
    && (forall key | key in b.issued && key.0 == place.server :: b.issued[key].pane != pane)
  }

  function Created(b: Backend, place: Place, proof: OwnershipProof, identity: TmuxSessionId, pane: TmuxPaneId): Backend {
    Backend(
      b.sessions[place := Incarnation(identity, pane, proof, b.births, Live)],
      b.issued[(place.server, identity) := Issue(pane, place.name, proof, b.births)],
      b.births + 1)
  }

  /** A launched command exits on its own. */
  function AfterExit(b: Backend, place: Place, status: Option<int>): Backend {
    if place in b.sessions && b.sessions[place].launched.Live?
    then b.(sessions := b.sessions[place := b.sessions[place].(launched := Exited(status))])
    else b
  }

  /** Time only moves one way: what was issued stays issued, nothing that exists under an
      old identity is new, and a command that exited never runs again. */
  ghost predicate Follows(b: Backend, later: Backend) {
    && (forall key | key in b.issued :: key in later.issued && later.issued[key] == b.issued[key])
    && (forall place | place in later.sessions && (place.server, later.sessions[place].identity) in b.issued ::
          && place in b.sessions
          && b.sessions[place].(launched := later.sessions[place].launched) == later.sessions[place]
          && (b.sessions[place].launched.Exited? ==> later.sessions[place].launched == b.sessions[place].launched))
  }

  lemma KillFollows(b: Backend, place: Place)
    requires Sound(b)
    ensures Sound(Without(b, place)) && Follows(b, Without(b, place))
  {}

  lemma CreateFollows(b: Backend, place: Place, proof: OwnershipProof, identity: TmuxSessionId, pane: TmuxPaneId)
    requires Sound(b) && CanCreate(b, place, identity, pane)
    ensures var later := Created(b, place, proof, identity, pane); Sound(later) && Follows(b, later)
  {}
}
