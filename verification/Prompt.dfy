/** Delivering a reviewed prompt (src/mission_control.rs): every destination is authorized from
    the state and found in Herdr, and then both are read again before anything is sent. */
module Prompt {
  import opened Common
  import opened Records

  const MAX_PROMPT_TARGETS: nat := 8

  datatype AgentStatus = Idle | Working | Blocked | Done | Unknown {
    predicate IsSettled() { Idle? || Done? }
  }

  /** One agent Herdr knows, with the tokens its pane carries. */
  datatype Agent = Agent(
    pane: string, terminal: string, name: Option<string>, kind: Option<string>, status: AgentStatus,
    stateChangeSeq: nat, revision: nat,
    groupToken: Option<string>, sessionToken: Option<SessionId>, membershipToken: Option<MembershipId>)

  datatype Snapshot = Snapshot(agents: seq<Agent>, supported: bool)

  datatype Target = Target(session: SessionId, membership: MembershipId)

  datatype Expectation = Expectation(group: string, session: SessionId, membership: MembershipId, kind: string)

  datatype Binding = Binding(
    group: string, session: SessionId, membership: MembershipId, pane: string, terminal: string,
    name: Option<string>, kind: string, status: AgentStatus, stateChangeSeq: nat, revision: nat)
  {
    /** The name an agent answers to, or the pane it sits in. */
    function Addressee(): string { name.GetOr(pane) }

    /** Who is there, without where it sits or what it is doing. */
    predicate SameOccupant(other: Binding) {
      && group == other.group && session == other.session && membership == other.membership
      && terminal == other.terminal && kind == other.kind && name == other.name
    }
  }

  datatype BindingFailure = Detached | StaleMembership | Ambiguous | UnknownAgent | AgentKindMismatch

  datatype Resolved = Bound(binding: Binding) | Unbound(failure: BindingFailure)

  // ---------- Authorization ----------

  function FindGroup(groups: seq<Group>, id: string): (at: nat)
    ensures at <= |groups| && (at < |groups| ==> groups[at].id == id)
  {
    if groups == [] || groups[0].id == id then 0 else 1 + FindGroup(groups[1..], id)
  }

  function FindMember(members: seq<Member>, session: SessionId): (at: nat)
    ensures at <= |members| && (at < |members| ==> members[at].session == session)
  {
    if members == [] || members[0].session == session then 0 else 1 + FindMember(members[1..], session)
  }

  /** What the state authorizes: a prompt to a running, exact-owned worker of this membership,
      whose agent is the kind its record names. */
  function Authorized(s: State, group: string, target: Target): Option<Expectation> {
    var g := FindGroup(s.groups, group);
    if g == |s.groups| then None else
    var m := FindMember(s.groups[g].workers, target.session);
    if m == |s.groups[g].workers| then None else
    var member := s.groups[g].workers[m];
    if member.membership != target.membership || !member.capabilities.promptAgent then None else
    var record := Lookup(s.sessions, member.session);
    if record.None? || record.value.status != SessionStatus.Running || record.value.proof.None? || record.value.tmuxSession.None? then None
    else if record.value.herdrAgent.None? then None
    else Some(Expectation(group, member.session, member.membership, record.value.herdrAgent.value))
  }

  // ---------- Finding the agent ----------

  predicate Claims(a: Agent, x: Expectation) {
    a.groupToken == Some(x.group) && a.sessionToken == Some(x.session)
  }

  predicate ClaimsExactly(a: Agent, x: Expectation) {
    Claims(a, x) && a.membershipToken == Some(x.membership)
  }

  predicate IsKind(a: Agent, kind: string) {
    a.kind.Some? && a.kind.value != "" && a.kind.value == kind
  }

  function BindingTo(a: Agent, x: Expectation): Binding {
    Binding(x.group, x.session, x.membership, a.pane, a.terminal, a.name, x.kind, a.status, a.stateChangeSeq, a.revision)
  }

  function Resolve(snapshot: Snapshot, x: Expectation): Resolved {
    var related := Filter(snapshot.agents, (a: Agent) => Claims(a, x));
    var exact := Filter(related, (a: Agent) => ClaimsExactly(a, x));
    if exact == [] then Unbound(if related == [] then Detached else StaleMembership)
    else if |exact| != 1 then Unbound(Ambiguous)
    else if exact[0].kind.None? || exact[0].kind.value == "" then Unbound(UnknownAgent)
    else if exact[0].kind.value != x.kind then Unbound(AgentKindMismatch)
    else Bound(BindingTo(exact[0], x))
  }

  /** The one agent of a snapshot that carries all three tokens, of the expected kind. */
  ghost predicate IsTheOne(snapshot: Snapshot, x: Expectation, i: nat) {
    && i < |snapshot.agents| && ClaimsExactly(snapshot.agents[i], x) && IsKind(snapshot.agents[i], x.kind)
    && forall j | 0 <= j < |snapshot.agents| && ClaimsExactly(snapshot.agents[j], x) :: j == i
  }

  lemma {:induction false} ExactAmongRelated(agents: seq<Agent>, x: Expectation)
    ensures Filter(Filter(agents, (a: Agent) => Claims(a, x)), (a: Agent) => ClaimsExactly(a, x)) == Filter(agents, (a: Agent) => ClaimsExactly(a, x))
  {
    if agents != [] {
      ExactAmongRelated(agents[1..], x);
      var rest := Filter(agents[1..], (a: Agent) => Claims(a, x));
      if Claims(agents[0], x) {
        assert ([agents[0]] + rest)[1..] == rest;
      }
    }
  }

  lemma {:induction false} OneKept(agents: seq<Agent>, x: Expectation, i: nat)
    requires i < |agents| && ClaimsExactly(agents[i], x) && |Filter(agents, (a: Agent) => ClaimsExactly(a, x))| == 1
    ensures Filter(agents, (a: Agent) => ClaimsExactly(a, x)) == [agents[i]]
    ensures forall j | 0 <= j < |agents| && ClaimsExactly(agents[j], x) :: j == i
  {
    var rest := Filter(agents[1..], (a: Agent) => ClaimsExactly(a, x));
    if ClaimsExactly(agents[0], x) {
      assert rest == [];
      forall j | 0 < j < |agents| ensures !ClaimsExactly(agents[j], x) { assert agents[1..][j - 1] == agents[j] && agents[j] in agents[1..]; }
    } else {
      OneKept(agents[1..], x, i - 1);
      forall j | 0 < j < |agents| && ClaimsExactly(agents[j], x) ensures j == i { assert agents[1..][j - 1] == agents[j]; }
    }
  }

  lemma {:induction false} OnlyOneIsKept(agents: seq<Agent>, x: Expectation, i: nat)
    requires i < |agents| && ClaimsExactly(agents[i], x) && forall j | 0 <= j < |agents| && ClaimsExactly(agents[j], x) :: j == i
    ensures Filter(agents, (a: Agent) => ClaimsExactly(a, x)) == [agents[i]]
  {
    var keep := (a: Agent) => ClaimsExactly(a, x);
    var before, after := agents[..i], agents[i + 1..];
    assert agents == before + ([agents[i]] + after);
    FilterJoins(before, [agents[i]] + after, keep);
    FilterJoins([agents[i]], after, keep);
    NoneKept(before, x);
    NoneKept(after, x);
  }

  lemma {:induction false} NoneKept(agents: seq<Agent>, x: Expectation)
    requires forall j | 0 <= j < |agents| :: !ClaimsExactly(agents[j], x)
    ensures Filter(agents, (a: Agent) => ClaimsExactly(a, x)) == []
  {
    if agents != [] {
      NoneKept(agents[1..], x);
    }
  }

  /** A snapshot resolves to a binding exactly when one agent, and only one, carries the tokens
      and it is of the expected kind; and the binding is about that agent. */
  lemma ResolvingFindsTheOne(snapshot: Snapshot, x: Expectation)
    ensures Resolve(snapshot, x).Bound? <==> exists i: nat :: IsTheOne(snapshot, x, i)
    ensures forall i: nat | IsTheOne(snapshot, x, i) :: Resolve(snapshot, x) == Bound(BindingTo(snapshot.agents[i], x))
  {
    var agents := snapshot.agents;
    ExactAmongRelated(agents, x);
    var exact := Filter(agents, (a: Agent) => ClaimsExactly(a, x));
    if Resolve(snapshot, x).Bound? {
      assert exact[0] in agents;
      var i :| 0 <= i < |agents| && agents[i] == exact[0];
      OneKept(agents, x, i);
      assert IsTheOne(snapshot, x, i);
    }
    forall i: nat | IsTheOne(snapshot, x, i) ensures Resolve(snapshot, x) == Bound(BindingTo(agents[i], x)) {
      OnlyOneIsKept(agents, x, i);
    }
  }

  // ---------- Delivering ----------

  datatype Delivery =
    | Delivered(session: SessionId, status: AgentStatus)
    | Rejected(session: SessionId)
    | Stalled(session: SessionId)
    | Uncertain(session: SessionId)

  /** What Herdr answers a prompt with. */
  datatype Answer = Answered(terminal: string, kind: Option<string>, status: AgentStatus) | DeliveryUncertain | DeliveryStalled | DeliveryRejected

  /** One prompt: for whom, under which name it was addressed, and what it said. */
  datatype Send = Send(destination: Target, addressee: string, prompt: string)

  /** Everything the service does with the world around it, in order. */
  datatype Event = ReadState(state: Option<State>) | TookSnapshot(snapshot: Option<Snapshot>) | Prompted(send: Send)

  /** What the world answers to the n-th of these. The state file and Herdr belong to
      everybody, so nothing relates one answer to another. */
  datatype Outside = Outside(
    states: nat -> Option<State>, snapshots: nat -> Option<Snapshot>, answers: nat -> Answer, panics: nat -> bool)

  /** Both reads of the state authorize the same thing, both snapshots resolve it to one agent,
      and that is the same settled occupant in the same state. */
  predicate Warranted(firstState: Option<State>, firstSnapshot: Option<Snapshot>, secondState: Option<State>, secondSnapshot: Option<Snapshot>,
                      group: string, target: Target)
  {
    && firstState.Some? && firstSnapshot.Some? && secondState.Some? && secondSnapshot.Some?
    && var x := Authorized(firstState.value, group, target);
    && x.Some? && Authorized(secondState.value, group, target) == x
    && firstSnapshot.value.supported
    && var first, second := Resolve(firstSnapshot.value, x.value), Resolve(secondSnapshot.value, x.value);
    && first.Bound? && second.Bound?
    && first.binding.status.IsSettled() && second.binding.status.IsSettled()
    && second.binding.SameOccupant(first.binding) && second.binding.stateChangeSeq == first.binding.stateChangeSeq
  }

  /** What a first look finds: whom the state authorizes, settled in a supported Herdr. */
  function FirstLook(state: Option<State>, snapshot: Option<Snapshot>, group: string, target: Target): Option<(Expectation, Binding)> {
    if state.None? then None else
    var x := Authorized(state.value, group, target);
    if x.None? || snapshot.None? || !snapshot.value.supported then None else
    var found := Resolve(snapshot.value, x.value);
    if found.Unbound? || !found.binding.status.IsSettled() then None else Some((x.value, found.binding))
  }

  /** What a second look confirms of the first. */
  function SecondLook(state: Option<State>, snapshot: Option<Snapshot>, group: string, target: Target, first: (Expectation, Binding)): Option<Binding> {
    if state.None? || Authorized(state.value, group, target) != Some(first.0) || snapshot.None? then None else
    var found := Resolve(snapshot.value, first.0);
    if found.Unbound? || !found.binding.SameOccupant(first.1) || found.binding.stateChangeSeq != first.1.stateChangeSeq || !found.binding.status.IsSettled()
    then None else Some(found.binding)
  }

  /** The same of the four things found from the n-th on. */
  predicate WarrantedAt(o: Outside, n: nat, group: string, target: Target) {
    Warranted(o.states(n), o.snapshots(n + 1), o.states(n + 2), o.snapshots(n + 3), group, target)
  }

  /** Whom the second snapshot finds. */
  function Whom(o: Outside, n: nat, group: string, target: Target): Binding
    requires WarrantedAt(o, n, group, target)
  {
    Resolve(o.snapshots(n + 3).value, Authorized(o.states(n + 2).value, group, target).value).binding
  }

  /** State, snapshot, state, snapshot: four reads, each finding what is there then. */
  function FourReads(o: Outside, n: nat): seq<Event> {
    [ReadState(o.states(n)), TookSnapshot(o.snapshots(n + 1)), ReadState(o.states(n + 2)), TookSnapshot(o.snapshots(n + 3))]
  }

  /** What is reported of a prompt to an agent that was answered. */
  function Report(target: Target, binding: Binding, answer: Answer): Delivery {
    match answer
    case Answered(terminal, kind, status) =>
      if terminal == binding.terminal && kind == Some(binding.kind) then Delivered(target.session, status) else Uncertain(target.session)
    case DeliveryUncertain => Uncertain(target.session)
    case DeliveryStalled => Stalled(target.session)
    case DeliveryRejected => Rejected(target.session)
  }

  /** What happens for one destination from the n-th event on: exactly if the four reads
      warrant it, they are followed by one prompt to the agent that the last of them found;
      otherwise nothing but reads happens, and the destination is rejected. */
  ghost predicate Episode(o: Outside, n: nat, group: string, target: Target, prompt: string, events: seq<Event>, delivery: Delivery) {
    if WarrantedAt(o, n, group, target) then
      var whom := Whom(o, n, group, target);
      && events == FourReads(o, n) + [Prompted(Send(target, whom.Addressee(), prompt))]
      && delivery == Report(target, whom, o.answers(n + 4))
    else events <= FourReads(o, n) && delivery == Rejected(target.session)
  }

  /** The two looks succeed exactly where a prompt is warranted, and find its addressee. */
  lemma LooksWarrant(o: Outside, n: nat, group: string, target: Target)
    ensures var first := FirstLook(o.states(n), o.snapshots(n + 1), group, target);
      var second := if first.None? then None else SecondLook(o.states(n + 2), o.snapshots(n + 3), group, target, first.value);
      WarrantedAt(o, n, group, target) == second.Some? && (second.Some? ==> second.value == Whom(o, n, group, target))
  {}

  lemma {:induction false} ReadsInOrder(o: Outside, before: seq<Event>, after: seq<Event>)
    requires var n := |before|;
      || after == before + [ReadState(o.states(n))]
      || after == before + [ReadState(o.states(n)), TookSnapshot(o.snapshots(n + 1))]
      || after == before + FourReads(o, n)[..3]
      || after == before + FourReads(o, n)
    ensures before <= after && after[|before|..] <= FourReads(o, |before|)
    ensures |after| == |before| + 4 ==> after[|before|..] == FourReads(o, |before|)
  {
    assert after[|before|..] == FourReads(o, |before|)[..|after| - |before|];
  }

  /** What the reads so far confirm: all four of them the agent to prompt, exactly if they
      warrant a prompt. */
  ghost predicate Confirms(o: Outside, n: nat, group: string, target: Target, events: seq<Event>, confirmed: Option<Binding>) {
    && events <= FourReads(o, n) && confirmed.Some? == WarrantedAt(o, n, group, target)
    && (confirmed.Some? ==> events == FourReads(o, n) && confirmed.value == Whom(o, n, group, target))
  }

  lemma OneLook(o: Outside, before: seq<Event>, after: seq<Event>, group: string, target: Target)
    requires var n := |before|;
      after == before + [ReadState(o.states(n))] || after == before + [ReadState(o.states(n)), TookSnapshot(o.snapshots(n + 1))]
    requires FirstLook(o.states(|before|), o.snapshots(|before| + 1), group, target).None?
    ensures before <= after && Confirms(o, |before|, group, target, after[|before|..], None)
  {
    LooksWarrant(o, |before|, group, target);
    ReadsInOrder(o, before, after);
  }

  lemma TwoLooks(o: Outside, before: seq<Event>, looked: seq<Event>, after: seq<Event>, group: string, target: Target,
                 first: (Expectation, Binding), confirmed: Option<Binding>)
    requires var n := |before|; looked == before + [ReadState(o.states(n)), TookSnapshot(o.snapshots(n + 1))]
    requires FirstLook(o.states(|before|), o.snapshots(|before| + 1), group, target) == Some(first)
    requires var s, h := ReadState(o.states(|looked|)), TookSnapshot(o.snapshots(|looked| + 1));
      (confirmed.None? && after == looked + [s]) || after == looked + [s, h]
    requires confirmed == SecondLook(o.states(|looked|), o.snapshots(|looked| + 1), group, target, first)
    ensures before <= after && Confirms(o, |before|, group, target, after[|before|..], confirmed)
  {
    var n := |before|;
    LooksWarrant(o, n, group, target);
    if |after| == n + 4 {
      assert after == before + FourReads(o, n);
    } else {
      assert after == before + FourReads(o, n)[..3];
    }
    ReadsInOrder(o, before, after);
  }

  lemma NothingIsSent(o: Outside, n: nat, group: string, target: Target, prompt: string, events: seq<Event>)
    requires !WarrantedAt(o, n, group, target) && events <= FourReads(o, n)
    ensures Episode(o, n, group, target, prompt, events, Rejected(target.session))
  {}

  lemma OneIsSent(o: Outside, before: seq<Event>, confirming: seq<Event>, after: seq<Event>, group: string, target: Target, prompt: string, whom: Binding)
    requires before <= confirming && confirming[|before|..] == FourReads(o, |before|)
    requires WarrantedAt(o, |before|, group, target) && whom == Whom(o, |before|, group, target)
    requires after == confirming + [Prompted(Send(target, whom.Addressee(), prompt))]
    ensures before <= after
    ensures Episode(o, |before|, group, target, prompt, after[|before|..], Report(target, whom, o.answers(|before| + 4)))
  {
    assert after[|before|..] == FourReads(o, |before|) + [Prompted(Send(target, whom.Addressee(), prompt))];
  }

  class MissionControlService {
    const outside: Outside
    var log: seq<Event>

    constructor (outside: Outside)
      ensures this.outside == outside && log == []
    {
      this.outside, log := outside, [];
    }

    method LoadState() returns (s: Option<State>)
      modifies this
      ensures s == outside.states(|old(log)|) && log == old(log) + [ReadState(s)]
    {
      s := outside.states(|log|);
      log := log + [ReadState(s)];
    }

    method TakeSnapshot() returns (snapshot: Option<Snapshot>)
      modifies this
      ensures snapshot == outside.snapshots(|old(log)|) && log == old(log) + [TookSnapshot(snapshot)]
    {
      snapshot := outside.snapshots(|log|);
      log := log + [TookSnapshot(snapshot)];
    }

    method PromptAndWait(send: Send) returns (answer: Answer)
      modifies this
      ensures answer == outside.answers(|old(log)|) && log == old(log) + [Prompted(send)]
    {
      answer := outside.answers(|log|);
      log := log + [Prompted(send)];
    }

    /** Reads the state and Herdr once. */
    method Authorize(group: string, target: Target) returns (authorized: Option<(Expectation, Binding)>)
      modifies this
      ensures var n, s, h := |old(log)|, outside.states(|old(log)|), outside.snapshots(|old(log)| + 1);
        && (log == old(log) + [ReadState(s)] || log == old(log) + [ReadState(s), TookSnapshot(h)])
        && authorized == FirstLook(s, h, group, target)
        && (authorized.Some? ==> |log| == n + 2)
    {
      authorized := None;
      var state := LoadState();
      if state.None? { return; }
      var expected := Authorized(state.value, group, target);
      if expected.None? { return; }
      var snapshot := TakeSnapshot();
      if snapshot.None? || !snapshot.value.supported { return; }
      var bound := Resolve(snapshot.value, expected.value);
      if bound.Unbound? || !bound.binding.status.IsSettled() { return; }
      authorized := Some((expected.value, bound.binding));
    }

    /** Reads both again, and accepts only the same settled occupant in the same state. */
    method Revalidate(group: string, target: Target, first: (Expectation, Binding)) returns (confirmed: Option<Binding>)
      modifies this
      ensures var n, s, h := |old(log)|, outside.states(|old(log)|), outside.snapshots(|old(log)| + 1);
        && (log == old(log) + [ReadState(s)] || log == old(log) + [ReadState(s), TookSnapshot(h)])
        && confirmed == SecondLook(s, h, group, target, first)
        && (confirmed.Some? ==> |log| == n + 2)
    {
      confirmed := None;
      var state := LoadState();
      if state.None? { return; }
      var expected := Authorized(state.value, group, target);
      if expected.None? || expected.value != first.0 { return; }
      var snapshot := TakeSnapshot();
      if snapshot.None? { return; }
      var bound := Resolve(snapshot.value, expected.value);
      if bound.Unbound? { return; }
      var binding := bound.binding;
      if !binding.SameOccupant(first.1) { return; }
      if binding.stateChangeSeq != first.1.stateChangeSeq { return; }
      if !binding.status.IsSettled() { return; }
      confirmed := Some(binding);
    }

    /** One destination: everything is read twice, and every refusal comes before anything is
        sent. */
    method DeliverOne(group: string, target: Target, prompt: string) returns (delivery: Delivery)
      modifies this
      ensures old(log) <= log && Episode(outside, |old(log)|, group, target, prompt, log[|old(log)|..], delivery)
    {
      ghost var before := log;
      var confirmed := Confirm(group, target);
      if confirmed.None? {
        NothingIsSent(outside, |before|, group, target, prompt, log[|before|..]);
        return Rejected(target.session);
      }
      ghost var confirming := log;
      delivery := SendPrompt(target, confirmed.value, prompt);
      OneIsSent(outside, before, confirming, log, group, target, prompt, confirmed.value);
    }

    /** Authorizes, and then revalidates what was authorized. */
    method Confirm(group: string, target: Target) returns (confirmed: Option<Binding>)
      modifies this
      ensures old(log) <= log && Confirms(outside, |old(log)|, group, target, log[|old(log)|..], confirmed)
    {
      ghost var before := log;
      var first := Authorize(group, target);
      if first.None? {
        OneLook(outside, before, log, group, target);
        return None;
      }
      ghost var looked := log;
      confirmed := Revalidate(group, target, first.value);
      TwoLooks(outside, before, looked, log, group, target, first.value, confirmed);
    }

    method SendPrompt(target: Target, binding: Binding, prompt: string) returns (delivery: Delivery)
      modifies this
      ensures log == old(log) + [Prompted(Send(target, binding.Addressee(), prompt))]
      ensures delivery == Report(target, binding, outside.answers(|old(log)|))
    {
      var answer := PromptAndWait(Send(target, binding.Addressee(), prompt));
      match answer
      case Answered(terminal, kind, status) =>
        delivery := if terminal == binding.terminal && kind == Some(binding.kind) then Delivered(target.session, status) else Uncertain(target.session);
      case DeliveryUncertain => delivery := Uncertain(target.session);
      case DeliveryStalled => delivery := Stalled(target.session);
      case DeliveryRejected => delivery := Rejected(target.session);
    }

    method RejectAll(targets: seq<Target>) returns (deliveries: seq<Delivery>)
      ensures |deliveries| == |targets| && forall i | 0 <= i < |targets| :: deliveries[i] == Rejected(targets[i].session)
    {
      deliveries := [];
      for i := 0 to |targets|
        invariant |deliveries| == i && forall k | 0 <= k < i :: deliveries[k] == Rejected(targets[k].session)
      {
        deliveries := deliveries + [Rejected(targets[i].session)];
      }
    }

    /** All destinations of one reviewed request, each in its own episode; a destination named
        again is rejected, and a request that was not reviewed, or names too many, does
        nothing at all. */
    method DeliverReviewedPrompt(group: string, targets: seq<Target>, prompt: string, reviewed: bool) returns (deliveries: seq<Delivery>)
      modifies this
      ensures |deliveries| == |targets| && old(log) <= log
      ensures reviewed && |targets| <= MAX_PROMPT_TARGETS ==>
        exists moments :: Episodes(outside, group, targets, prompt, deliveries, log, moments) && moments[0] == |old(log)| && moments[|targets|] == |log|
      ensures !reviewed || |targets| > MAX_PROMPT_TARGETS ==> log == old(log) && forall i | 0 <= i < |targets| :: deliveries[i] == Rejected(targets[i].session)
    {
      if !reviewed || |targets| > MAX_PROMPT_TARGETS {
        deliveries := RejectAll(targets);
        return;
      }
      deliveries := [];
      var seen: set<Target> := {};
      ghost var moments: seq<nat> := [|log|];
      for i := 0 to |targets|
        invariant |deliveries| == i && old(log) <= log && |moments| == i + 1 && moments[0] == |old(log)| && moments[i] == |log|
        invariant forall t :: t in seen <==> t in targets[..i]
        invariant Episodes(outside, group, targets[..i], prompt, deliveries, log, moments)
      {
        var target := targets[i];
        var delivery := Rejected(target.session);
        ghost var was := log;
        if target !in seen {
          seen := seen + {target};
          delivery := Deliver(group, target, prompt);
        }
        EpisodesGrow(outside, group, targets[..i], target, prompt, deliveries, delivery, was, log, moments);
        assert targets[..i + 1] == targets[..i] + [target];
        deliveries, moments := deliveries + [delivery], moments + [|log|];
      }
      assert targets[..|targets|] == targets;
    }

    /** One delivery in its own thread; a thread that panics leaves its destination uncertain. */
    method Deliver(group: string, target: Target, prompt: string) returns (delivery: Delivery)
      modifies this
      ensures old(log) <= log && InThread(outside, |old(log)|, group, target, prompt, log[|old(log)|..], delivery)
    {
      delivery := DeliverOne(group, target, prompt);
      assert Episode(outside, |old(log)|, group, target, prompt, log[|old(log)|..], delivery);
      if outside.panics(|log|) { delivery := Uncertain(target.session); }
    }
  }

  /** An episode whose thread may have panicked at its end. */
  ghost predicate InThread(o: Outside, n: nat, group: string, target: Target, prompt: string, events: seq<Event>, delivery: Delivery) {
    if o.panics(n + |events|) then
      delivery == Uncertain(target.session) && exists reported :: Episode(o, n, group, target, prompt, events, reported)
    else Episode(o, n, group, target, prompt, events, delivery)
  }

  /** One destination of a request, between two moments of the log. */
  ghost predicate EpisodeOf(o: Outside, group: string, targets: seq<Target>, prompt: string, deliveries: seq<Delivery>, log: seq<Event>, moments: seq<nat>, i: nat)
    requires i < |targets| == |deliveries| && |moments| == |targets| + 1
  {
    && moments[i] <= moments[i + 1] <= |log|
    && if targets[i] in targets[..i] then moments[i + 1] == moments[i] && deliveries[i] == Rejected(targets[i].session)
       else InThread(o, moments[i], group, targets[i], prompt, log[moments[i]..moments[i + 1]], deliveries[i])
  }

  ghost predicate Episodes(o: Outside, group: string, targets: seq<Target>, prompt: string, deliveries: seq<Delivery>, log: seq<Event>, moments: seq<nat>) {
    && |targets| == |deliveries| && |moments| == |targets| + 1
    && forall i: nat | i < |targets| :: EpisodeOf(o, group, targets, prompt, deliveries, log, moments, i)
  }

  lemma {:induction false} EpisodesGrow(o: Outside, group: string, targets: seq<Target>, target: Target, prompt: string,
                                        deliveries: seq<Delivery>, delivery: Delivery, was: seq<Event>, log: seq<Event>, moments: seq<nat>)
    requires Episodes(o, group, targets, prompt, deliveries, was, moments) && was <= log && moments[|targets|] == |was|
    requires if target in targets then log == was && delivery == Rejected(target.session)
             else InThread(o, |was|, group, target, prompt, log[|was|..], delivery)
    ensures Episodes(o, group, targets + [target], prompt, deliveries + [delivery], log, moments + [|log|])
  {
    var all, reports, times := targets + [target], deliveries + [delivery], moments + [|log|];
    forall i: nat | i < |all| ensures EpisodeOf(o, group, all, prompt, reports, log, times, i) {
      if i < |targets| {
        EpisodeStays(o, group, targets, target, prompt, deliveries, delivery, was, log, moments, i);
      } else {
        assert all[..i] == targets && log[|was|..|log|] == log[|was|..];
      }
    }
  }

  lemma {:induction false} EpisodeStays(o: Outside, group: string, targets: seq<Target>, target: Target, prompt: string,
                                        deliveries: seq<Delivery>, delivery: Delivery, was: seq<Event>, log: seq<Event>, moments: seq<nat>, i: nat)
    requires Episodes(o, group, targets, prompt, deliveries, was, moments) && was <= log && i < |targets|
    ensures EpisodeOf(o, group, targets + [target], prompt, deliveries + [delivery], log, moments + [|log|], i)
  {
    assert EpisodeOf(o, group, targets, prompt, deliveries, was, moments, i);
    assert (targets + [target])[..i] == targets[..i] && log[moments[i]..moments[i + 1]] == was[moments[i]..moments[i + 1]];
  }

  // ---------- What a request has sent ----------

  /** The k-th event is a prompt to one of the destinations, with four reads right before it
      that warrant it, addressed to the agent that the last of them found. */
  ghost predicate JustifiedSend(o: Outside, group: string, prompt: string, log: seq<Event>, k: nat)
    requires k < |log| && log[k].Prompted?
  {
    && k >= 4 && WarrantedAt(o, k - 4, group, log[k].send.destination) && log[k - 4..k] == FourReads(o, k - 4)
    && log[k].send == Send(log[k].send.destination, Whom(o, k - 4, group, log[k].send.destination).Addressee(), prompt)
  }

  lemma {:induction false} EpisodeSends(o: Outside, group: string, target: Target, prompt: string, log: seq<Event>, n: nat, end: nat, delivery: Delivery, k: nat)
    requires n <= k < end <= |log| && InThread(o, n, group, target, prompt, log[n..end], delivery) && log[k].Prompted?
    ensures k == n + 4 && log[k].send.destination == target && JustifiedSend(o, group, prompt, log, k)
  {
    var reported :| Episode(o, n, group, target, prompt, log[n..end], reported);
    assert log[n..end][k - n] == log[k];
    assert FourReads(o, n) == log[n..end][..4] == log[n..n + 4];
  }

  lemma {:induction false} EpisodeAt(o: Outside, group: string, targets: seq<Target>, prompt: string, deliveries: seq<Delivery>,
                                     log: seq<Event>, moments: seq<nat>, k: nat, upto: nat) returns (i: nat)
    requires Episodes(o, group, targets, prompt, deliveries, log, moments) && upto <= |targets|
    requires moments[0] <= k < moments[upto]
    ensures i < upto && moments[i] <= k < moments[i + 1] && EpisodeOf(o, group, targets, prompt, deliveries, log, moments, i)
    ensures targets[i] !in targets[..i]
    decreases upto
  {
    i := upto - 1;
    assert EpisodeOf(o, group, targets, prompt, deliveries, log, moments, i);
    if k < moments[i] {
      i := EpisodeAt(o, group, targets, prompt, deliveries, log, moments, k, upto - 1);
    }
  }

  /** Whatever the world answers, a request sends only justified prompts to its own
      destinations, and at most one to each. */
  lemma {:induction false} EveryPromptIsJustifiedAndSingle(o: Outside, group: string, targets: seq<Target>, prompt: string, deliveries: seq<Delivery>,
                                                           log: seq<Event>, moments: seq<nat>, k: nat, l: nat)
    requires Episodes(o, group, targets, prompt, deliveries, log, moments) && moments[|targets|] == |log|
    requires moments[0] <= k <= l < |log| && log[k].Prompted? && log[l].Prompted?
    ensures log[k].send.destination in targets && JustifiedSend(o, group, prompt, log, k)
    ensures log[k].send.destination == log[l].send.destination ==> k == l
  {
    var i := EpisodeAt(o, group, targets, prompt, deliveries, log, moments, k, |targets|);
    var j := EpisodeAt(o, group, targets, prompt, deliveries, log, moments, l, |targets|);
    EpisodeSends(o, group, targets[i], prompt, log, moments[i], moments[i + 1], deliveries[i], k);
    EpisodeSends(o, group, targets[j], prompt, log, moments[j], moments[j + 1], deliveries[j], l);
    if i < j { assert targets[..j][i] == targets[i]; }
    if j < i { assert targets[..i][j] == targets[j]; }
  }
}
