/** The observer's state (src/observer.rs): refreshes replace the workers and keep what is known
    about the ones that stay, captures and actions come in between, and failures are news. */
module Observer {
  import opened Common

  const WORKERS_PER_PAGE: nat := 4
  const MAX_WORKERS: nat := 64
  const MAX_PROMPT_TARGETS: nat := 8

  type WorkerId = string
  type Incarnation = nat

  datatype Lifecycle = Starting | Running | Stopping | Ended | Failing(exitStatus: int) | Missing | Removed | Unknown

  datatype AgentState = Detached | Idle | Working | Blocked | Done | Unclear | Unreachable | Stale

  datatype StaleReason = EarlierMembership | AmbiguousClaim | ReplacedOccupant | Connection | Retained

  datatype Capabilities = Capabilities(observeOutput: bool, openInteractive: bool, promptAgent: bool)

  datatype Worker = Worker(
    id: WorkerId, lifecycle: Lifecycle, agent: AgentState, liveAgent: bool, owned: bool, capabilities: Capabilities,
    lastObserved: Option<string>, latencyMs: Option<nat>, incarnation: Option<Incarnation>,
    capture: Option<string>, sampled: bool, staleReason: Option<StaleReason>)
  {
    predicate Reachable() { owned && lifecycle.Running? && !agent.Unreachable? && !agent.Stale? }
    predicate CanOpen() { Reachable() && capabilities.openInteractive }
    predicate CanFocus() { Reachable() && liveAgent && capabilities.openInteractive }
    predicate CanObserveAgent() { Reachable() && liveAgent && capabilities.observeOutput }
    predicate CanPrompt() { owned && lifecycle.Running? && liveAgent && (agent.Idle? || agent.Done?) && capabilities.promptAgent }
  }

  datatype CaptureStatus = Loading | Ready | Truncated | Unavailable | StaleCapture

  datatype Capture = NotYet | All(text: string) | Cut(text: string) | Preview(text: string, truncated: bool) | Gone

  datatype Reason = AgentNews(agent: AgentState) | Failure(exitStatus: int)

  datatype Attention = Attention(worker: WorkerId, incarnation: Option<Incarnation>, reason: Reason)

  datatype Action =
    | PreviousWorker | NextWorker | PreviousPage | NextPage | AskRefresh | OpenSelected | TogglePromptTarget
    | ComposePrompt | FocusSelected | WaitSelected | ReadSelected | ExplainSelected | Quit

  datatype Outcome =
    | Nothing | Refresh | Open(worker: WorkerId) | OpenUnavailable(worker: WorkerId) | Compose(workers: seq<WorkerId>)
    | Focus(worker: WorkerId) | Wait(worker: WorkerId) | ReadOutput(worker: WorkerId) | Explain(worker: WorkerId) | Leave

  function Find(workers: seq<Worker>, id: WorkerId): (at: nat)
    ensures at <= |workers| && (at < |workers| ==> workers[at].id == id)
    ensures forall i | 0 <= i < at :: workers[i].id != id
  {
    if workers == [] || workers[0].id == id then 0 else 1 + Find(workers[1..], id)
  }

  predicate Known(workers: seq<Worker>, id: WorkerId) { Find(workers, id) < |workers| }

  function Lookup(workers: seq<Worker>, id: WorkerId): Option<Worker> {
    if Known(workers, id) then Some(workers[Find(workers, id)]) else None
  }

  predicate Unique(workers: seq<Worker>) {
    forall i, j | 0 <= i < j < |workers| :: workers[i].id != workers[j].id
  }

  lemma FoundAt(workers: seq<Worker>, i: nat)
    requires i < |workers|
    ensures Known(workers, workers[i].id) && (Unique(workers) ==> Find(workers, workers[i].id) == i)
  {}

  /** The first worker of each id, and no more than the observer holds. */
  function Admitted(incoming: seq<Worker>): (kept: seq<Worker>)
    ensures |kept| <= MAX_WORKERS && Unique(kept)
  {
    if incoming == [] then [] else
    var kept, last := Admitted(incoming[..|incoming| - 1]), incoming[|incoming| - 1];
    if |kept| == MAX_WORKERS || Known(kept, last.id) then kept else kept + [last]
  }

  /** What a refreshed worker without a capture keeps of what was known about it. */
  function Remembering(w: Worker, previous: Worker, retains: bool): (kept: Worker)
    ensures kept.id == w.id && kept.lifecycle == w.lifecycle && kept.incarnation == w.incarnation
  {
    var shown := if retains then w.(capture := previous.capture, sampled := previous.sampled) else w;
    shown.(lastObserved := w.lastObserved.Or(previous.lastObserved), latencyMs := w.latencyMs.Or(previous.latencyMs))
  }

  /** A live agent that can no longer be reached, or a retained capture without one, is stale;
      a reachable agent ends a staleness. */
  function Settled(w: Worker, wasLive: bool, status: CaptureStatus): (settled: (Worker, CaptureStatus))
    ensures settled.0.id == w.id && settled.0.lifecycle == w.lifecycle && settled.0.incarnation == w.incarnation
  {
    var lost := wasLive && w.agent.Unreachable?;
    if lost || (w.capture.Some? && (w.agent.Unreachable? || w.agent.Stale?)) then
      var reason := if w.agent.Unreachable? then Some(if lost then Connection else Retained) else w.staleReason;
      (w.(liveAgent := w.liveAgent || lost, staleReason := reason, agent := Stale), StaleCapture)
    else if (w.agent.Idle? || w.agent.Working? || w.agent.Blocked? || w.agent.Done?) && status.StaleCapture? then
      (w, if w.capture.Some? then Ready else Loading)
    else (w, status)
  }

  /** What a refresh makes of one worker. */
  function Carried(w: Worker, previous: Option<Worker>, was: Option<CaptureStatus>, sanitize: string -> string): (kept: (Worker, CaptureStatus))
    ensures kept.0.id == w.id && kept.0.lifecycle == w.lifecycle && kept.0.incarnation == w.incarnation
  {
    if w.capture.Some? then (w.(capture := Some(sanitize(w.capture.value))), Ready)
    else
      var status := was.GetOr(Loading);
      var retains := status.Ready? || status.StaleCapture?;
      Settled(if previous.Some? then Remembering(w, previous.value, retains) else w, previous.Some? && previous.value.liveAgent, status)
  }

  // ---------- What is news ----------

  /** A live agent that has just come to wait on a person. */
  predicate AgentIsNews(w: Worker, before: seq<Worker>) {
    && w.liveAgent && (w.agent.Blocked? || w.agent.Done?)
    && (Lookup(before, w.id).Some? ==> Lookup(before, w.id).value.agent != w.agent)
  }

  /** A failing end of a worker that was already there, and was not this failure yet. */
  predicate FailureIsNews(w: Worker, before: seq<Worker>) {
    && w.lifecycle.Failing? && Lookup(before, w.id).Some?
    && (!Lookup(before, w.id).value.lifecycle.Failing? || Lookup(before, w.id).value.incarnation != w.incarnation)
  }

  function AgentAttention(w: Worker): Attention { Attention(w.id, w.incarnation, AgentNews(w.agent)) }

  function FailureAttention(w: Worker): Attention
  {
    Attention(w.id, w.incarnation, Failure(if w.lifecycle.Failing? then w.lifecycle.exitStatus else 0))
  }

  function News(workers: seq<Worker>, before: seq<Worker>): seq<Attention> {
    Map(Filter(workers, (w: Worker) => AgentIsNews(w, before)), AgentAttention) +
    Map(Filter(workers, (w: Worker) => FailureIsNews(w, before)), FailureAttention)
  }

  /** The statuses before a refresh, as the carrying-over reads them. */
  function Was(statuses: map<WorkerId, CaptureStatus>, id: WorkerId): Option<CaptureStatus> {
    if id in statuses then Some(statuses[id]) else None
  }

  /** Each worker with its status is what `carry` makes of the admitted one, in order. */
  ghost predicate CarriedBy(carried: seq<Worker>, status: map<WorkerId, CaptureStatus>, admitted: seq<Worker>, carry: Worker -> (Worker, CaptureStatus)) {
    && |carried| == |admitted|
    && (forall i | 0 <= i < |carried| :: carried[i].id in status && carry(admitted[i]) == (carried[i], status[carried[i].id]))
  }

  method Admit(incoming: seq<Worker>) returns (admitted: seq<Worker>)
    ensures admitted == Admitted(incoming)
  {
    var seen: set<WorkerId> := {};
    admitted := [];
    for i := 0 to |incoming|
      invariant admitted == Admitted(incoming[..i])
      invariant |admitted| < MAX_WORKERS ==> forall id :: id in seen <==> Known(admitted, id)
    {
      assert incoming[..i + 1][..i] == incoming[..i];
      var w := incoming[i];
      if |admitted| < MAX_WORKERS && w.id !in seen {
        KnownGrows(admitted, w);
        seen := seen + {w.id};
        admitted := admitted + [w];
      }
    }
    assert incoming[..|incoming|] == incoming;
  }

  lemma {:induction false} KnownGrows(workers: seq<Worker>, w: Worker)
    ensures forall id :: Known(workers + [w], id) <==> Known(workers, id) || id == w.id
  {
    var longer := workers + [w];
    forall id ensures Known(longer, id) <==> Known(workers, id) || id == w.id {
      if Known(workers, id) {
        assert longer[Find(workers, id)].id == id;
      }
      assert longer[|workers|].id == w.id;
      if Known(longer, id) && Find(longer, id) < |workers| {
        assert workers[Find(longer, id)].id == id;
      }
    }
  }

  function Carry(previous: seq<Worker>, previousStatuses: map<WorkerId, CaptureStatus>, sanitize: string -> string): Worker -> (Worker, CaptureStatus) {
    (w: Worker) => Carried(w, Lookup(previous, w.id), Was(previousStatuses, w.id), sanitize)
  }

  method CarryOver(admitted: seq<Worker>, carry: Worker -> (Worker, CaptureStatus)) returns (carried: seq<Worker>, status: map<WorkerId, CaptureStatus>)
    requires Unique(admitted) && forall w :: carry(w).0.id == w.id
    ensures CarriedBy(carried, status, admitted, carry)
    ensures Unique(carried) && forall id :: id in status <==> Known(carried, id)
  {
    carried, status := [], map[];
    for k := 0 to |admitted|
      invariant CarriedBy(carried, status, admitted[..k], carry)
      invariant Unique(carried) && forall id :: id in status <==> Known(carried, id)
    {
      var (worker, now) := carry(admitted[k]);
      CarryOne(carried, status, admitted, k, carry);
      KnownGrows(carried, worker);
      carried := carried + [worker];
      status := status[worker.id := now];
    }
    assert admitted[..|admitted|] == admitted;
  }

  lemma {:induction false} CarryOne(carried: seq<Worker>, status: map<WorkerId, CaptureStatus>, admitted: seq<Worker>, k: nat, carry: Worker -> (Worker, CaptureStatus))
    requires k < |admitted| && Unique(admitted) && CarriedBy(carried, status, admitted[..k], carry) && forall w :: carry(w).0.id == w.id
    ensures var (worker, now) := carry(admitted[k]);
      CarriedBy(carried + [worker], status[worker.id := now], admitted[..k + 1], carry) && Unique(carried + [worker])
  {
    var (worker, now) := carry(admitted[k]);
    assert worker.id == admitted[k].id;
    forall i | 0 <= i < k ensures carried[i].id == admitted[i].id {
      assert carry(admitted[..k][i]).0.id == admitted[i].id;
    }
  }

  method ReportAgents(current: seq<Worker>, previous: seq<Worker>) returns (agents: seq<Attention>)
    ensures agents == Map(Filter(current, (w: Worker) => AgentIsNews(w, previous)), AgentAttention)
  {
    agents := [];
    for i := 0 to |current|
      invariant agents == Map(Filter(current[..i], (w: Worker) => AgentIsNews(w, previous)), AgentAttention)
    {
      FilterGrows(current, i, (w: Worker) => AgentIsNews(w, previous));
      if AgentIsNews(current[i], previous) { agents := agents + [AgentAttention(current[i])]; }
    }
    assert current[..|current|] == current;
  }

  method ReportFailures(current: seq<Worker>, previous: seq<Worker>) returns (failures: seq<Attention>)
    ensures failures == Map(Filter(current, (w: Worker) => FailureIsNews(w, previous)), FailureAttention)
  {
    failures := [];
    for i := 0 to |current|
      invariant failures == Map(Filter(current[..i], (w: Worker) => FailureIsNews(w, previous)), FailureAttention)
    {
      FilterGrows(current, i, (w: Worker) => FailureIsNews(w, previous));
      if FailureIsNews(current[i], previous) { failures := failures + [FailureAttention(current[i])]; }
    }
    assert current[..|current|] == current;
  }

  /** The prompt targets a refresh keeps: those whose worker can still be prompted. */
  function StillPromptable(targets: set<WorkerId>, workers: seq<Worker>): set<WorkerId> {
    set id | id in targets && Lookup(workers, id).Some? && Lookup(workers, id).value.CanPrompt()
  }

  lemma {:induction false} SubsetIsSmaller(a: set<WorkerId>, b: set<WorkerId>)
    requires a <= b
    ensures |a| <= |b|
  {
    assert b == a + (b - a);
  }

  function Merged(w: Worker, capture: Capture, sanitize: string -> string): (Worker, CaptureStatus) {
    match capture
    case NotYet => (w.(capture := None, sampled := false), Loading)
    case All(text) => (w.(capture := Some(sanitize(text)), sampled := false), Ready)
    case Cut(text) => (w.(capture := Some(sanitize(text)), sampled := false), Truncated)
    case Preview(text, truncated) => (w.(capture := Some(sanitize(text)), sampled := true), if truncated then Truncated else Ready)
    case Gone =>
      if w.capture.Some? && w.lastObserved.Some? then (w.(agent := Stale, staleReason := Some(Retained)), StaleCapture)
      else (w.(capture := None, agent := if w.capabilities.promptAgent then Unreachable else w.agent), Unavailable)
  }

  method MergeInto(w: Worker, capture: Capture, sanitize: string -> string) returns (worker: Worker, status: CaptureStatus)
    ensures (worker, status) == Merged(w, capture, sanitize)
  {
    worker := w;
    match capture {
    case NotYet =>
      worker := worker.(capture := None, sampled := false);
      status := Loading;
    case All(text) =>
      worker := worker.(capture := Some(sanitize(text)), sampled := false);
      status := Ready;
    case Cut(text) =>
      worker := worker.(capture := Some(sanitize(text)), sampled := false);
      status := Truncated;
    case Preview(text, truncated) =>
      worker := worker.(capture := Some(sanitize(text)), sampled := true);
      status := if truncated then Truncated else Ready;
    case Gone =>
      if worker.capture.Some? && worker.lastObserved.Some? {
        worker := worker.(agent := Stale, staleReason := Some(Retained));
        status := StaleCapture;
      } else {
        worker := worker.(capture := None);
        if worker.capabilities.promptAgent { worker := worker.(agent := Unreachable); }
        status := Unavailable;
      }
    }
  }

  /** The prompt targets, in the order of the workers. */
  method TargetIds(workers: seq<Worker>, targets: set<WorkerId>) returns (ids: seq<WorkerId>)
    requires Unique(workers) && forall id | id in targets :: Known(workers, id)
    ensures Distinct(ids) && forall id :: id in ids <==> id in targets
  {
    ids := [];
    for i := 0 to |workers|
      invariant forall id :: id in ids <==> id in targets && Find(workers, id) < i
      invariant Distinct(ids)
    {
      FoundAt(workers, i);
      if workers[i].id in targets { ids := ids + [workers[i].id]; }
    }
  }

  /** Changing one worker, but not its id, changes nothing about who is known where. */
  lemma {:induction false} ReplacingKeepsIds(workers: seq<Worker>, at: nat, w: Worker)
    requires at < |workers| && w.id == workers[at].id && Unique(workers)
    ensures Unique(workers[at := w]) && forall id :: Find(workers[at := w], id) == Find(workers, id)
  {
    var after := workers[at := w];
    forall id ensures Find(after, id) == Find(workers, id) {
      var i, j := Find(workers, id), Find(after, id);
      if i < |workers| { assert after[i].id == id; }
      if j < |after| { assert workers[j].id == id; }
    }
  }

  // ---------- Moves ----------

  /** What an observer shows, and what is known about its captures. */
  datatype View = View(workers: seq<Worker>, statuses: map<WorkerId, CaptureStatus>)

  datatype Move =
    | Refreshing(incoming: seq<Worker>)
    | Measuring(id: WorkerId, latencyMs: nat, observed: Option<string>)
    | Merging(id: WorkerId, capture: Capture)
    | Acting(action: Action)

  function Measured(w: Worker, latencyMs: nat, observed: Option<string>): Worker {
    w.(latencyMs := Some(latencyMs), lastObserved := if observed.Some? then observed else w.lastObserved)
  }

  /** What a move makes of a view, and the attention it asks for. */
  ghost predicate Moves(v: View, move: Move, after: View, attention: seq<Attention>, sanitize: string -> string) {
    match move
    case Refreshing(incoming) =>
      CarriedBy(after.workers, after.statuses, Admitted(incoming), Carry(v.workers, v.statuses, sanitize)) && attention == News(after.workers, v.workers)
    case Measuring(id, latencyMs, observed) =>
      var at := Find(v.workers, id);
      && attention == []
      && after == if at == |v.workers| then v else v.(workers := v.workers[at := Measured(v.workers[at], latencyMs, observed)])
    case Merging(id, capture) =>
      var at := Find(v.workers, id);
      && attention == []
      && after == if at == |v.workers| then v else
           var (w, status) := Merged(v.workers[at], capture, sanitize);
           View(v.workers[at := w], v.statuses[id := status])
    case Acting(_) => after == v && attention == []
  }

  /** Ids are unique and few; statuses cover exactly the workers; the selection names a worker
      whenever there is one; and prompt targets are workers, and few. */
  ghost predicate Sound(workers: seq<Worker>, statuses: map<WorkerId, CaptureStatus>, selected: Option<WorkerId>, targets: set<WorkerId>) {
    && |workers| <= MAX_WORKERS && Unique(workers)
    && (forall id :: id in statuses <==> Known(workers, id))
    && (selected.None? <==> workers == [])
    && (selected.Some? ==> Known(workers, selected.value))
    && (forall id | id in targets :: Known(workers, id)) && |targets| <= MAX_PROMPT_TARGETS
  }

  function PositionOf(workers: seq<Worker>, selected: Option<WorkerId>): Option<nat> {
    if selected.None? || !Known(workers, selected.value) then None else Some(Find(workers, selected.value))
  }

  /** The page that is shown. */
  function Visible(workers: seq<Worker>, selected: Option<WorkerId>): seq<Worker> {
    var start := PositionOf(workers, selected).GetOr(0) / WORKERS_PER_PAGE * WORKERS_PER_PAGE;
    if start + WORKERS_PER_PAGE < |workers| then workers[start..start + WORKERS_PER_PAGE]
    else if start < |workers| then workers[start..] else []
  }

  /** The page that is shown is never too long, and always holds the selected worker. */
  lemma SelectionIsVisible(workers: seq<Worker>, statuses: map<WorkerId, CaptureStatus>, selected: Option<WorkerId>, targets: set<WorkerId>)
    requires Sound(workers, statuses, selected, targets)
    ensures |Visible(workers, selected)| <= WORKERS_PER_PAGE
    ensures selected.Some? ==> Known(Visible(workers, selected), selected.value)
  {
    if selected.Some? {
      var at := Find(workers, selected.value);
      var start := at / WORKERS_PER_PAGE * WORKERS_PER_PAGE;
      var visible := Visible(workers, selected);
      assert visible[at - start] == workers[at];
      FoundAt(visible, at - start);
    }
  }

  class ObserverState {
    const sanitize: string -> string
    var workers: seq<Worker>
    var statuses: map<WorkerId, CaptureStatus>
    var selectedId: Option<WorkerId>
    var promptTargets: set<WorkerId>

    ghost predicate Valid()
      reads this
    {
      Sound(workers, statuses, selectedId, promptTargets)
    }

    ghost function Now(): View
      reads this
    {
      View(workers, statuses)
    }

    constructor (sanitize: string -> string)
      ensures Valid() && Now() == View([], map[]) && workers == [] && this.sanitize == sanitize
    {
      this.sanitize := sanitize;
      workers, statuses, selectedId, promptTargets := [], map[], None, {};
    }

    // ---------- Refreshing ----------

    /** Replaces the workers, carries over what stays true, and reports what is news. */
    method UpdateWorkers(incoming: seq<Worker>) returns (attention: seq<Attention>)
      requires Valid()
      modifies this
      ensures Valid()
      ensures Moves(old(Now()), Refreshing(incoming), Now(), attention, sanitize)
      ensures promptTargets == StillPromptable(old(promptTargets), workers)
      ensures old(selectedId).Some? && Known(workers, old(selectedId).value) ==> selectedId == old(selectedId)
    {
      var previousIndex := PositionOf(workers, selectedId).GetOr(0);
      var previous, previousStatuses := workers, statuses;
      var admitted := Admit(incoming);
      workers, statuses := CarryOver(admitted, Carry(previous, previousStatuses, sanitize));
      var agents := ReportAgents(workers, previous);
      var failures := ReportFailures(workers, previous);
      attention := agents + failures;
      SubsetIsSmaller(StillPromptable(promptTargets, workers), promptTargets);
      promptTargets := StillPromptable(promptTargets, workers);
      if workers == [] {
        selectedId := None;
        promptTargets := {};
      } else if selectedId.None? || !Known(workers, selectedId.value) {
        var index := if previousIndex < |workers| - 1 then previousIndex else |workers| - 1;
        FoundAt(workers, index);
        selectedId := Some(workers[index].id);
      }
    }

    // ---------- One worker at a time ----------

    method SetConnectionObservation(id: WorkerId, latencyMs: nat, observed: Option<string>) returns (known: bool)
      requires Valid()
      modifies this`workers
      ensures Valid() && known == Known(old(workers), id)
      ensures Moves(old(Now()), Measuring(id, latencyMs, observed), Now(), [], sanitize)
    {
      var at := Find(workers, id);
      if at == |workers| { return false; }
      var worker := workers[at].(latencyMs := Some(latencyMs));
      if observed.Some? { worker := worker.(lastObserved := observed); }
      ReplacingKeepsIds(workers, at, worker);
      workers := workers[at := worker];
      return true;
    }

    /** Merges one capture. A lost one leaves a retained capture standing, but stale. */
    method MergeCapture(id: WorkerId, capture: Capture) returns (known: bool)
      requires Valid()
      modifies this`workers, this`statuses
      ensures Valid() && known == Known(old(workers), id)
      ensures Moves(old(Now()), Merging(id, capture), Now(), [], sanitize)
    {
      var at := Find(workers, id);
      if at == |workers| { return false; }
      var worker, status := MergeInto(workers[at], capture, sanitize);
      ReplacingKeepsIds(workers, at, worker);
      workers := workers[at := worker];
      statuses := statuses[id := status];
      return true;
    }

    // ---------- Selection and actions ----------

    method SelectOffset(down: bool)
      requires Valid()
      modifies this`selectedId
      ensures Valid()
      ensures workers != [] ==>
        var at := Find(workers, old(selectedId).value);
        PositionOf(workers, selectedId) == Some(if down then (if at + 1 < |workers| then at + 1 else at) else if at > 0 then at - 1 else 0)
    {
      if workers == [] { return; }
      var current := PositionOf(workers, selectedId).GetOr(0);
      var next := if down then (if current + 1 < |workers| then current + 1 else current) else if current > 0 then current - 1 else 0;
      FoundAt(workers, next);
      selectedId := Some(workers[next].id);
    }

    /** Moves to the first worker of the page before or after, where there is one. */
    method SelectPageOffset(down: bool)
      requires Valid()
      modifies this`selectedId
      ensures Valid()
      ensures workers != [] ==>
        var page := Find(workers, old(selectedId).value) / WORKERS_PER_PAGE;
        var next := if down then (if (page + 1) * WORKERS_PER_PAGE < |workers| then page + 1 else page) else if page > 0 then page - 1 else 0;
        PositionOf(workers, selectedId) == Some(next * WORKERS_PER_PAGE)
    {
      if workers == [] { return; }
      var page := PositionOf(workers, selectedId).GetOr(0) / WORKERS_PER_PAGE;
      var pages := (|workers| + WORKERS_PER_PAGE - 1) / WORKERS_PER_PAGE;
      var next := if !down then (if page > 0 then page - 1 else 0) else if page + 1 < pages then page + 1 else pages - 1;
      var index := if next * WORKERS_PER_PAGE < |workers| then next * WORKERS_PER_PAGE else |workers| - 1;
      FoundAt(workers, index);
      selectedId := Some(workers[index].id);
    }

    method TogglePromptTarget()
      requires Valid()
      modifies this`promptTargets
      ensures Valid()
      ensures promptTargets == (
        if workers == [] then old(promptTargets) else
        var w := workers[Find(workers, selectedId.value)];
        if w.id in old(promptTargets) then old(promptTargets) - {w.id}
        else if w.CanPrompt() && |old(promptTargets)| < MAX_PROMPT_TARGETS then old(promptTargets) + {w.id}
        else old(promptTargets))
    {
      var at := PositionOf(workers, selectedId);
      if at.None? { return; }
      var worker := workers[at.value];
      if worker.id in promptTargets {
        SubsetIsSmaller(promptTargets - {worker.id}, promptTargets);
        promptTargets := promptTargets - {worker.id};
      } else if worker.CanPrompt() && |promptTargets| < MAX_PROMPT_TARGETS {
        promptTargets := promptTargets + {worker.id};
      }
    }

    /** What an action asks the caller to do names workers that allow it now: the selected one,
        or for a prompt exactly the targets. */
    method Apply(action: Action) returns (outcome: Outcome)
      requires Valid()
      modifies this`selectedId, this`promptTargets
      ensures Valid() && Moves(old(Now()), Acting(action), Now(), [], sanitize)
      ensures outcome.Compose? ==> outcome.workers != [] && |outcome.workers| <= MAX_PROMPT_TARGETS && forall id :: id in outcome.workers <==> id in promptTargets
      ensures outcome.Open? || outcome.Focus? || outcome.Wait? || outcome.ReadOutput? || outcome.Explain? ==>
        && selectedId == Some(outcome.worker) && Known(workers, outcome.worker)
        && var w := workers[Find(workers, outcome.worker)];
           if outcome.Open? then w.CanOpen() else if outcome.Focus? then w.CanFocus() else w.CanObserveAgent()
    {
      var at := PositionOf(workers, selectedId);
      outcome := Nothing;
      match action {
      case PreviousWorker => SelectOffset(false);
      case NextWorker => SelectOffset(true);
      case PreviousPage => SelectPageOffset(false);
      case NextPage => SelectPageOffset(true);
      case AskRefresh => outcome := Refresh;
      case OpenSelected =>
        if at.Some? {
          var worker := workers[at.value];
          outcome := if worker.CanOpen() then Open(worker.id) else OpenUnavailable(worker.id);
        }
      case TogglePromptTarget => TogglePromptTarget();
      case ComposePrompt =>
        if promptTargets == {} && at.Some? && workers[at.value].CanPrompt() {
          promptTargets := {workers[at.value].id};
        }
        var ids := TargetIds(workers, promptTargets);
        DistinctFitsIn(ids, promptTargets);
        if ids != [] { outcome := Compose(ids); }
      case FocusSelected =>
        if at.Some? && workers[at.value].CanFocus() { outcome := Focus(workers[at.value].id); }
      case WaitSelected =>
        if at.Some? && workers[at.value].CanObserveAgent() { outcome := Wait(workers[at.value].id); }
      case ReadSelected =>
        if at.Some? && workers[at.value].CanObserveAgent() { outcome := ReadOutput(workers[at.value].id); }
      case ExplainSelected =>
        if at.Some? && workers[at.value].CanObserveAgent() { outcome := Explain(workers[at.value].id); }
      case Quit => outcome := Leave;
      }
    }
  }

  // ---------- Failures over many refreshes ----------

  /** A run of an observer: what it showed before and after each move, and the attention that
      each of them returned. */
  ghost predicate IsRun(views: seq<View>, moves: seq<Move>, attentions: seq<seq<Attention>>, sanitize: string -> string) {
    && |views| == |moves| + 1 && |attentions| == |moves| && views[0] == View([], map[])
    && forall i: nat | i < |moves| :: IsMove(views, moves, attentions, i, sanitize)
  }

  ghost predicate IsMove(views: seq<View>, moves: seq<Move>, attentions: seq<seq<Attention>>, i: nat, sanitize: string -> string)
    requires i < |moves| == |attentions| && |views| == |moves| + 1
  {
    Moves(views[i], moves[i], views[i + 1], attentions[i], sanitize)
  }

  ghost predicate Shows(views: seq<View>, at: nat, id: WorkerId, incarnation: Incarnation)
  {
    at < |views| && Lookup(views[at].workers, id).Some? && Lookup(views[at].workers, id).value.incarnation == Some(incarnation)
  }

  ghost predicate ShowsFailing(views: seq<View>, at: nat, id: WorkerId, incarnation: Incarnation)
  {
    Shows(views, at, id, incarnation) && Lookup(views[at].workers, id).value.lifecycle.Failing?
  }

  /** An incarnation that failed stays failed for as long as it is shown. */
  ghost predicate FailuresLast(views: seq<View>, id: WorkerId, incarnation: Incarnation) {
    forall a, b | 0 <= a < b && ShowsFailing(views, a, id, incarnation) && Shows(views, b, id, incarnation) :: ShowsFailing(views, b, id, incarnation)
  }

  /** A workload that has moved on to another incarnation never comes back to this one. */
  ghost predicate NeverReused(views: seq<View>, id: WorkerId, incarnation: Incarnation) {
    forall a, b, c | 0 <= a < b < c && Shows(views, a, id, incarnation) && Shows(views, c, id, incarnation) && Lookup(views[b].workers, id).Some? ::
      Shows(views, b, id, incarnation)
  }

  /** The failure of this incarnation is among what asks for attention. */
  ghost predicate Reports(attention: seq<Attention>, id: WorkerId, incarnation: Incarnation) {
    exists n :: n in attention && n.worker == id && n.incarnation == Some(incarnation) && n.reason.Failure?
  }

  ghost predicate Reported(views: seq<View>, at: nat, id: WorkerId, incarnation: Incarnation)
    requires 0 < at < |views|
  {
    Reports(News(views[at].workers, views[at - 1].workers), id, incarnation)
  }

  /** The view shows the failure, and the one before showed the worker, but not this failure. */
  ghost predicate NewlyFailing(views: seq<View>, at: nat, id: WorkerId, incarnation: Incarnation)
    requires 0 < at < |views|
  {
    ShowsFailing(views, at, id, incarnation) && Lookup(views[at - 1].workers, id).Some? && !ShowsFailing(views, at - 1, id, incarnation)
  }

  lemma {:induction false} FailureNewsIsNew(now: seq<Worker>, before: seq<Worker>, n: Attention) returns (w: Worker)
    requires n in News(now, before) && n.reason.Failure?
    ensures w in now && FailureIsNews(w, before) && n == FailureAttention(w)
  {
    var agents := Map(Filter(now, (w: Worker) => AgentIsNews(w, before)), AgentAttention);
    var newly := Filter(now, (w: Worker) => FailureIsNews(w, before));
    var failures := Map(newly, FailureAttention);
    var i :| 0 <= i < |agents + failures| && (agents + failures)[i] == n;
    assert i >= |agents|;
    w := newly[i - |agents|];
    assert w in newly;
  }

  lemma {:induction false} ReportsOnlyFailures(views: seq<View>, at: nat, id: WorkerId, incarnation: Incarnation)
    requires 0 < at < |views| && Unique(views[at].workers) && Reported(views, at, id, incarnation)
    ensures NewlyFailing(views, at, id, incarnation)
  {
    var now, before := views[at].workers, views[at - 1].workers;
    var n :| n in News(now, before) && n.worker == id && n.incarnation == Some(incarnation) && n.reason.Failure?;
    var w := FailureNewsIsNew(now, before, n);
    var k :| 0 <= k < |now| && now[k] == w;
    FoundAt(now, k);
  }

  lemma {:induction false} NewFailuresAreReported(views: seq<View>, at: nat, id: WorkerId, incarnation: Incarnation)
    requires 0 < at < |views|
    requires NewlyFailing(views, at, id, incarnation)
    ensures Reported(views, at, id, incarnation)
  {
    var now, before := views[at].workers, views[at - 1].workers;
    var newly := Filter(now, (w: Worker) => FailureIsNews(w, before));
    var failures := Map(newly, FailureAttention);
    var w := Lookup(now, id).value;
    assert w in now && FailureIsNews(w, before) && w in newly;
    var i :| 0 <= i < |newly| && newly[i] == w;
    assert failures[i] == FailureAttention(w) && failures[i] in failures;
    assert failures[i] in News(now, before);
  }

  /** A refresh reports the failure of an incarnation exactly when it shows it failing and the
      view before showed the worker, but not this failure. */
  lemma ReportsAreNewFailures(views: seq<View>, at: nat, id: WorkerId, incarnation: Incarnation)
    requires 0 < at < |views| && Unique(views[at].workers)
    ensures Reported(views, at, id, incarnation) <==>
      NewlyFailing(views, at, id, incarnation)
  {
    if Reported(views, at, id, incarnation) {
      ReportsOnlyFailures(views, at, id, incarnation);
    } else if NewlyFailing(views, at, id, incarnation) {
      NewFailuresAreReported(views, at, id, incarnation);
    }
  }

  lemma {:induction false} FailureIsStillShown(views: seq<View>, id: WorkerId, incarnation: Incarnation, earlier: nat, later: nat)
    requires FailuresLast(views, id, incarnation) && NeverReused(views, id, incarnation) && earlier < later < |views|
    requires ShowsFailing(views, earlier, id, incarnation) && Shows(views, later, id, incarnation) && Lookup(views[later - 1].workers, id).Some?
    ensures ShowsFailing(views, later - 1, id, incarnation)
  {
    if earlier < later - 1 {
      assert Shows(views, later - 1, id, incarnation);
    }
  }

  lemma {:induction false} MovesKeepUnique(v: View, move: Move, after: View, attention: seq<Attention>, sanitize: string -> string)
    requires Moves(v, move, after, attention, sanitize) && Unique(v.workers)
    ensures Unique(after.workers)
  {
    if move.Refreshing? {
      var admitted, carry := Admitted(move.incoming), Carry(v.workers, v.statuses, sanitize);
      forall i | 0 <= i < |admitted| ensures after.workers[i].id == admitted[i].id {
        assert carry(admitted[i]).0.id == admitted[i].id;
      }
    } else if !move.Acting? {
      var at := Find(v.workers, move.id);
      if at < |v.workers| {
        ReplacingKeepsIds(v.workers, at, after.workers[at]);
      }
    }
  }

  lemma {:induction false} RunsAreUnique(views: seq<View>, moves: seq<Move>, attentions: seq<seq<Attention>>, at: nat, sanitize: string -> string)
    requires IsRun(views, moves, attentions, sanitize) && at < |views|
    ensures Unique(views[at].workers)
  {
    if at > 0 {
      RunsAreUnique(views, moves, attentions, at - 1, sanitize);
      assert IsMove(views, moves, attentions, at - 1, sanitize);
      MovesKeepUnique(views[at - 1], moves[at - 1], views[at], attentions[at - 1], sanitize);
    }
  }

  /** Only a refresh reports, and what it reports is the news between two views. */
  lemma {:induction false} OnlyRefreshesReport(views: seq<View>, moves: seq<Move>, attentions: seq<seq<Attention>>, i: nat,
                                               id: WorkerId, incarnation: Incarnation, sanitize: string -> string)
    requires IsRun(views, moves, attentions, sanitize) && i < |moves| && Reports(attentions[i], id, incarnation)
    ensures moves[i].Refreshing? && Reported(views, i + 1, id, incarnation)
  {
    assert IsMove(views, moves, attentions, i, sanitize);
  }

  /** A measurement, a capture or an action shows no other lifecycle and no other incarnation,
      so what is assumed of failures and identities is assumed of refreshes alone. */
  lemma {:induction false} OtherMovesShowTheSame(v: View, move: Move, after: View, attention: seq<Attention>, id: WorkerId, sanitize: string -> string)
    requires Moves(v, move, after, attention, sanitize) && !move.Refreshing? && Unique(v.workers)
    ensures Known(after.workers, id) == Known(v.workers, id)
    ensures Known(v.workers, id) ==>
      var earlier, later := Lookup(v.workers, id).value, Lookup(after.workers, id).value;
        later.lifecycle == earlier.lifecycle && later.incarnation == earlier.incarnation
  {
    if !move.Acting? {
      var at := Find(v.workers, move.id);
      if at < |v.workers| {
        ReplacingKeepsIds(v.workers, at, after.workers[at]);
      }
    }
  }

  lemma {:induction false} FailuresAreNewOnce(views: seq<View>, id: WorkerId, incarnation: Incarnation, first: nat, second: nat)
    requires FailuresLast(views, id, incarnation) && NeverReused(views, id, incarnation) && 0 < first <= second < |views|
    requires NewlyFailing(views, first, id, incarnation) && NewlyFailing(views, second, id, incarnation)
    ensures first == second
  {
    if first < second {
      FailureIsStillShown(views, id, incarnation, first, second);
    }
  }

  lemma {:induction false} ReportIsANewFailure(views: seq<View>, moves: seq<Move>, attentions: seq<seq<Attention>>, i: nat,
                                               id: WorkerId, incarnation: Incarnation, sanitize: string -> string)
    requires IsRun(views, moves, attentions, sanitize) && i < |moves| && Reports(attentions[i], id, incarnation)
    ensures moves[i].Refreshing? && NewlyFailing(views, i + 1, id, incarnation)
  {
    OnlyRefreshesReport(views, moves, attentions, i, id, incarnation, sanitize);
    RunsAreUnique(views, moves, attentions, i + 1, sanitize);
    ReportsAreNewFailures(views, i + 1, id, incarnation);
  }

  /** Where failed incarnations stay failed and identities are never reused, the failure of one
      incarnation asks for attention at most once, over any run of refreshes, measurements,
      captures and actions. */
  lemma {:induction false} FailuresAreReportedOnce(views: seq<View>, moves: seq<Move>, attentions: seq<seq<Attention>>,
                                                   id: WorkerId, incarnation: Incarnation, first: nat, second: nat, sanitize: string -> string)
    requires IsRun(views, moves, attentions, sanitize)
    requires FailuresLast(views, id, incarnation) && NeverReused(views, id, incarnation)
    requires first <= second < |moves| && Reports(attentions[first], id, incarnation) && Reports(attentions[second], id, incarnation)
    ensures first == second
  {
    ReportIsANewFailure(views, moves, attentions, first, id, incarnation, sanitize);
    ReportIsANewFailure(views, moves, attentions, second, id, incarnation, sanitize);
    FailuresAreNewOnce(views, id, incarnation, first + 1, second + 1);
  }
}
