/** Ordered publication of a discovery request (src/discovery.rs): a pool of workers scans the
    locations in request order, each location hands its messages to the publisher through a
    channel of one slot, and the publisher forwards them location by location. */
module Publication {
  import opened Common

  const MAX_DISCOVERY_RESULTS: nat := 4_096
  const MAX_DISCOVERY_LOCATIONS: nat := 256
  const MAX_DISCOVERY_ROOTS: nat := 256
  const MAX_DISCOVERY_MESSAGES: nat := MAX_DISCOVERY_RESULTS + MAX_DISCOVERY_ROOTS + MAX_DISCOVERY_LOCATIONS + 1

  datatype Completion =
    | Complete | Unavailable | Malformed | ScanError | OutputLimit | EntriesLimit | ResultsLimit | TimedOut | Cancelled

  datatype Message =
    | Repository(host: string, path: string)
    | RootError(host: string, root: string)
    | HostFinished(host: string, completion: Completion)
    | Finished

  function Priority(c: Completion): nat {
    match c
    case Complete => 0
    case Unavailable => 1
    case Malformed => 2
    case ScanError => 3
    case OutputLimit => 4
    case EntriesLimit => 5
    case ResultsLimit => 6
    case TimedOut => 7
    case Cancelled => 8
  }

  function MoreSignificant(current: Completion, candidate: Completion): Completion {
    if Priority(candidate) > Priority(current) then candidate else current
  }

  function Count(s: seq<Message>, f: Message -> bool): nat {
    |Filter(s, f)|
  }

  /** What the scan of one location sends when nobody cancels it: repositories, at most one
      error for each root, and a final verdict. */
  ghost predicate IsScan(s: seq<Message>, roots: nat) {
    && s != [] && s[|s| - 1].HostFinished? && s[|s| - 1].completion != Cancelled
    && (forall i | 0 <= i < |s| - 1 :: s[i].Repository? || s[i].RootError?)
    && Count(s, (m: Message) => m.RootError?) <= roots
  }

  datatype Request = Request(scans: seq<seq<Message>>, roots: seq<nat>, maxResults: nat)

  function Sum(s: seq<nat>): nat {
    if s == [] then 0 else s[0] + Sum(s[1..])
  }

  ghost predicate AllScans(q: Request) {
    |q.scans| == |q.roots| && forall i | 0 <= i < |q.scans| :: IsScan(q.scans[i], q.roots[i])
  }

  /** The limits `start` enforces before it spawns anything. */
  ghost predicate Admitted(q: Request) {
    && AllScans(q) && |q.scans| <= MAX_DISCOVERY_LOCATIONS
    && Sum(q.roots) <= MAX_DISCOVERY_ROOTS
    && 1 <= q.maxResults <= MAX_DISCOVERY_RESULTS
  }

  // ---------- The publisher by itself ----------

  datatype Publisher = Publisher(results: nat, exceeded: bool, overall: Completion, output: seq<Message>)

  /** One message of the location being published. */
  function Consume(p: Publisher, m: Message, maxResults: nat): Publisher {
    match m
    case Repository(_, _) =>
      if p.results < maxResults then p.(results := p.results + 1, output := p.output + [m]) else p.(exceeded := true)
    case HostFinished(host, completion) =>
      var verdict := if p.exceeded then ResultsLimit else completion;
      p.(overall := MoreSignificant(p.overall, verdict), output := p.output + [HostFinished(host, verdict)])
    case _ => p.(output := p.output + [m])
  }

  /** The publisher after all messages of the first `i` locations and `t` of the next one. */
  function After(q: Request, i: nat, t: nat): Publisher
    requires i <= |q.scans| && (if i < |q.scans| then t <= |q.scans[i]| else t == 0)
    decreases i, t
  {
    if t > 0 then Consume(After(q, i, t - 1), q.scans[i][t - 1], q.maxResults)
    else if i > 0 then After(q, i - 1, |q.scans[i - 1]|).(exceeded := false)
    else Publisher(0, false, Complete, [])
  }

  /** Where a publication that has reached location `i` ends: at the first location that goes
      over the result limit, or after the last one. */
  function FinalFrom(q: Request, i: nat): Publisher
    requires i <= |q.scans|
    decreases |q.scans| - i
  {
    if i == |q.scans| then After(q, i, 0)
    else if After(q, i, |q.scans[i]|).exceeded then After(q, i, |q.scans[i]|)
    else FinalFrom(q, i + 1)
  }

  function Outcome(p: Publisher): Completion {
    if p.exceeded then ResultsLimit else p.overall
  }

  /** The publisher's own loops, over receivers that each yield one location's messages. */
  method PublishOutcomes(q: Request) returns (output: seq<Message>, completion: Completion)
    ensures output == FinalFrom(q, 0).output && completion == Outcome(FinalFrom(q, 0))
  {
    var overall := Complete;
    var results := 0;
    output := [];
    for i := 0 to |q.scans|
      invariant After(q, i, 0) == Publisher(results, false, overall, output)
      invariant FinalFrom(q, 0) == FinalFrom(q, i)
    {
      var exceeded := false;
      for t := 0 to |q.scans[i]|
        invariant After(q, i, t) == Publisher(results, exceeded, overall, output)
      {
        var message := q.scans[i][t];
        match message
        case Repository(_, _) =>
          if results < q.maxResults {
            results := results + 1;
            output := output + [message];
          } else {
            exceeded := true;
          }
        case HostFinished(host, reported) =>
          var verdict := if exceeded then ResultsLimit else reported;
          overall := MoreSignificant(overall, verdict);
          output := output + [HostFinished(host, verdict)];
        case _ =>
          output := output + [message];
      }
      if exceeded {
        return output, ResultsLimit;
      }
    }
    return output, overall;
  }

  // ---------- The pool around it ----------

  datatype Worker = Idle | Scanning(job: nat) | Exited

  /** The supervisor publishes, then cancels whatever still runs, then joins the workers. */
  datatype Phase = Publishing | Returned | Joining | Over

  datatype Pool = Pool(
    next: nat, workers: seq<Worker>, sent: seq<nat>, slots: seq<Option<Message>>, cancelled: bool,
    cursor: nat, taken: nat, publisher: Publisher, phase: Phase, completion: Option<Completion>)

  datatype Move = Work(k: nat) | Publish | Cancel

  function Start(q: Request, workers: nat): Pool {
    Pool(0, seq(workers, _ => Idle), seq(|q.scans|, _ => 0), seq(|q.scans|, _ => None), false,
         0, 0, After(q, 0, 0), Publishing, None)
  }

  ghost predicate Held(p: Pool, j: nat) {
    exists k :: 0 <= k < |p.workers| && p.workers[k] == Scanning(j)
  }

  /** Nobody can send for this location any more: its scan is over, or the queue that still
      holds it went away with the last worker. */
  ghost predicate Closed(p: Pool, j: nat) {
    if j < p.next then !Held(p, j) else forall k | 0 <= k < |p.workers| :: p.workers[k] == Exited
  }

  ghost predicate Shaped(q: Request, p: Pool) {
    && |p.sent| == |p.slots| == |q.scans| && p.next <= |q.scans| && p.cursor <= |q.scans|
    && (forall k | 0 <= k < |p.workers| && p.workers[k].Scanning? :: p.workers[k].job < p.next)
    && (forall j | 0 <= j < |q.scans| :: p.sent[j] <= |q.scans[j]|)
  }

  ghost predicate Enabled(q: Request, p: Pool, move: Move)
    requires Shaped(q, p)
  {
    match move
    case Work(k) =>
      k < |p.workers| && (
        match p.workers[k]
        case Idle => true
        case Exited => false
        case Scanning(j) => p.cancelled || p.sent[j] == |q.scans[j]| || p.slots[j].None? || p.phase != Publishing)
    case Publish => (
      match p.phase
      case Publishing => p.cursor == |q.scans| || p.slots[p.cursor].Some? || Closed(p, p.cursor)
      case Returned => true
      case Joining => forall k | 0 <= k < |p.workers| :: p.workers[k] == Exited
      case Over => false)
    case Cancel => !p.cancelled
  }

  function Worked(q: Request, p: Pool, k: nat): Pool
    requires Shaped(q, p) && k < |p.workers|
  {
    match p.workers[k]
    case Idle =>
      if p.cancelled || p.next == |q.scans| then p.(workers := p.workers[k := Exited])
      else p.(workers := p.workers[k := Scanning(p.next)], next := p.next + 1)
    case Exited => p
    case Scanning(j) =>
      if p.cancelled || p.sent[j] == |q.scans[j]| then p.(workers := p.workers[k := Idle])
      else if p.phase != Publishing then p.(sent := p.sent[j := p.sent[j] + 1])
      else if p.slots[j].None? then p.(sent := p.sent[j := p.sent[j] + 1], slots := p.slots[j := Some(q.scans[j][p.sent[j]])])
      else p
  }

  /** The completion only ever moves away from being unset. */
  function Settled(p: Pool, outcome: Completion): Pool {
    p.(phase := Returned, completion := p.completion.Or(Some(outcome)))
  }

  function Published(q: Request, p: Pool): Pool
    requires Shaped(q, p)
  {
    match p.phase
    case Publishing =>
      if p.cursor == |q.scans| then Settled(p, p.publisher.overall)
      else if p.slots[p.cursor].Some? then
        var received := p.(slots := p.slots[p.cursor := None]);
        if p.cancelled then Settled(received, Cancelled)
        else received.(taken := p.taken + 1, publisher := Consume(p.publisher, p.slots[p.cursor].value, q.maxResults))
      else if p.publisher.exceeded then Settled(p, ResultsLimit)
      else p.(cursor := p.cursor + 1, taken := 0)
    case Returned => p.(phase := Joining, cancelled := true)
    case Joining => p.(phase := Over, publisher := p.publisher.(output := p.publisher.output + [Finished]))
    case Over => p
  }

  ghost function Moved(q: Request, p: Pool, move: Move): Pool
    requires Shaped(q, p)
  {
    match move
    case Work(k) => if k < |p.workers| then Worked(q, p, k) else p
    case Publish => Published(q, p)
    case Cancel => p.(cancelled := true, completion := p.completion.Or(Some(Cancelled)))
  }

  ghost predicate IsRun(q: Request, workers: nat, run: seq<Pool>, moves: seq<Move>) {
    && |run| == |moves| + 1 && run[0] == Start(q, workers)
    && forall i | 0 <= i < |moves| :: Shaped(q, run[i]) && Enabled(q, run[i], moves[i]) && run[i + 1] == Moved(q, run[i], moves[i])
  }

  // ---------- What always holds ----------

  /** While nobody has cancelled, what has been sent, what waits in a slot and what has been
      published account for every message, and the publisher is where it would be alone. */
  ghost predicate Live(q: Request, p: Pool)
    requires Shaped(q, p)
  {
    && (if p.cursor < |q.scans| then p.taken <= |q.scans[p.cursor]| else p.taken == 0)
    && p.publisher == After(q, p.cursor, p.taken)
    && (forall j | 0 <= j < |q.scans| ::
          && p.sent[j] == (if j < p.cursor then |q.scans[j]| else if j == p.cursor then p.taken else 0) + (if p.slots[j].Some? then 1 else 0)
          && (p.slots[j].Some? ==> p.sent[j] > 0 && p.slots[j].value == q.scans[j][p.sent[j] - 1])
          && (j < p.next && !Held(p, j) ==> p.sent[j] == |q.scans[j]|)
          && (j >= p.next ==> p.sent[j] == 0)
          && (j < p.cursor ==> Closed(p, j) && !After(q, j, |q.scans[j]|).exceeded))
  }

  /** What has been published, without the closing message. */
  function Body(p: Pool): seq<Message> {
    if p.phase == Over && p.publisher.output != [] then p.publisher.output[..|p.publisher.output| - 1] else p.publisher.output
  }

  ghost predicate Told(q: Request, p: Pool) {
    && Body(p) <= FinalFrom(q, 0).output
    && (p.phase == Publishing ==> p.completion == if p.cancelled then Some(Cancelled) else None)
    && (p.phase != Publishing ==> p.completion.Some?)
    && (p.phase != Publishing && p.completion != Some(Cancelled) ==>
          Body(p) == FinalFrom(q, 0).output && p.completion == Some(Outcome(FinalFrom(q, 0))))
    && (p.phase == Over ==> p.publisher.output == Body(p) + [Finished])
  }

  ghost predicate Sane(q: Request, workers: nat, p: Pool) {
    && Shaped(q, p) && |p.workers| == workers >= 1
    && (forall k, l | 0 <= k < l < workers :: p.workers[k].Scanning? ==> p.workers[k] != p.workers[l])
    && (forall k | 0 <= k < workers && p.workers[k] == Exited :: p.cancelled || p.next == |q.scans|)
    && (p.phase == Joining || p.phase == Over ==> p.cancelled)
    && (p.phase == Over ==> forall k | 0 <= k < workers :: p.workers[k] == Exited)
    && (!p.cancelled && p.phase == Publishing ==> Live(q, p))
    && Told(q, p)
  }

  lemma {:induction false} FinalSkips(q: Request, i: nat)
    requires i <= |q.scans| && forall j | 0 <= j < i :: !After(q, j, |q.scans[j]|).exceeded
    ensures FinalFrom(q, 0) == FinalFrom(q, i)
    decreases i
  {
    if i > 0 {
      FinalSkips(q, i - 1);
    }
  }

  lemma {:induction false} AfterGrows(q: Request, i: nat, t: nat, u: nat)
    requires i < |q.scans| && t <= u <= |q.scans[i]|
    ensures After(q, i, t).output <= After(q, i, u).output
    decreases u
  {
    if t < u {
      AfterGrows(q, i, t, u - 1);
    }
  }

  lemma {:induction false} FinalExtends(q: Request, i: nat)
    requires i <= |q.scans|
    ensures After(q, i, 0).output <= FinalFrom(q, i).output
    decreases |q.scans| - i
  {
    if i < |q.scans| {
      AfterGrows(q, i, 0, |q.scans[i]|);
      if !After(q, i, |q.scans[i]|).exceeded {
        FinalExtends(q, i + 1);
      }
    }
  }

  /** Whatever has been published so far is the beginning of what will be. */
  lemma {:induction false} SoFarIsAPrefix(q: Request, i: nat, t: nat)
    requires i <= |q.scans| && (if i < |q.scans| then t <= |q.scans[i]| else t == 0)
    requires forall j | 0 <= j < i :: !After(q, j, |q.scans[j]|).exceeded
    ensures After(q, i, t).output <= FinalFrom(q, 0).output
  {
    FinalSkips(q, i);
    if i < |q.scans| {
      AfterGrows(q, i, t, |q.scans[i]|);
      if !After(q, i, |q.scans[i]|).exceeded {
        FinalExtends(q, i + 1);
      }
    }
  }

  lemma {:induction false} StartIsSane(q: Request, workers: nat)
    requires workers >= 1
    ensures Sane(q, workers, Start(q, workers))
  {
    SoFarIsAPrefix(q, 0, 0);
  }

  lemma {:induction false} HoldersStay(p: Pool, k: nat, worker: Worker, j: nat)
    requires k < |p.workers| && p.workers[k] != Scanning(j) && worker != Scanning(j)
    ensures Held(p.(workers := p.workers[k := worker]), j) <==> Held(p, j)
  {
    var after := p.(workers := p.workers[k := worker]);
    if Held(p, j) {
      var l :| 0 <= l < |p.workers| && p.workers[l] == Scanning(j);
      assert after.workers[l] == Scanning(j);
    }
    if Held(after, j) {
      var l :| 0 <= l < |after.workers| && after.workers[l] == Scanning(j);
      assert p.workers[l] == Scanning(j);
    }
  }

  lemma {:induction false} WorkIsSane(q: Request, workers: nat, p: Pool, k: nat)
    requires Sane(q, workers, p) && k < workers && Enabled(q, p, Work(k))
    ensures Sane(q, workers, Worked(q, p, k))
  {
    var after := Worked(q, p, k);
    if !p.cancelled && p.phase == Publishing {
      LiveWork(q, workers, p, k);
    }
  }

  lemma {:induction false} OtherHoldersStay(q: Request, p: Pool, k: nat)
    requires Shaped(q, p) && k < |p.workers|
    ensures forall j: nat | j != p.next && p.workers[k] != Scanning(j) :: Held(Worked(q, p, k), j) <==> Held(p, j)
  {
    var after := Worked(q, p, k);
    assert after.workers == p.workers || after.workers == p.workers[k := after.workers[k]];
    forall j: nat | j != p.next && p.workers[k] != Scanning(j) ensures Held(after, j) <==> Held(p, j) {
      HoldersStay(p, k, after.workers[k], j);
    }
  }

  /** A worker takes the next location, or finds none and exits. */
  lemma {:induction false} LiveTaking(q: Request, workers: nat, p: Pool, k: nat)
    requires Sane(q, workers, p) && k < workers && p.workers[k].Idle? && !p.cancelled && p.phase == Publishing
    requires Shaped(q, p) && |p.workers| == workers
    ensures Shaped(q, Worked(q, p, k)) && Live(q, Worked(q, p, k))
  {
    OtherHoldersStay(q, p, k);
    var after := Worked(q, p, k);
    assert forall j | 0 <= j < p.next :: p.workers[k] != Scanning(j);
    if p.next < |q.scans| {
      assert after.workers[k] == Scanning(p.next);
      assert Held(after, p.next);
    }
  }

  /** A worker sends a message, or finishes the location it scans. */
  lemma {:induction false} LiveScanning(q: Request, workers: nat, p: Pool, k: nat)
    requires Sane(q, workers, p) && k < workers && p.workers[k].Scanning? && !p.cancelled && p.phase == Publishing
    requires Shaped(q, p) && |p.workers| == workers && Enabled(q, p, Work(k))
    ensures Shaped(q, Worked(q, p, k)) && Live(q, Worked(q, p, k))
  {
    OtherHoldersStay(q, p, k);
    assert Held(p, p.workers[k].job);
    var after := Worked(q, p, k);
    if p.sent[p.workers[k].job] < |q.scans[p.workers[k].job]| {
      assert after.workers == p.workers;
      assert forall j :: Held(after, j) <==> Held(p, j);
    }
  }

  lemma {:induction false} LiveWork(q: Request, workers: nat, p: Pool, k: nat)
    requires Sane(q, workers, p) && k < workers && Enabled(q, p, Work(k)) && !p.cancelled && p.phase == Publishing
    ensures Shaped(q, Worked(q, p, k)) && Live(q, Worked(q, p, k))
  {
    if p.workers[k].Idle? {
      LiveTaking(q, workers, p, k);
    } else {
      LiveScanning(q, workers, p, k);
    }
  }

  lemma {:induction false} LivePublish(q: Request, workers: nat, p: Pool)
    requires Sane(q, workers, p) && Enabled(q, p, Publish) && !p.cancelled && p.phase == Publishing
    ensures var after := Published(q, p); Shaped(q, after) && (after.phase == Publishing ==> Live(q, after))
  {
    var after := Published(q, p);
    assert after.workers == p.workers;
    assert forall j :: Held(after, j) <==> Held(p, j);
    WhatWaits(q, workers, p);
  }

  /** The next message of the location waits in its slot, or there is none any more. */
  ghost predicate Waits(q: Request, p: Pool)
    requires Shaped(q, p) && p.cursor < |q.scans|
  {
    if p.slots[p.cursor].Some? then p.taken < |q.scans[p.cursor]| && p.slots[p.cursor].value == q.scans[p.cursor][p.taken]
    else p.taken == |q.scans[p.cursor]|
  }

  lemma {:induction false} WhatWaits(q: Request, workers: nat, p: Pool)
    requires Sane(q, workers, p) && Enabled(q, p, Publish) && !p.cancelled && p.phase == Publishing
    ensures p.cursor < |q.scans| ==> Waits(q, p)
  {
    assert p.workers[0] == Exited ==> p.next == |q.scans|;
  }

  lemma {:induction false} LivePublishTells(q: Request, workers: nat, p: Pool)
    requires Sane(q, workers, p) && Enabled(q, p, Publish) && !p.cancelled && p.phase == Publishing
    ensures Told(q, Published(q, p))
  {
    WhatWaits(q, workers, p);
    PublishTells(q, p);
  }

  lemma {:induction false} PublishTells(q: Request, p: Pool)
    requires Shaped(q, p) && Told(q, p) && !p.cancelled && p.phase == Publishing
    requires if p.cursor < |q.scans| then p.taken <= |q.scans[p.cursor]| && Waits(q, p) else p.taken == 0
    requires p.publisher == After(q, p.cursor, p.taken) && forall j | 0 <= j < p.cursor :: !After(q, j, |q.scans[j]|).exceeded
    ensures Told(q, Published(q, p))
  {
    SoFarIsAPrefix(q, p.cursor, p.taken);
    FinalSkips(q, p.cursor);
    if p.cursor < |q.scans| && p.slots[p.cursor].Some? {
      SoFarIsAPrefix(q, p.cursor, p.taken + 1);
    }
  }

  lemma {:induction false} PublishIsSane(q: Request, workers: nat, p: Pool)
    requires Sane(q, workers, p) && Enabled(q, p, Publish)
    ensures Sane(q, workers, Published(q, p))
  {
    if p.phase == Publishing && !p.cancelled {
      LivePublish(q, workers, p);
      LivePublishTells(q, workers, p);
    }
  }

  lemma {:induction false} MoveIsSane(q: Request, workers: nat, p: Pool, move: Move)
    requires Sane(q, workers, p) && Enabled(q, p, move)
    ensures Sane(q, workers, Moved(q, p, move))
  {
    match move
    case Work(k) => WorkIsSane(q, workers, p, k);
    case Publish => PublishIsSane(q, workers, p);
    case Cancel =>
      if p.phase == Publishing {
        SoFarIsAPrefix(q, p.cursor, p.taken);
      }
  }

  lemma {:induction false} RunIsSane(q: Request, workers: nat, run: seq<Pool>, moves: seq<Move>, at: nat)
    requires IsRun(q, workers, run, moves) && at < |run| && workers >= 1
    ensures Sane(q, workers, run[at])
  {
    if at == 0 {
      StartIsSane(q, workers);
    } else {
      RunIsSane(q, workers, run, moves, at - 1);
      MoveIsSane(q, workers, run[at - 1], moves[at - 1]);
    }
  }

  // ---------- Nothing deadlocks, and everything ends ----------

  /** Until the run is over, a worker or the publisher can always move: jobs leave the queue
      in request order, so the location the publisher waits for is the one somebody scans. */
  lemma {:induction false} SomebodyCanMove(q: Request, workers: nat, p: Pool) returns (move: Move)
    requires Sane(q, workers, p) && p.phase != Over
    ensures !move.Cancel? && Enabled(q, p, move)
  {
    assert forall l | 0 <= l < workers && p.workers[l].Scanning? :: Held(p, p.workers[l].job);
    move := Publish;
    if !Enabled(q, p, Publish) {
      if p.phase == Joining || p.cursor >= p.next {
        var k :| 0 <= k < workers && p.workers[k] != Exited;
        move := Work(k);
      } else {
        var k :| 0 <= k < workers && p.workers[k] == Scanning(p.cursor);
        move := Work(k);
      }
    }
  }

  function Weight(w: Worker): nat {
    match w
    case Idle => 1
    case Scanning(_) => 2
    case Exited => 0
  }

  function Weights(workers: seq<Worker>): nat {
    if workers == [] then 0 else Weight(workers[0]) + Weights(workers[1..])
  }

  /** Messages still to be sent count twice, messages waiting in a slot once. */
  function Backlog(scans: seq<seq<Message>>, sent: seq<nat>, slots: seq<Option<Message>>): int
    requires |scans| == |sent| == |slots|
  {
    if scans == [] then 0
    else 2 * (|scans[0]| - sent[0]) + (if slots[0].Some? then 1 else 0) + Backlog(scans[1..], sent[1..], slots[1..])
  }

  function Remaining(phase: Phase): nat {
    match phase
    case Publishing => 3
    case Returned => 2
    case Joining => 1
    case Over => 0
  }

  /** How many moves there can still be. */
  function Measure(q: Request, p: Pool): int
    requires Shaped(q, p)
  {
    2 * (|q.scans| - p.next) + Weights(p.workers) + Backlog(q.scans, p.sent, p.slots) + (|q.scans| - p.cursor)
    + Remaining(p.phase) + (if p.cancelled then 0 else 1)
  }

  lemma {:induction false} WeightsChange(workers: seq<Worker>, k: nat, worker: Worker)
    requires k < |workers|
    ensures Weights(workers[k := worker]) == Weights(workers) - Weight(workers[k]) + Weight(worker)
    decreases k
  {
    if k > 0 {
      assert workers[k := worker][1..] == workers[1..][k - 1 := worker];
      WeightsChange(workers[1..], k - 1, worker);
    } else {
      assert workers[k := worker][1..] == workers[1..];
    }
  }

  lemma {:induction false} BacklogChange(scans: seq<seq<Message>>, sent: seq<nat>, slots: seq<Option<Message>>, j: nat, n: nat, slot: Option<Message>)
    requires |scans| == |sent| == |slots| && j < |scans|
    ensures Backlog(scans, sent[j := n], slots[j := slot]) ==
      Backlog(scans, sent, slots) + 2 * (sent[j] - n) + (if slot.Some? then 1 else 0) - (if slots[j].Some? then 1 else 0)
    decreases j
  {
    if j > 0 {
      assert sent[j := n][1..] == sent[1..][j - 1 := n] && slots[j := slot][1..] == slots[1..][j - 1 := slot];
      BacklogChange(scans[1..], sent[1..], slots[1..], j - 1, n, slot);
    } else {
      assert sent[j := n][1..] == sent[1..] && slots[j := slot][1..] == slots[1..];
    }
  }

  lemma {:induction false} BacklogIsCounted(scans: seq<seq<Message>>, sent: seq<nat>, slots: seq<Option<Message>>)
    requires |scans| == |sent| == |slots| && forall j | 0 <= j < |scans| :: sent[j] <= |scans[j]|
    ensures Backlog(scans, sent, slots) >= 0
  {
    if scans != [] {
      BacklogIsCounted(scans[1..], sent[1..], slots[1..]);
    }
  }

  lemma {:induction false} WorkDecreases(q: Request, workers: nat, p: Pool, k: nat)
    requires Sane(q, workers, p) && k < workers && Enabled(q, p, Work(k)) && Shaped(q, Worked(q, p, k))
    ensures Measure(q, Worked(q, p, k)) < Measure(q, p)
  {
    var after := Worked(q, p, k);
    WeightsChange(p.workers, k, after.workers[k]);
    assert after.workers == p.workers[k := after.workers[k]];
    if p.workers[k].Scanning? {
      var j := p.workers[k].job;
      BacklogChange(q.scans, p.sent, p.slots, j, after.sent[j], after.slots[j]);
      assert after.sent == p.sent[j := after.sent[j]] && after.slots == p.slots[j := after.slots[j]];
    }
  }

  lemma {:induction false} MovesDecrease(q: Request, workers: nat, p: Pool, move: Move)
    requires Sane(q, workers, p) && Enabled(q, p, move) && Shaped(q, Moved(q, p, move))
    ensures Measure(q, Moved(q, p, move)) < Measure(q, p)
  {
    if move.Work? {
      WorkDecreases(q, workers, p, move.k);
    } else if move.Publish? && p.phase == Publishing && p.cursor < |q.scans| && p.slots[p.cursor].Some? {
      BacklogChange(q.scans, p.sent, p.slots, p.cursor, p.sent[p.cursor], None);
      assert p.sent[p.cursor := p.sent[p.cursor]] == p.sent;
    }
  }

  lemma {:induction false} RunsShrink(q: Request, workers: nat, run: seq<Pool>, moves: seq<Move>, at: nat)
    requires IsRun(q, workers, run, moves) && at < |run| && workers >= 1
    ensures Shaped(q, run[0]) && Shaped(q, run[at]) && 0 <= Measure(q, run[at]) <= Measure(q, run[0]) - at
  {
    RunIsSane(q, workers, run, moves, at);
    RunIsSane(q, workers, run, moves, 0);
    BacklogIsCounted(q.scans, run[at].sent, run[at].slots);
    if at > 0 {
      RunIsSane(q, workers, run, moves, at - 1);
      RunsShrink(q, workers, run, moves, at - 1);
      MovesDecrease(q, workers, run[at - 1], moves[at - 1]);
    }
  }

  /** Every run is finite, with a bound fixed when it starts; and a run in which nobody but the
      caller's cancellation could still move has ended, with every worker gone. */
  lemma {:induction false} EveryRunEnds(q: Request, workers: nat, run: seq<Pool>, moves: seq<Move>)
    requires IsRun(q, workers, run, moves) && workers >= 1
    ensures Shaped(q, run[0]) && |moves| <= Measure(q, run[0])
    ensures Shaped(q, run[|moves|])
    ensures (forall move: Move | !move.Cancel? :: !Enabled(q, run[|moves|], move)) <==> run[|moves|].phase == Over
    ensures run[|moves|].phase == Over ==> forall k | 0 <= k < |run[|moves|].workers| :: run[|moves|].workers[k] == Exited
  {
    RunsShrink(q, workers, run, moves, |moves|);
    var last := run[|moves|];
    RunIsSane(q, workers, run, moves, |moves|);
    if last.phase != Over {
      var move := SomebodyCanMove(q, workers, last);
    }
  }

  // ---------- What is published ----------

  predicate IsRepository(m: Message) { m.Repository? }

  predicate IsRootError(m: Message) { m.RootError? }

  /** Everything the scans send, in request order. */
  function Sent(q: Request, i: nat, t: nat): seq<Message>
    requires i <= |q.scans| && (if i < |q.scans| then t <= |q.scans[i]| else t == 0)
    decreases i, t
  {
    if t > 0 then Sent(q, i, t - 1) + [q.scans[i][t - 1]]
    else if i > 0 then Sent(q, i - 1, |q.scans[i - 1]|)
    else []
  }

  lemma {:induction false} FilterOneMore(s: seq<Message>, m: Message, keep: Message -> bool)
    ensures Filter(s + [m], keep) == Filter(s, keep) + (if keep(m) then [m] else [])
  {
    FilterJoins(s, [m], keep);
  }

  /** The publisher holds the first of these repositories, and knows whether there were more. */
  ghost predicate HoldsFirst(p: Publisher, sent: seq<Message>, maxResults: nat) {
    && Filter(p.output, IsRepository) == First(sent, maxResults)
    && p.results == |First(sent, maxResults)|
    && (p.exceeded ==> |sent| > maxResults)
  }

  lemma {:induction false} ConsumingHoldsFirst(p: Publisher, m: Message, sent: seq<Message>, maxResults: nat)
    requires HoldsFirst(p, sent, maxResults)
    ensures var after := Consume(p, m, maxResults); var more := sent + (if m.Repository? then [m] else []);
      && HoldsFirst(after, more, maxResults)
      && ((p.exceeded <==> |sent| > maxResults) ==> (after.exceeded <==> |more| > maxResults))
  {
    var verdict := if m.HostFinished? && p.exceeded then HostFinished(m.host, ResultsLimit) else m;
    FilterOneMore(p.output, verdict, IsRepository);
  }

  /** The repositories published so far are the first ones sent, up to the limit; and if the
      location began within the limit, it is over it exactly when more were sent. */
  lemma {:induction false} FirstRepositories(q: Request, i: nat, t: nat)
    requires i <= |q.scans| && (if i < |q.scans| then t <= |q.scans[i]| else t == 0)
    ensures var p, sent := After(q, i, t), Filter(Sent(q, i, t), IsRepository);
      && HoldsFirst(p, sent, q.maxResults)
      && (|Filter(Sent(q, i, 0), IsRepository)| <= q.maxResults ==> (p.exceeded <==> |sent| > q.maxResults))
    decreases i, t
  {
    if t > 0 {
      FirstRepositories(q, i, t - 1);
      FilterOneMore(Sent(q, i, t - 1), q.scans[i][t - 1], IsRepository);
      ConsumingHoldsFirst(After(q, i, t - 1), q.scans[i][t - 1], Filter(Sent(q, i, t - 1), IsRepository), q.maxResults);
    } else if i > 0 {
      FirstRepositories(q, i - 1, |q.scans[i - 1]|);
    }
  }

  /** The whole publication keeps the first repositories in request order, whatever the
      workers' timing, and reports the limit exactly when there were more. */
  lemma {:induction false} FinalRepositories(q: Request, i: nat)
    requires i <= |q.scans| && |Filter(Sent(q, i, 0), IsRepository)| <= q.maxResults
    ensures var all := Filter(Sent(q, |q.scans|, 0), IsRepository);
      && Filter(FinalFrom(q, i).output, IsRepository) == First(all, q.maxResults)
      && (FinalFrom(q, i).exceeded <==> |all| > q.maxResults)
    decreases |q.scans| - i
  {
    FirstRepositories(q, i, 0);
    if i < |q.scans| {
      FirstRepositories(q, i, |q.scans[i]|);
      if After(q, i, |q.scans[i]|).exceeded {
        LaterSendsExtend(q, i, |q.scans[i]|);
      } else {
        FinalRepositories(q, i + 1);
      }
    }
  }

  lemma {:induction false} LaterSendsExtend(q: Request, i: nat, t: nat)
    requires i < |q.scans| && t == |q.scans[i]|
    ensures Filter(Sent(q, i, t), IsRepository) <= Filter(Sent(q, |q.scans|, 0), IsRepository)
    decreases |q.scans| - i
  {
    if i + 1 < |q.scans| {
      SentGrows(q, i + 1, |q.scans[i + 1]|);
      LaterSendsExtend(q, i + 1, |q.scans[i + 1]|);
    }
  }

  lemma {:induction false} SentGrows(q: Request, i: nat, t: nat)
    requires i < |q.scans| && t <= |q.scans[i]|
    ensures Filter(Sent(q, i, 0), IsRepository) <= Filter(Sent(q, i, t), IsRepository)
    decreases t
  {
    if t > 0 {
      SentGrows(q, i, t - 1);
      FilterOneMore(Sent(q, i, t - 1), q.scans[i][t - 1], IsRepository);
    }
  }

  // ---------- The receiver's channel never fills ----------

  lemma {:induction false} SumSplits(s: seq<nat>, i: nat)
    requires i < |s|
    ensures Sum(s[..i + 1]) == Sum(s[..i]) + s[i]
    decreases i
  {
    if i == 0 {
      assert s[..1] == [s[0]] && s[..0] == [];
      assert [s[0]][1..] == [];
    } else {
      assert s[..i + 1][1..] == s[1..][..i] && s[..i][1..] == s[1..][..i - 1];
      SumSplits(s[1..], i - 1);
    }
  }

  lemma {:induction false} SumOfPrefix(s: seq<nat>, i: nat)
    requires i <= |s|
    ensures Sum(s[..i]) <= Sum(s)
    decreases |s| - i
  {
    if i == |s| {
      assert s[..i] == s;
    } else {
      SumSplits(s, i);
      SumOfPrefix(s, i + 1);
    }
  }

  /** What may have been published of everything but repositories. */
  function Others(q: Request, i: nat, t: nat): nat
    requires i <= |q.scans| == |q.roots| && (if i < |q.scans| then t <= |q.scans[i]| else t == 0)
  {
    Sum(q.roots[..i]) + i + if i < |q.scans| then Count(q.scans[i][..t], IsRootError) + (if t == |q.scans[i]| then 1 else 0) else 0
  }

  lemma {:induction false} OthersGrow(q: Request, i: nat, t: nat)
    requires AllScans(q) && i < |q.scans| == |q.roots| && 0 < t <= |q.scans[i]|
    ensures Others(q, i, t) == Others(q, i, t - 1) + if q.scans[i][t - 1].Repository? then 0 else 1
  {
    var scan := q.scans[i];
    assert IsScan(scan, q.roots[i]);
    assert scan[..t] == scan[..t - 1] + [scan[t - 1]];
    FilterOneMore(scan[..t - 1], scan[t - 1], IsRootError);
  }

  lemma {:induction false} OthersOfNext(q: Request, i: nat)
    requires AllScans(q) && i < |q.scans| == |q.roots|
    ensures Others(q, i, |q.scans[i]|) <= Others(q, i + 1, 0)
  {
    var scan := q.scans[i];
    assert IsScan(scan, q.roots[i]);
    assert scan[..|scan|] == scan;
    RootErrorsAgree(scan);
    SumSplits(q.roots, i);
  }

  /** Within the result limit, and with at most so many messages that are not repositories. */
  predicate Counted(p: Publisher, others: nat, maxResults: nat) {
    p.results <= maxResults && |p.output| <= p.results + others
  }

  lemma {:induction false} ConsumingCounts(p: Publisher, m: Message, others: nat, maxResults: nat)
    requires Counted(p, others, maxResults)
    ensures Counted(Consume(p, m, maxResults), others + if m.Repository? then 0 else 1, maxResults)
  {}

  /** One message for each repository within the limit, each root error and each location. */
  lemma {:induction false} OutputIsCounted(q: Request, i: nat, t: nat)
    requires AllScans(q) && i <= |q.scans| == |q.roots| && (if i < |q.scans| then t <= |q.scans[i]| else t == 0)
    ensures Counted(After(q, i, t), Others(q, i, t), q.maxResults)
    decreases i, t
  {
    if t > 0 {
      OutputIsCounted(q, i, t - 1);
      OthersGrow(q, i, t);
      ConsumingCounts(After(q, i, t - 1), q.scans[i][t - 1], Others(q, i, t - 1), q.maxResults);
    } else if i > 0 {
      OutputIsCounted(q, i - 1, |q.scans[i - 1]|);
      OthersOfNext(q, i - 1);
    }
  }

  lemma {:induction false} RootErrorsAgree(scan: seq<Message>)
    ensures Count(scan, IsRootError) == Count(scan, (m: Message) => m.RootError?)
  {
    FilterAgrees(scan, IsRootError, (m: Message) => m.RootError?);
  }

  lemma {:induction false} FinalIsCounted(q: Request, i: nat)
    requires Admitted(q) && i <= |q.scans|
    ensures |FinalFrom(q, i).output| <= MAX_DISCOVERY_MESSAGES - 1
    decreases |q.scans| - i
  {
    if i == |q.scans| {
      OutputIsCounted(q, i, 0);
      SumOfPrefix(q.roots, i);
    } else if After(q, i, |q.scans[i]|).exceeded {
      OutputIsCounted(q, i, |q.scans[i]|);
      OthersOfNext(q, i);
      OthersAreFew(q, i + 1);
    } else {
      FinalIsCounted(q, i + 1);
    }
  }

  lemma {:induction false} OthersAreFew(q: Request, i: nat)
    requires Admitted(q) && i <= |q.scans|
    ensures Others(q, i, 0) <= MAX_DISCOVERY_ROOTS + MAX_DISCOVERY_LOCATIONS
  {
    SumOfPrefix(q.roots, i);
    if i < |q.scans| {
      assert q.scans[i][..0] == [];
    }
  }

  // ---------- The main results ----------

  /** At every moment of every run of an admitted request, the messages published are a
      beginning of the one publication the request determines, and even with nobody receiving
      they fit the receiver's channel, so the publisher's sends never block. */
  lemma {:induction false} PublicationIsOrderedAndBounded(q: Request, workers: nat, run: seq<Pool>, moves: seq<Move>, at: nat)
    requires IsRun(q, workers, run, moves) && at < |run| && workers >= 1 && Admitted(q)
    ensures Body(run[at]) <= FinalFrom(q, 0).output
    ensures |run[at].publisher.output| <= MAX_DISCOVERY_MESSAGES
  {
    RunIsSane(q, workers, run, moves, at);
    FinalIsCounted(q, 0);
  }

  ghost predicate Free(p: Pool) {
    p.completion != Some(Cancelled) && (p.phase == Publishing || p.phase == Returned ==> !p.cancelled)
  }

  lemma {:induction false} LiveOverall(q: Request, workers: nat, p: Pool)
    requires Sane(q, workers, p) && Admitted(q) && p.phase == Publishing && !p.cancelled
    ensures p.publisher.overall != Cancelled
  {
    ScansReportNoCancellation(q);
    OutcomeIsNotCancelled(q, p.cursor, p.taken);
  }

  lemma {:induction false} MovesStayFree(q: Request, p: Pool, move: Move)
    requires Shaped(q, p) && Free(p) && !move.Cancel? && (p.phase == Publishing ==> p.publisher.overall != Cancelled)
    ensures Free(Moved(q, p, move))
  {}

  lemma {:induction false} Uncancelled(q: Request, workers: nat, run: seq<Pool>, moves: seq<Move>, at: nat)
    requires IsRun(q, workers, run, moves) && at < |run| && workers >= 1 && Admitted(q) && forall i | 0 <= i < at :: !moves[i].Cancel?
    ensures Free(run[at])
    decreases at
  {
    if at > 0 {
      Uncancelled(q, workers, run, moves, at - 1);
      RunIsSane(q, workers, run, moves, at - 1);
      if run[at - 1].phase == Publishing {
        LiveOverall(q, workers, run[at - 1]);
      }
      MovesStayFree(q, run[at - 1], moves[at - 1]);
    }
  }

  ghost predicate NobodyReportsCancellation(scans: seq<seq<Message>>) {
    forall scan, m | scan in scans && m in scan && m.HostFinished? :: m.completion != Cancelled
  }

  lemma ScansReportNoCancellation(q: Request)
    requires AllScans(q)
    ensures NobodyReportsCancellation(q.scans)
  {
    forall scan, m | scan in q.scans && m in scan && m.HostFinished? ensures m.completion != Cancelled {
      var i :| 0 <= i < |q.scans| && q.scans[i] == scan;
      assert IsScan(q.scans[i], q.roots[i]);
    }
  }

  lemma {:induction false} OutcomeIsNotCancelled(q: Request, i: nat, t: nat)
    requires NobodyReportsCancellation(q.scans) && i <= |q.scans| && (if i < |q.scans| then t <= |q.scans[i]| else t == 0)
    ensures After(q, i, t).overall != Cancelled
    decreases i, t
  {
    if t > 0 {
      OutcomeIsNotCancelled(q, i, t - 1);
      assert q.scans[i][t - 1] in q.scans[i];
    } else if i > 0 {
      OutcomeIsNotCancelled(q, i - 1, |q.scans[i - 1]|);
    }
  }

  /** A run nobody cancels publishes exactly what the request determines, however its workers
      are scheduled: the first repositories in request order up to the limit, and the limit as
      its completion exactly when there were more. */
  lemma {:induction false} PublicationIsDeterministic(q: Request, workers: nat, run: seq<Pool>, moves: seq<Move>)
    requires IsRun(q, workers, run, moves) && workers >= 1 && Admitted(q)
    requires run[|moves|].phase == Over && forall i | 0 <= i < |moves| :: !moves[i].Cancel?
    ensures var last, final := run[|moves|], FinalFrom(q, 0); var all := Filter(Sent(q, |q.scans|, 0), IsRepository);
      && last.publisher.output == final.output + [Finished]
      && last.completion == Some(Outcome(final))
      && Filter(final.output, IsRepository) == First(all, q.maxResults)
      && (|all| > q.maxResults ==> last.completion == Some(ResultsLimit))
  {
    RunIsSane(q, workers, run, moves, |moves|);
    Uncancelled(q, workers, run, moves, |moves|);
    FinalRepositories(q, 0);
  }

  // ---------- The verdict of a run ----------

  ghost predicate Verdict(m: Message, p: Publisher) { m in p.output && m.HostFinished? }

  /** The completion is a verdict some host was published with, and none outranks it. */
  ghost predicate IsWorst(c: Completion, p: Publisher) {
    && (forall m | Verdict(m, p) :: Priority(m.completion) <= Priority(c))
    && (c == Complete || exists m :: Verdict(m, p) && m.completion == c)
  }

  ghost predicate HasTimeout(p: Publisher) {
    exists m :: Verdict(m, p) && m.completion == TimedOut
  }

  /** What the publisher gathers is always the worst verdict it has published. */
  lemma {:induction false} OverallIsTheWorst(q: Request, i: nat, t: nat)
    requires i <= |q.scans| && (if i < |q.scans| then t <= |q.scans[i]| else t == 0)
    ensures IsWorst(After(q, i, t).overall, After(q, i, t))
    decreases i, t
  {
    if t > 0 {
      OverallIsTheWorst(q, i, t - 1);
      var before, p, m := After(q, i, t - 1), After(q, i, t), q.scans[i][t - 1];
      assert before.output <= p.output;
      if m.HostFinished? {
        assert p.output[|before.output|] in p.output;
      }
    } else if i > 0 {
      OverallIsTheWorst(q, i - 1, |q.scans[i - 1]|);
    }
  }

  /** Where the limit was reached and published as somebody's verdict, the outcome falls short
      of what was gathered exactly if some host was published as timed out. */
  lemma {:induction false} LimitOrWorst(p: Publisher, limit: Message)
    requires IsWorst(p.overall, p) && p.overall != Cancelled
    requires p.exceeded ==> Verdict(limit, p) && limit.completion == ResultsLimit
    ensures IsWorst(Outcome(p), p) <==> !(p.exceeded && HasTimeout(p))
  {
    if p.exceeded && HasTimeout(p) {
      var m :| Verdict(m, p) && m.completion == TimedOut;
      assert Priority(m.completion) > Priority(Outcome(p));
    }
  }

  /** At the end of a location, the gathered verdict falls short exactly if the location went
      over the result limit and some host was published as timed out. */
  lemma {:induction false} OutcomeIsTheWorst(q: Request, i: nat)
    requires AllScans(q) && i < |q.scans|
    ensures var p := After(q, i, |q.scans[i]|);
      IsWorst(Outcome(p), p) <==> !(p.exceeded && HasTimeout(p))
  {
    var scan, p := q.scans[i], After(q, i, |q.scans[i]|);
    OverallIsTheWorst(q, i, |scan|);
    ScansReportNoCancellation(q);
    OutcomeIsNotCancelled(q, i, |scan|);
    EndIsPublished(q, i);
    LimitOrWorst(p, HostFinished(scan[|scan| - 1].host, ResultsLimit));
  }

  // ---------- Read off the request ----------

  function VerdictOf(q: Request, i: nat): Completion
    requires i < |q.scans| && q.scans[i] != [] && q.scans[i][|q.scans[i]| - 1].HostFinished?
  {
    q.scans[i][|q.scans[i]| - 1].completion
  }

  /** How many repositories the first locations send. */
  function Repositories(q: Request, i: nat): nat
    requires i <= |q.scans|
  {
    |Filter(Sent(q, i, 0), IsRepository)|
  }

  /** The location at which the result limit is passed. */
  ghost predicate PassesLimit(q: Request, k: nat) {
    k < |q.scans| && Repositories(q, k) <= q.maxResults < Repositories(q, k + 1)
  }

  /** Some location before this one ends in a timeout. */
  ghost predicate TimesOutBefore(q: Request, k: nat)
    requires AllScans(q) && k <= |q.scans|
  {
    exists i: nat :: i < k && IsScan(q.scans[i], q.roots[i]) && VerdictOf(q, i) == TimedOut
  }

  /** Until a scan ends, it publishes no verdict; at its end it publishes one. */
  lemma {:induction false} EndIsPublished(q: Request, i: nat)
    requires AllScans(q) && i < |q.scans|
    ensures var scan, before, after := q.scans[i], After(q, i, 0), After(q, i, |q.scans[i]|);
      && IsScan(scan, q.roots[i])
      && (forall m :: Verdict(m, after) <==>
           Verdict(m, before) || m == HostFinished(scan[|scan| - 1].host, if after.exceeded then ResultsLimit else VerdictOf(q, i)))
  {
    var scan := q.scans[i];
    assert IsScan(scan, q.roots[i]);
    NoVerdictInside(q, i, |scan| - 1);
    var inside, after := After(q, i, |scan| - 1), After(q, i, |scan|);
    var last := HostFinished(scan[|scan| - 1].host, if inside.exceeded then ResultsLimit else VerdictOf(q, i));
    assert after.output == inside.output + [last] && after.exceeded == inside.exceeded;
  }

  lemma {:induction false} NoVerdictInside(q: Request, i: nat, t: nat)
    requires AllScans(q) && i < |q.scans| && t < |q.scans[i]|
    ensures forall m :: Verdict(m, After(q, i, t)) <==> Verdict(m, After(q, i, 0))
  {
    assert IsScan(q.scans[i], q.roots[i]);
    if t > 0 {
      NoVerdictInside(q, i, t - 1);
    }
  }

  lemma {:induction false} RepositoriesGrow(q: Request, i: nat, j: nat)
    requires i <= j <= |q.scans|
    ensures Repositories(q, i) <= Repositories(q, j)
    decreases j
  {
    if i < j {
      RepositoriesGrow(q, i, j - 1);
      SentGrows(q, j - 1, |q.scans[j - 1]|);
    }
  }

  lemma {:induction false} TimeoutsGrow(q: Request, k: nat)
    requires AllScans(q) && k < |q.scans|
    ensures IsScan(q.scans[k], q.roots[k]) && (TimesOutBefore(q, k + 1) <==> TimesOutBefore(q, k) || VerdictOf(q, k) == TimedOut)
  {
    assert IsScan(q.scans[k], q.roots[k]);
  }

  lemma {:induction false} TimeoutIsPublished(q: Request, k: nat)
    requires AllScans(q) && k < |q.scans| && !After(q, k, |q.scans[k]|).exceeded
    ensures IsScan(q.scans[k], q.roots[k])
    ensures HasTimeout(After(q, k + 1, 0)) <==> HasTimeout(After(q, k, 0)) || VerdictOf(q, k) == TimedOut
  {
    EndIsPublished(q, k);
    var before, after := After(q, k, 0), After(q, k + 1, 0);
    assert after.output == After(q, k, |q.scans[k]|).output;
    var last := HostFinished(q.scans[k][|q.scans[k]| - 1].host, VerdictOf(q, k));
    assert forall m :: Verdict(m, after) <==> Verdict(m, before) || m == last;
    assert Verdict(last, after);
  }

  /** As long as the limit is kept, the published verdicts are the locations' own. */
  lemma {:induction false} VerdictsAreTheScans(q: Request, k: nat)
    requires AllScans(q) && k <= |q.scans| && Repositories(q, k) <= q.maxResults
    ensures HasTimeout(After(q, k, 0)) == TimesOutBefore(q, k)
    decreases k
  {
    if k > 0 {
      RepositoriesGrow(q, k - 1, k);
      VerdictsAreTheScans(q, k - 1);
      FirstRepositories(q, k - 1, |q.scans[k - 1]|);
      TimeoutIsPublished(q, k - 1);
      TimeoutsGrow(q, k - 1);
    }
  }

  /** The publication ends at the location that passes the limit, if there is one. */
  lemma {:induction false} WhereItEnds(q: Request, i: nat) returns (k: nat)
    requires AllScans(q) && i <= |q.scans| && Repositories(q, i) <= q.maxResults
    ensures i <= k <= |q.scans| && Repositories(q, k) <= q.maxResults
    ensures k < |q.scans| ==> PassesLimit(q, k) && FinalFrom(q, i) == After(q, k, |q.scans[k]|) && FinalFrom(q, i).exceeded
    ensures k == |q.scans| ==> FinalFrom(q, i) == After(q, k, 0) && !FinalFrom(q, i).exceeded
    decreases |q.scans| - i
  {
    k := i;
    if i < |q.scans| {
      FirstRepositories(q, i, |q.scans[i]|);
      if !After(q, i, |q.scans[i]|).exceeded {
        k := WhereItEnds(q, i + 1);
      }
    } else {
      FirstRepositories(q, i, 0);
    }
  }

  /** The completion of a run is the worst verdict it publishes, exactly unless the request
      passes its result limit at some location and an earlier location ends in a timeout. */
  lemma {:induction false} WhenTheVerdictIsTheWorst(q: Request)
    requires AllScans(q)
    ensures IsWorst(Outcome(FinalFrom(q, 0)), FinalFrom(q, 0)) <==> !(exists k: nat :: PassesLimit(q, k) && TimesOutBefore(q, k))
  {
    var k := WhereItEnds(q, 0);
    if k < |q.scans| {
      forall other: nat | PassesLimit(q, other) ensures other == k {
        if other < k { PassesOnce(q, other, k); }
        if k < other { PassesOnce(q, k, other); }
      }
      WhereItPasses(q, k);
    } else {
      forall other: nat ensures !PassesLimit(q, other) {
        if other < k { RepositoriesGrow(q, other + 1, k); }
      }
      OverallIsTheWorst(q, k, 0);
    }
  }

  lemma PassesOnce(q: Request, k: nat, other: nat)
    requires PassesLimit(q, k) && k < other
    ensures !PassesLimit(q, other)
  {
    if other < |q.scans| { RepositoriesGrow(q, k + 1, other); }
  }

  lemma WhereItPasses(q: Request, k: nat)
    requires AllScans(q) && PassesLimit(q, k) && After(q, k, |q.scans[k]|).exceeded
    ensures var p := After(q, k, |q.scans[k]|); IsWorst(Outcome(p), p) <==> !TimesOutBefore(q, k)
  {
    OutcomeIsTheWorst(q, k);
    EndIsPublished(q, k);
    VerdictsAreTheScans(q, k);
  }

  /** So does every run of it that nobody cancels, in what it publishes. */
  lemma {:induction false} RunsReportTheWorst(q: Request, workers: nat, run: seq<Pool>, moves: seq<Move>)
    requires IsRun(q, workers, run, moves) && workers >= 1 && Admitted(q)
    requires run[|moves|].phase == Over && forall i | 0 <= i < |moves| :: !moves[i].Cancel?
    ensures var last := run[|moves|];
      last.completion.Some? && (IsWorst(last.completion.value, last.publisher) <==> !(exists k: nat :: PassesLimit(q, k) && TimesOutBefore(q, k)))
  {
    PublicationIsDeterministic(q, workers, run, moves);
    WhenTheVerdictIsTheWorst(q);
    FinishedIsNoVerdict(FinalFrom(q, 0), run[|moves|].publisher, Outcome(FinalFrom(q, 0)));
  }

  lemma {:induction false} FinishedIsNoVerdict(p: Publisher, ended: Publisher, c: Completion)
    requires ended.output == p.output + [Finished]
    ensures IsWorst(c, ended) <==> IsWorst(c, p)
  {
    assert forall m :: Verdict(m, ended) <==> Verdict(m, p);
  }

  /** A host times out, and a later one sends two repositories where one is allowed. */
  function TimeoutThenTooMany(): Request {
    Request([[HostFinished("a", TimedOut)], [Repository("b", "/x"), Repository("b", "/y"), HostFinished("b", Complete)]], [0, 0], 1)
  }

  lemma {:induction false} TimeoutThenTooManyIsAdmitted()
    ensures Admitted(TimeoutThenTooMany())
  {
    var q := TimeoutThenTooMany();
    var second := q.scans[1];
    assert Sum(q.roots) == 0 by { assert q.roots[1..] == [0] && [0][1..] == []; }
    NoErrors(q.scans[0]);
    NoErrors(second);
    assert IsScan(q.scans[0], 0) && IsScan(second, 0);
  }

  lemma {:induction false} NoErrors(scan: seq<Message>)
    requires forall m | m in scan :: !m.RootError?
    ensures Count(scan, (m: Message) => m.RootError?) == 0
  {
    if scan != [] { NoErrors(scan[1..]); }
  }

  /** For such a request the completion says less than a verdict that was published. */
  lemma {:induction false} TheVerdictCanFallShort()
    ensures var q, timedOut := TimeoutThenTooMany(), HostFinished("a", TimedOut);
      && Admitted(q) && Outcome(FinalFrom(q, 0)) == ResultsLimit
      && Verdict(timedOut, FinalFrom(q, 0)) && Priority(timedOut.completion) > Priority(Outcome(FinalFrom(q, 0)))
  {
    var q, timedOut, x := TimeoutThenTooMany(), HostFinished("a", TimedOut), Repository("b", "/x");
    TimeoutThenTooManyIsAdmitted();
    assert After(q, 0, 1) == Publisher(0, false, TimedOut, [timedOut]);
    assert After(q, 1, 0) == Publisher(0, false, TimedOut, [timedOut]);
    assert After(q, 1, 1) == Publisher(1, false, TimedOut, [timedOut, x]);
    assert After(q, 1, 2) == Publisher(1, true, TimedOut, [timedOut, x]);
    assert After(q, 1, 3) == Publisher(1, true, TimedOut, [timedOut, x, HostFinished("b", ResultsLimit)]);
    assert FinalFrom(q, 1) == After(q, 1, 3);
    assert FinalFrom(q, 0) == FinalFrom(q, 1) && FinalFrom(q, 0).output[0] == timedOut;
  }
}
