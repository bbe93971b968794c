/** Persisted session records and orchestration groups (src/state.rs): what a record
    holds, when a whole state is valid, and how immediate failures pace a restart. */
module Records {
  import opened Common

  type SessionId = nat
  type OwnershipProof = nat
  type TmuxSessionId = nat
  type TmuxPaneId = nat
  type MembershipId = nat

  /** A moment, and a span between moments, in nanoseconds. */
  type Instant = int

  const SECOND: int := 1_000_000_000
  const DAY: int := 86_400 * SECOND
  const FAST_FAILURE_WINDOW: int := 10 * SECOND
  const RESTART_PACE: int := 30 * SECOND
  const MAX_RESTART_PACE: int := 300 * SECOND
  const IMMEDIATE_FAILURE_MEMORY: int := 3_600 * SECOND
  const MAX_IMMEDIATE_FAILURES: nat := 16
  const MAX_SESSIONS: nat := 1_024
  const MAX_GROUPS: nat := 32
  const MAX_WORKERS: nat := 64
  const MAX_STRING_BYTES: nat := 16 * 1024
  const MAX_COMMAND_BYTES: nat := 256 * 1024

  datatype SessionStatus = Creating | Running | Stopping | Ended | Removed

  datatype SessionRecord = SessionRecord(
    id: SessionId,
    host: string,
    target: string,
    directory: string,
    preset: Option<string>,
    herdrAgent: Option<string>,
    command: Option<string>,
    tmuxSession: Option<TmuxSessionId>,
    tmuxPane: Option<TmuxPaneId>,
    tmuxSocket: Option<string>,
    proof: Option<OwnershipProof>,
    status: SessionStatus,
    createdAt: Instant,
    lastUsedAt: Instant,
    closedAt: Option<Instant>,
    exitStatus: Option<int>,
    immediateFailures: seq<Instant>)

  datatype Capabilities = Capabilities(observeOutput: bool, openInteractive: bool, promptAgent: bool) {
    predicate IsEmpty() { !observeOutput && !openInteractive && !promptAgent }
  }

  datatype Member = Member(session: SessionId, membership: MembershipId, title: Option<string>, capabilities: Capabilities)

  datatype Group = Group(id: string, title: string, orchestrator: SessionId, workers: seq<Member>)

  datatype State = State(sessions: seq<SessionRecord>, groups: seq<Group>)

  // ---------- Finding a record ----------

  /** Where the first record of a session is, or the length when there is none. */
  function Position(sessions: seq<SessionRecord>, id: SessionId): (at: nat)
    ensures at <= |sessions|
    ensures at < |sessions| ==> sessions[at].id == id
    ensures forall i | 0 <= i < at :: sessions[i].id != id
  {
    if sessions == [] || sessions[0].id == id then 0 else 1 + Position(sessions[1..], id)
  }

  function Lookup(sessions: seq<SessionRecord>, id: SessionId): (found: Option<SessionRecord>)
    ensures found.Some? ==> found.value.id == id && found.value in sessions
    ensures found.None? ==> forall r | r in sessions :: r.id != id
  {
    var at := Position(sessions, id);
    if at < |sessions| then Some(sessions[at]) else None
  }

  // ---------- Validation ----------

  /** Whether a character is Unicode white space, which trimming removes. */
  predicate IsWhitespace(c: char) {
    var code := c as int;
    0x9 <= code <= 0xD || code == 0x20 || code == 0x85 || code == 0xA0 || code == 0x1680 ||
    0x2000 <= code <= 0x200A || code == 0x2028 || code == 0x2029 || code == 0x202F ||
    code == 0x205F || code == 0x3000
  }

  function Utf8Width(c: char): nat {
    var code := c as int;
    if code < 0x80 then 1 else if code < 0x800 then 2 else if code < 0x10000 then 3 else 4
  }

  function ByteLength(s: string): nat {
    if s == "" then 0 else Utf8Width(s[0]) + ByteLength(s[1..])
  }

  predicate ValidText(s: string) {
    (exists i | 0 <= i < |s| :: !IsWhitespace(s[i])) && ByteLength(s) <= MAX_STRING_BYTES
  }

  predicate IsClosed(status: SessionStatus) { status.Ended? || status.Removed? }

  /** What one record must satisfy on its own. */
  predicate ValidRecord(r: SessionRecord) {
    && ValidText(r.host) && ValidText(r.target) && ValidText(r.directory)
    && (r.preset.Some? ==> ValidText(r.preset.value))
    && (r.tmuxSocket.Some? ==> ValidText(r.tmuxSocket.value))
    && r.createdAt <= r.lastUsedAt
    && (r.closedAt.Some? <==> IsClosed(r.status))
    && (r.closedAt.Some? ==> r.createdAt <= r.closedAt.value)
    && (r.exitStatus.Some? ==> IsClosed(r.status))
    && |r.immediateFailures| <= MAX_IMMEDIATE_FAILURES
    && (r.command.Some? ==> r.command.value != "" && ByteLength(r.command.value) <= MAX_COMMAND_BYTES)
  }

  function RecordId(r: SessionRecord): SessionId { r.id }

  function GroupId(g: Group): string { g.id }

  function MemberSession(m: Member): SessionId { m.session }

  ghost predicate UniqueIds(sessions: seq<SessionRecord>) {
    Distinct(Map(sessions, RecordId))
  }

  /** Where ids are unique, a record is the one its id finds. */
  lemma {:induction false} FoundAlone(sessions: seq<SessionRecord>, r: SessionRecord)
    requires UniqueIds(sessions) && r in sessions
    ensures Lookup(sessions, r.id) == Some(r)
  {
    var at := Position(sessions, r.id);
    var k :| 0 <= k < |sessions| && sessions[k] == r;
    var ids := Map(sessions, RecordId);
    assert ids[at] == sessions[at].id && ids[k] == sessions[k].id;
  }

  function MemberEpoch(m: Member): MembershipId { m.membership }

  /** Every membership a sequence of groups declares, in order. */
  function Memberships(groups: seq<Group>): seq<MembershipId> {
    if groups == [] then [] else Map(groups[0].workers, MemberEpoch) + Memberships(groups[1..])
  }

  /** What one group must satisfy on its own. */
  ghost predicate ValidGroup(g: Group) {
    && |g.workers| <= MAX_WORKERS
    && (forall m | m in g.workers :: m.session != g.orchestrator && !m.capabilities.IsEmpty())
    && Distinct(Map(g.workers, MemberSession))
  }

  ghost predicate Valid(s: State) {
    && |s.sessions| <= MAX_SESSIONS
    && |s.groups| <= MAX_GROUPS
    && UniqueIds(s.sessions)
    && (forall r | r in s.sessions :: ValidRecord(r))
    && Distinct(Map(s.groups, GroupId))
    && (forall g | g in s.groups :: ValidGroup(g))
    && Distinct(Memberships(s.groups))
  }

  // ---------- Immediate failures and restart pacing ----------

  /** Whether the end this record describes arrived as soon as it started. */
  predicate EndedImmediately(r: SessionRecord) {
    && r.status == Ended
    && r.exitStatus.Some? && r.exitStatus.value != 0
    && r.closedAt.Some?
    && 0 < r.closedAt.value - r.lastUsedAt <= FAST_FAILURE_WINDOW
  }

  /** The recorded failures that are still inside the memory window at `now`. */
  function Remembered(failures: seq<Instant>, now: Instant): seq<Instant> {
    Filter(failures, (at: Instant) => at >= now - IMMEDIATE_FAILURE_MEMORY)
  }

  function ImmediateFailureRun(r: SessionRecord, now: Instant): nat {
    var recorded := |Remembered(r.immediateFailures, now)|;
    if EndedImmediately(r) && recorded == 0 then 1 else recorded
  }

  function Pow2(n: nat): nat {
    if n == 0 then 1 else 2 * Pow2(n - 1)
  }

  function Min(a: int, b: int): int { if a < b then a else b }

  /** How long the next restart is held: the doubling is capped before it is multiplied. */
  function RestartPace(r: SessionRecord, now: Instant): int {
    var run := ImmediateFailureRun(r, now);
    var repeats := Min(if run == 0 then 0 else run - 1, 16);
    Min(RESTART_PACE * Pow2(repeats), MAX_RESTART_PACE)
  }

  function PacedRestartUntil(r: SessionRecord, now: Instant): Option<Instant> {
    if r.closedAt.Some? && EndedImmediately(r) then Some(r.closedAt.value + RestartPace(r, now)) else None
  }

  predicate FailedImmediately(r: SessionRecord, now: Instant) {
    PacedRestartUntil(r, now).Some?
  }

  /** The record with its latest immediate failure added, pruned and capped. */
  function NoteImmediateFailure(r: SessionRecord, now: Instant): (noted: SessionRecord)
    ensures |noted.immediateFailures| <= MAX_IMMEDIATE_FAILURES
  {
    var history := Remembered(r.immediateFailures, now) + [r.closedAt.GetOr(now)];
    var excess := if |history| <= MAX_IMMEDIATE_FAILURES then 0 else |history| - MAX_IMMEDIATE_FAILURES;
    r.(immediateFailures := history[excess..])
  }

  /** Noting an end keeps what is inside the memory window, with the new end last; only the
      oldest of more than sixteen are dropped, and nothing else of the record changes. */
  lemma NotingKeepsTheNewest(r: SessionRecord, now: Instant)
    ensures var noted := NoteImmediateFailure(r, now); var kept := noted.immediateFailures;
      && noted.(immediateFailures := r.immediateFailures) == r
      && 0 < |kept| <= MAX_IMMEDIATE_FAILURES && kept[|kept| - 1] == r.closedAt.GetOr(now)
      && (exists dropped :: dropped + kept == Remembered(r.immediateFailures, now) + [r.closedAt.GetOr(now)]
            && (dropped != [] ==> |kept| == MAX_IMMEDIATE_FAILURES))
  {
    var history := Remembered(r.immediateFailures, now) + [r.closedAt.GetOr(now)];
    var kept := NoteImmediateFailure(r, now).immediateFailures;
    var dropped := history[..|history| - |kept|];
    assert dropped + kept == history;
  }

  lemma {:induction false} Pow2Grows(m: nat, n: nat)
    requires m <= n
    ensures Pow2(m) <= Pow2(n)
    decreases n
  {
    if m < n { Pow2Grows(m, n - 1); }
  }

  /** The wait that a run of failures earns: doubling from thirty seconds, held at five minutes. */
  function EarnedPace(run: nat): int
    requires run >= 1
  {
    Min(MAX_RESTART_PACE, RESTART_PACE * Pow2(run - 1))
  }

  /** The wait is the uncapped doubling held at five minutes, and the capped
      arithmetic that computes it stays inside the widths it is done in. */
  lemma PaceIsCappedDoubling(r: SessionRecord, now: Instant)
    requires EndedImmediately(r)
    ensures ImmediateFailureRun(r, now) >= 1
    ensures PacedRestartUntil(r, now) == Some(r.closedAt.value + EarnedPace(ImmediateFailureRun(r, now)))
    ensures var repeats := Min(ImmediateFailureRun(r, now) - 1, 16);
      && Pow2(repeats) <= 0x7FFF_FFFF
      && RESTART_PACE * Pow2(repeats) <= 1_000_000 * 0x7FFF_FFFF_FFFF_FFFF
  {
    var run := ImmediateFailureRun(r, now);
    assert Pow2(4) == 16;
    assert Pow2(8) == 256 by { assert Pow2(6) == 64; }
    assert Pow2(12) == 4096 by { assert Pow2(10) == 1024; }
    assert Pow2(16) == 65536 by { assert Pow2(14) == 16384; }
    if run - 1 <= 16 {
      Pow2Grows(run - 1, 16);
    } else {
      Pow2Grows(16, run - 1);
    }
  }

  lemma PaceGrowsWithTheRun(shorter: nat, longer: nat)
    requires 1 <= shorter <= longer
    ensures EarnedPace(shorter) <= EarnedPace(longer)
  {
    Pow2Grows(shorter - 1, longer - 1);
  }

  lemma {:induction false} MemoryFades(failures: seq<Instant>, earlier: Instant, later: Instant)
    requires earlier <= later
    ensures |Remembered(failures, later)| <= |Remembered(failures, earlier)|
  {
    if failures != [] {
      MemoryFades(failures[1..], earlier, later);
    }
  }

  /** For a record nobody rewrites, waiting never lengthens the wait, so a pace that
      has lapsed never takes hold again. */
  lemma LapsedPaceNeverReturns(r: SessionRecord, earlier: Instant, later: Instant)
    requires earlier <= later
    ensures PacedRestartUntil(r, earlier).Some? <==> PacedRestartUntil(r, later).Some?
    ensures PacedRestartUntil(r, earlier).Some? ==>
      && PacedRestartUntil(r, later).value <= PacedRestartUntil(r, earlier).value
      && (PacedRestartUntil(r, earlier).value <= earlier ==> PacedRestartUntil(r, later).value <= later)
  {
    if EndedImmediately(r) {
      MemoryFades(r.immediateFailures, earlier, later);
      var before, after := ImmediateFailureRun(r, earlier), ImmediateFailureRun(r, later);
      assert after <= before;
      PaceIsCappedDoubling(r, earlier);
      PaceIsCappedDoubling(r, later);
      PaceGrowsWithTheRun(after, before);
    }
  }
}
