/** The bounded trail of committed transitions (src/audit.rs). */
module Audit {
  import opened Common
  import opened Records

  const MAX_AUDIT_ENTRIES: nat := 4_096
  const MAX_WINDOW_DAYS: nat := 0x7FFF_FFFF_FFFF_FFFF / 86_400_000

  datatype AuditAction = Create | Activate | Stop | Stopped | Restart | Observed | Reconciled | Removal

  datatype AuditEntry = AuditEntry(
    at: Instant,
    session: SessionId,
    action: AuditAction,
    from: Option<SessionStatus>,
    to: SessionStatus,
    incarnation: Option<TmuxSessionId>,
    exitStatus: Option<int>)

  function Recent(entries: seq<AuditEntry>, cutoff: Instant): seq<AuditEntry> {
    Filter(entries, (e: AuditEntry) => e.at >= cutoff)
  }

  /** Drops what is older than the window, then the oldest beyond the ceiling. */
  function RetainBounded(entries: seq<AuditEntry>, days: nat, now: Instant): (kept: seq<AuditEntry>)
    ensures |kept| <= MAX_AUDIT_ENTRIES
  {
    var recent := if days <= MAX_WINDOW_DAYS then Recent(entries, now - days * DAY) else entries;
    if |recent| > MAX_AUDIT_ENTRIES then recent[|recent| - MAX_AUDIT_ENTRIES..] else recent
  }

  ghost predicate InOrder(entries: seq<AuditEntry>) {
    forall i, j | 0 <= i < j < |entries| :: entries[i].at <= entries[j].at
  }

  lemma {:induction false} FilterRecentIsSuffix(entries: seq<AuditEntry>, cutoff: Instant) returns (dropped: nat)
    requires InOrder(entries)
    ensures dropped <= |entries|
    ensures Recent(entries, cutoff) == entries[dropped..]
  {
    if entries == [] {
      dropped := 0;
    } else if entries[0].at >= cutoff {
      AllRecentKept(entries, cutoff);
      dropped := 0;
    } else {
      var rest := FilterRecentIsSuffix(entries[1..], cutoff);
      dropped := rest + 1;
    }
  }

  lemma {:induction false} AllRecentKept(entries: seq<AuditEntry>, cutoff: Instant)
    requires forall e | e in entries :: e.at >= cutoff
    ensures Recent(entries, cutoff) == entries
  {
    if entries != [] {
      AllRecentKept(entries[1..], cutoff);
    }
  }

  /** On a trail written in order, retention only ever drops a prefix. */
  lemma RetentionDropsAPrefix(entries: seq<AuditEntry>, days: nat, now: Instant) returns (dropped: nat)
    requires InOrder(entries)
    ensures dropped <= |entries|
    ensures RetainBounded(entries, days, now) == entries[dropped..]
  {
    dropped := 0;
    var cutoff := now - days * DAY;
    assert entries[0..] == entries;
    if days <= MAX_WINDOW_DAYS {
      dropped := FilterRecentIsSuffix(entries, cutoff);
    }
    var recent := entries[dropped..];
    if |recent| > MAX_AUDIT_ENTRIES {
      var more := |recent| - MAX_AUDIT_ENTRIES;
      assert recent[more..] == entries[dropped + more..];
      dropped := dropped + more;
    }
  }
}
