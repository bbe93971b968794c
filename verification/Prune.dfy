/** Pruning closed metadata (src/lifecycle.rs, PruneService): a preview captures exact records,
    and applying it later removes those that are unchanged and still old enough. */
module Prune {
  import opened Common
  import opened Records
  import opened Tmux
  import opened Audit
  import opened Lifecycle
  import opened Validity
  import opened Store

  /** The earliest moment a clock value can name, at the start of the year -262143. */
  const EARLIEST: Instant := -8_334_601_228_800 * SECOND

  const DEFAULT_RETENTION_DAYS: nat := 30

  datatype CleanupEligibility = KeepActive | KeepUnknown | KeepRecent | RemoveMetadata

  function Eligibility(r: SessionRecord, workload: WorkloadState, now: Instant, retention: int): CleanupEligibility {
    if workload.RunningAs? then KeepActive
    else if workload.Unknown? then KeepUnknown
    else if !IsClosed(r.status) then KeepActive
    else if r.closedAt.None? || now - retention < EARLIEST then KeepRecent
    else if retention < 0 || r.closedAt.value > now - retention then KeepRecent
    else RemoveMetadata
  }

  predicate Prunable(r: SessionRecord, now: Instant, days: nat) {
    Eligibility(r, Missing, now, days * DAY).RemoveMetadata?
  }

  datatype Preview = Preview(capturedAt: Instant, days: nat, candidates: seq<SessionRecord>)

  datatype PruneResult = PruneResult(removed: seq<SessionId>, skipped: seq<SessionId>)

  datatype PruneError = RetentionTooLarge | StateFailed

  datatype Outcome<T> = Done(value: T) | Refused(error: PruneError)

  // ---------- What a prune is meant to do ----------

  /** A candidate goes when the store still holds exactly it, and it is still old enough. */
  predicate Goes(sessions: seq<SessionRecord>, snap: SessionRecord, now: Instant, days: nat) {
    Lookup(sessions, snap.id) == Some(snap) && Prunable(snap, now, days)
  }

  function Going(sessions: seq<SessionRecord>, p: Preview, now: Instant): seq<SessionId> {
    Map(Filter(p.candidates, (snap: SessionRecord) => Goes(sessions, snap, now, p.days)), RecordId)
  }

  function Staying(sessions: seq<SessionRecord>, p: Preview, now: Instant): seq<SessionId> {
    Map(Filter(p.candidates, (snap: SessionRecord) => !Goes(sessions, snap, now, p.days)), RecordId)
  }

  /** The state without some sessions, in the order it had. */
  function Pruned(s: State, removed: set<SessionId>): State {
    State(Filter(s.sessions, (r: SessionRecord) => r.id !in removed), WithoutMembers(s.groups, removed))
  }

  // ---------- The loops ----------

  method RetainSessions(sessions: seq<SessionRecord>, removed: set<SessionId>) returns (kept: seq<SessionRecord>)
    ensures kept == Filter(sessions, (r: SessionRecord) => r.id !in removed)
  {
    kept := [];
    for i := 0 to |sessions|
      invariant kept == Filter(sessions[..i], (r: SessionRecord) => r.id !in removed)
    {
      FilterGrows(sessions, i, (r: SessionRecord) => r.id !in removed);
      if sessions[i].id !in removed {
        kept := kept + [sessions[i]];
      }
    }
    assert sessions[..|sessions|] == sessions;
  }

  /** First the groups whose orchestrator went, then in each other group the workers that went. */
  method ReconcileGroups(groups: seq<Group>, removed: set<SessionId>) returns (kept: seq<Group>)
    ensures kept == WithoutMembers(groups, removed)
  {
    var led: seq<Group> := [];
    for i := 0 to |groups|
      invariant led == Filter(groups[..i], (g: Group) => g.orchestrator !in removed)
    {
      FilterGrows(groups, i, (g: Group) => g.orchestrator !in removed);
      if groups[i].orchestrator !in removed {
        led := led + [groups[i]];
      }
    }
    assert groups[..|groups|] == groups;
    kept := [];
    for i := 0 to |led|
      invariant kept == Map(led[..i], (g: Group) => g.(workers := Filter(g.workers, (m: Member) => m.session !in removed)))
    {
      var workers: seq<Member> := [];
      var all := led[i].workers;
      for k := 0 to |all|
        invariant workers == Filter(all[..k], (m: Member) => m.session !in removed)
      {
        FilterGrows(all, k, (m: Member) => m.session !in removed);
        if all[k].session !in removed {
          workers := workers + [all[k]];
        }
      }
      assert all[..|all|] == all;
      MapGrows(led, i, (g: Group) => g.(workers := Filter(g.workers, (m: Member) => m.session !in removed)));
      kept := kept + [led[i].(workers := workers)];
    }
    assert led[..|led|] == led;
  }

  /** How a loop that looks at one more record extends the ids it kept. */
  lemma {:induction false} IdsGrow(s: seq<SessionRecord>, i: nat, keep: SessionRecord -> bool)
    requires i < |s|
    ensures Map(Filter(s[..i + 1], keep), RecordId) == Map(Filter(s[..i], keep), RecordId) + (if keep(s[i]) then [s[i].id] else [])
  {
    FilterGrows(s, i, keep);
  }

  /** Looks each candidate up in the store as it is now. */
  method Decide(sessions: seq<SessionRecord>, preview: Preview, now: Instant) returns (removed: seq<SessionId>, skipped: seq<SessionId>)
    ensures removed == Going(sessions, preview, now) && skipped == Staying(sessions, preview, now)
  {
    var candidates := preview.candidates;
    ghost var goes := (snap: SessionRecord) => Goes(sessions, snap, now, preview.days);
    ghost var stays := (snap: SessionRecord) => !Goes(sessions, snap, now, preview.days);
    removed, skipped := [], [];
    for i := 0 to |candidates|
      invariant removed == Map(Filter(candidates[..i], goes), RecordId)
      invariant skipped == Map(Filter(candidates[..i], stays), RecordId)
    {
      var snap := candidates[i];
      IdsGrow(candidates, i, goes);
      IdsGrow(candidates, i, stays);
      var found := Lookup(sessions, snap.id);
      if found.Some? && found.value == snap && Prunable(found.value, now, preview.days) {
        removed := removed + [snap.id];
      } else {
        skipped := skipped + [snap.id];
      }
    }
    assert candidates[..|candidates|] == candidates;
  }

  method CollectExpired(sessions: seq<SessionRecord>, now: Instant) returns (removed: seq<SessionId>)
    ensures removed == Expired(sessions, now)
  {
    removed := [];
    for i := 0 to |sessions|
      invariant removed == Expired(sessions[..i], now)
    {
      IdsGrow(sessions, i, (r: SessionRecord) => HasExpired(r, now));
      if sessions[i].status == Removed && Prunable(sessions[i], now, DEFAULT_RETENTION_DAYS) {
        removed := removed + [sessions[i].id];
      }
    }
    assert sessions[..|sessions|] == sessions;
  }

  class PruneService {
    const store: StateStore

    constructor (store: StateStore)
      ensures this.store == store
    {
      this.store := store;
    }

    /** Captures the records that are old enough at one instant, and changes nothing. */
    method PreviewAt(days: nat, capturedAt: Instant, unreadable: bool) returns (preview: Outcome<Preview>)
      ensures preview ==
        if days > MAX_WINDOW_DAYS then Refused(RetentionTooLarge)
        else if unreadable then Refused(StateFailed)
        else Done(Preview(capturedAt, days, Filter(store.state.sessions, (r: SessionRecord) => Prunable(r, capturedAt, days))))
    {
      if days > MAX_WINDOW_DAYS {
        return Refused(RetentionTooLarge);
      }
      var loaded := store.Load(unreadable);
      if loaded.None? {
        return Refused(StateFailed);
      }
      var sessions := loaded.value.sessions;
      var candidates: seq<SessionRecord> := [];
      for i := 0 to |sessions|
        invariant candidates == Filter(sessions[..i], (r: SessionRecord) => Prunable(r, capturedAt, days))
      {
        FilterGrows(sessions, i, (r: SessionRecord) => Prunable(r, capturedAt, days));
        if Prunable(sessions[i], capturedAt, days) {
          candidates := candidates + [sessions[i]];
        }
      }
      assert sessions[..|sessions|] == sessions;
      return Done(Preview(capturedAt, days, candidates));
    }

    /** Retains the other records, reconciles the groups, and saves. */
    method Forget(s: State, removed: seq<SessionId>, c: WriteChance) returns (ok: bool)
      requires s == store.state
      modifies store
      ensures store.state == s || store.state == Pruned(s, Elements(removed))
      ensures ok ==> store.state == Pruned(s, Elements(removed))
      ensures Valid(s) ==> Valid(store.state)
      ensures Valid(s) && !c.fails ==> ok
      ensures !c.fails && !ok ==> store.state == s
    {
      var gone := Elements(removed);
      var sessions := RetainSessions(s.sessions, gone);
      var groups := ReconcileGroups(s.groups, gone);
      PruningKeepsValid(s, gone);
      ok := store.Save(State(sessions, groups), c);
    }

    /** Under one lock: loads, decides about each candidate, removes, reconciles, and saves.
        From a valid state only the file system can make it fail, and a failure leaves either
        the old state or the whole new one. */
    method Apply(preview: Preview, now: Instant, unreadable: bool, c: WriteChance) returns (result: Outcome<PruneResult>)
      modifies store
      ensures preview.days > MAX_WINDOW_DAYS ==> result == Refused(RetentionTooLarge) && store.state == old(store.state)
      ensures var before := old(store.state); var going := Going(before.sessions, preview, now);
        && (result.Done? ==>
              && result.value == PruneResult(going, Staying(before.sessions, preview, now))
              && store.state == Pruned(before, Elements(going)))
        && (result.Refused? ==> store.state == before || (c.fails && store.state == Pruned(before, Elements(going))))
      ensures Valid(old(store.state)) ==> Valid(store.state)
      ensures Valid(old(store.state)) && preview.days <= MAX_WINDOW_DAYS && !unreadable && !c.fails ==> result.Done?
    {
      if preview.days > MAX_WINDOW_DAYS {
        return Refused(RetentionTooLarge);
      }
      var loaded := store.Load(unreadable);
      if loaded.None? {
        return Refused(StateFailed);
      }
      var removed, skipped := Decide(loaded.value.sessions, preview, now);
      var saved := Forget(loaded.value, removed, c);
      return if saved then Done(PruneResult(removed, skipped)) else Refused(StateFailed);
    }

    /** Drops finalized removed metadata that is older than the default retention. */
    method AutomaticCleanupAt(now: Instant, unreadable: bool, c: WriteChance) returns (result: Outcome<seq<SessionId>>)
      modifies store
      ensures var before := old(store.state); var going := Expired(before.sessions, now);
        && (result.Done? ==> result.value == going && store.state == Pruned(before, Elements(going)))
        && (result.Refused? ==> store.state == before || (c.fails && store.state == Pruned(before, Elements(going))))
      ensures Valid(old(store.state)) ==> Valid(store.state)
      ensures Valid(old(store.state)) && !unreadable && !c.fails ==> result.Done?
    {
      var loaded := store.Load(unreadable);
      if loaded.None? {
        return Refused(StateFailed);
      }
      var removed := CollectExpired(loaded.value.sessions, now);
      var saved := Forget(loaded.value, removed, c);
      return if saved then Done(removed) else Refused(StateFailed);
    }
  }

  predicate HasExpired(r: SessionRecord, now: Instant) {
    r.status == Removed && Prunable(r, now, DEFAULT_RETENTION_DAYS)
  }

  function Expired(sessions: seq<SessionRecord>, now: Instant): seq<SessionId> {
    Map(Filter(sessions, (r: SessionRecord) => HasExpired(r, now)), RecordId)
  }

  /** Taking any sessions out of a valid state, and out of its groups, leaves a valid one. */
  lemma {:induction false} PruningKeepsValid(s: State, removed: set<SessionId>)
    ensures Valid(s) ==> Valid(Pruned(s, removed))
  {
    if Valid(s) {
      FilterKeepsDistinct(s.sessions, (r: SessionRecord) => r.id !in removed, RecordId);
      ForgettingKeepsGroups(s.groups, removed);
    }
  }

  // ---------- What it means ----------

  lemma {:induction false} Among(s: seq<SessionRecord>, id: SessionId)
    ensures id in Map(s, RecordId) <==> exists r :: r in s && r.id == id
  {
    var ids := Map(s, RecordId);
    if id in ids {
      var i :| 0 <= i < |ids| && ids[i] == id;
      assert s[i] in s && s[i].id == id;
    }
    forall i | 0 <= i < |s| ensures s[i].id in ids {
      assert ids[i] == s[i].id;
    }
  }

  lemma {:induction false} Splits(s: seq<SessionRecord>, keep: SessionRecord -> bool, drop: SessionRecord -> bool)
    requires forall r | r in s :: keep(r) <==> !drop(r)
    ensures multiset(Map(Filter(s, keep), RecordId)) + multiset(Map(Filter(s, drop), RecordId)) == multiset(Map(s, RecordId))
  {
    if s != [] {
      Splits(s[1..], keep, drop);
      assert Map(s, RecordId) == [s[0].id] + Map(s[1..], RecordId);
      var kept, dropped := Filter(s[1..], keep), Filter(s[1..], drop);
      assert Map([s[0]] + kept, RecordId) == [s[0].id] + Map(kept, RecordId);
      assert Map([s[0]] + dropped, RecordId) == [s[0].id] + Map(dropped, RecordId);
    }
  }

  /** Applying a preview to a valid state reports every candidate once, as removed or as
      skipped; the records that go are exactly the candidates the store still holds unchanged
      and old enough; every other record stays, in order; and no group names one that went. */
  lemma {:induction false} ApplyPartitions(s: State, p: Preview, now: Instant)
    requires Valid(s)
    ensures var going := Going(s.sessions, p, now); var after := Pruned(s, Elements(going));
      && multiset(going) + multiset(Staying(s.sessions, p, now)) == multiset(Map(p.candidates, RecordId))
      && after.sessions == Filter(s.sessions, (r: SessionRecord) => !(r in p.candidates && Prunable(r, now, p.days)))
      && (forall g, id | g in after.groups && id in going :: !Names(g, id))
      && Valid(after)
  {
    var going := Going(s.sessions, p, now);
    Splits(p.candidates, (snap: SessionRecord) => Goes(s.sessions, snap, now, p.days), (snap: SessionRecord) => !Goes(s.sessions, snap, now, p.days));
    forall r | r in s.sessions ensures r.id in going <==> r in p.candidates && Prunable(r, now, p.days) {
      FoundAlone(s.sessions, r);
      Among(Filter(p.candidates, (snap: SessionRecord) => Goes(s.sessions, snap, now, p.days)), r.id);
    }
    FilterAgrees(s.sessions, (r: SessionRecord) => r.id !in Elements(going), (r: SessionRecord) => !(r in p.candidates && Prunable(r, now, p.days)));
    PruningKeepsValid(s, Elements(going));
    ForgettingKeepsGroups(s.groups, Elements(going));
  }

  /** Whoever changed a candidate after the preview keeps it, even if it is old enough. */
  lemma {:induction false} ChangedCandidatesStay(s: State, p: Preview, now: Instant, r: SessionRecord)
    requires Valid(s) && r in s.sessions && r !in p.candidates
    ensures r in Pruned(s, Elements(Going(s.sessions, p, now))).sessions
  {
    ApplyPartitions(s, p, now);
  }

  /** The automatic cleanup takes exactly the removed records past their retention, keeps the
      rest in order, and has nothing left to do if it runs again at that moment. */
  lemma {:induction false} CleanupTakesOnlyTheRemoved(s: State, now: Instant)
    requires Valid(s)
    ensures var after := Pruned(s, Elements(Expired(s.sessions, now)));
      && after.sessions == Filter(s.sessions, (r: SessionRecord) => !HasExpired(r, now))
      && (forall r | r in s.sessions && r.status != Removed :: r in after.sessions)
      && Expired(after.sessions, now) == []
      && Pruned(after, Elements(Expired(after.sessions, now))).sessions == after.sessions
      && Valid(after)
  {
    var going := Expired(s.sessions, now);
    forall r | r in s.sessions ensures r.id in going <==> HasExpired(r, now) {
      FoundAlone(s.sessions, r);
      Among(Filter(s.sessions, (r: SessionRecord) => HasExpired(r, now)), r.id);
      forall other | other in s.sessions && other.id == r.id ensures other == r { FoundAlone(s.sessions, other); }
    }
    FilterAgrees(s.sessions, (r: SessionRecord) => r.id !in Elements(going), (r: SessionRecord) => !HasExpired(r, now));
    PruningKeepsValid(s, Elements(going));
    var after := Pruned(s, Elements(going));
    FilterNone(after.sessions, (r: SessionRecord) => HasExpired(r, now));
    FilterAll(after.sessions, (r: SessionRecord) => r.id !in Elements(Expired(after.sessions, now)));
  }

  lemma {:induction false} FilterNone<T(!new)>(s: seq<T>, keep: T -> bool)
    requires forall x | x in s :: !keep(x)
    ensures Filter(s, keep) == []
  {
    if s != [] {
      FilterNone(s[1..], keep);
    }
  }

  lemma {:induction false} FilterAll<T(!new)>(s: seq<T>, keep: T -> bool)
    requires forall x | x in s :: keep(x)
    ensures Filter(s, keep) == s
  {
    if s != [] {
      FilterAll(s[1..], keep);
    }
  }
}
