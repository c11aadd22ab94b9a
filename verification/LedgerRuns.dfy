/**
 * What holds over whole runs of the ledger: any interleaving of `begin`, `update` and process restarts on any
 * keys, with the environment's windows free to differ from call to call.
 */
module LedgerRuns {
  import opened Wrappers
  import opened Text
  import opened Answers
  import opened Ledger

  datatype Event =
    | Begin(ctx: Context, now: int, w: Windows)
    | Update(key: Key, patch: Patch, now: int)
    | Restart(runtime: string)

  datatype State = State(rows: Rows, runtime: string)

  function Step(s: State, e: Event): State {
    match e
    case Begin(ctx, now, w) => s.(rows := AfterBegin(s.rows, ctx, s.runtime, now, w))
    case Update(key, patch, now) => s.(rows := AfterUpdate(s.rows, key, patch, now))
    case Restart(runtime) => s.(runtime := runtime)
  }

  function After(s: State, es: seq<Event>): State {
    if es == [] then s else Step(After(s, es[..|es| - 1]), es[|es| - 1])
  }

  predicate Grants(s: State, e: Event, k: Key) {
    e.Begin? && e.ctx.key == k && Executes(BeginOn(s.rows, e.ctx, s.runtime, e.now, e.w).branch)
  }

  /** The one step that may forget an unsent row's history: a failed internal row taken over by another request. */
  predicate Overrides(s: State, e: Event, k: Key) {
    e.Begin? && e.ctx.key == k && BeginOn(s.rows, e.ctx, s.runtime, e.now, e.w).branch == CollisionOverride
  }

  // ---- Facts that never revert -------------------------------------------------------------------

  /** What a later row must still say about an earlier one of the same key. */
  predicate Absorbs(before: Record, after: Record) {
    && (before.sent ==>
          && after.sent
          && after.requestHash == before.requestHash
          && after.createdAt == before.createdAt
          && UrlRank(UrlOf(after)) >= UrlRank(UrlOf(before))
          && (IsThread(UrlOf(before)) ==> UrlOf(after) == UrlOf(before)))
    && (before.status == Completed ==> after.status == Completed)
  }

  /** What it must also say as long as no step overrides the row: the request stays, and the URL never gets worse. */
  predicate Keeps(before: Record, after: Record) {
    && after.requestHash == before.requestHash
    && after.createdAt == before.createdAt
    && UrlRank(UrlOf(after)) >= UrlRank(UrlOf(before))
    && (IsThread(UrlOf(before)) ==> UrlOf(after) == UrlOf(before))
  }

  lemma NextUrlKeeps(stored: Option<string>, wanted: Option<string>)
    ensures var was, is_ := Strip(stored.GetOr("")), Strip(NextUrl(stored, wanted).GetOr(""));
            UrlRank(is_) >= UrlRank(was) && (IsThread(was) ==> is_ == was)
  {
  }

  lemma StepAbsorbs(s: State, e: Event, k: Key)
    requires k in s.rows
    ensures k in Step(s, e).rows
    ensures Absorbs(s.rows[k], Step(s, e).rows[k])
    ensures !Overrides(s, e, k) ==> Keeps(s.rows[k], Step(s, e).rows[k])
  {
    hide Strip, StartsWith, Lower, IsBlank, NextUrl, NextResult, IsThread;
    match e
    case Begin(_, _, _) =>
    case Update(_, p, _) => NextUrlKeeps(s.rows[k].url, p.url);
    case Restart(_) =>
  }

  /** The step at position `i` of a run, seen from the state the run has reached there. */
  predicate OverriddenAt(s: State, es: seq<Event>, k: Key, i: nat)
    requires i < |es|
  {
    Overrides(After(s, es[..i]), es[i], k)
  }

  predicate NeverOverridden(s: State, es: seq<Event>, k: Key) {
    forall i | 0 <= i < |es| :: !OverriddenAt(s, es, k, i)
  }

  lemma OverriddenPrefix(s: State, es: seq<Event>, k: Key)
    requires es != [] && NeverOverridden(s, es, k)
    ensures NeverOverridden(s, es[..|es| - 1], k)
    ensures !Overrides(After(s, es[..|es| - 1]), es[|es| - 1], k)
  {
    var front := es[..|es| - 1];
    forall i | 0 <= i < |front|
      ensures !OverriddenAt(s, front, k, i)
    {
      assert front[..i] == es[..i];
      assert !OverriddenAt(s, es, k, i);
    }
    assert !OverriddenAt(s, es, k, |es| - 1);
  }

  /**
   * Over every run and for every key already present: a sent prompt stays sent, its request and its
   * conversation thread are frozen, and a completed row stays completed. Without an override the request is
   * frozen even before the send, and the URL never falls back from thread to page to nothing.
   */
  lemma {:induction false} RunAbsorbs(s: State, es: seq<Event>, k: Key)
    requires k in s.rows
    ensures k in After(s, es).rows
    ensures Absorbs(s.rows[k], After(s, es).rows[k])
    ensures NeverOverridden(s, es, k) ==> Keeps(s.rows[k], After(s, es).rows[k])
  {
    if es != [] {
      var front := es[..|es| - 1];
      RunAbsorbs(s, front, k);
      StepAbsorbs(After(s, front), es[|es| - 1], k);
      if NeverOverridden(s, es, k) {
        OverriddenPrefix(s, es, k);
      }
    }
  }

  predicate Touches(e: Event, k: Key) {
    (e.Begin? && e.ctx.key == k) || (e.Update? && e.key == k)
  }

  /** A row is changed only by calls that name its key. */
  lemma {:induction false} OtherKeysUntouched(s: State, es: seq<Event>, k: Key)
    requires forall i | 0 <= i < |es| :: !Touches(es[i], k)
    ensures Lookup(After(s, es).rows, k) == Lookup(s.rows, k)
  {
    if es != [] {
      OtherKeysUntouched(s, es[..|es| - 1], k);
    }
  }

  // ---- Leases ------------------------------------------------------------------------------------

  /** An update after which the row is on record as failed before sending. */
  predicate RecordsFailure(s: State, e: Event, k: Key) {
    && e.Update? && e.key == k && k in s.rows
    && var r := Step(s, e).rows[k];
       !r.sent && IsFailure(r.status)
  }

  function TimeOf(e: Event, otherwise: int): int {
    match e
    case Begin(_, now, _) => now
    case Update(_, _, now) => now
    case Restart(_) => otherwise
  }

  predicate NotBefore(es: seq<Event>, from: int) {
    forall i | 0 <= i < |es| :: from <= TimeOf(es[i], from)
  }

  /** Since a permission at time `from`: the row is there, was written no earlier, and is not free through failure. */
  predicate Leased(s: State, k: Key, from: int) {
    && k in s.rows
    && s.rows[k].updatedAt >= from
    && (s.rows[k].sent || !IsFailure(s.rows[k].status))
  }

  predicate FailureAt(s: State, es: seq<Event>, k: Key, i: nat)
    requires i < |es|
  {
    RecordsFailure(After(s, es[..i]), es[i], k)
  }

  lemma LeaseStep(s: State, e: Event, k: Key, from: int)
    requires Leased(s, k, from) && from <= TimeOf(e, from) && !RecordsFailure(s, e, k)
    ensures Leased(Step(s, e), k, from)
  {
  }

  lemma {:induction false} LeaseHolds(s: State, es: seq<Event>, k: Key, from: int)
    requires Leased(s, k, from)
    requires NotBefore(es, from)
    requires forall i | 0 <= i < |es| :: !FailureAt(s, es, k, i)
    ensures Leased(After(s, es), k, from)
  {
    if es != [] {
      var n := |es| - 1;
      var front := es[..n];
      forall i | 0 <= i < n
        ensures !FailureAt(s, front, k, i)
      {
        assert front[..i] == es[..i];
        assert !FailureAt(s, es, k, i);
      }
      LeaseHolds(s, front, k, from);
      assert !FailureAt(s, es, k, n);
      LeaseStep(After(s, front), es[n], k, from);
    }
  }

  predicate LeaseRanOut(r: Record, k: Key, runtime: string, now: int, since: int) {
    && since <= r.updatedAt
    && now - r.updatedAt >= (if IsBlankRecord(r) then 15 else 30) * SECOND
    && (IsBlankRecord(r) ==> Internal(k) && (OwnedBy(r, runtime) ==> SameRuntimeReclaim(k)))
  }

  lemma PermissionOnLease(t: State, e: Event, k: Key, from: int)
    requires e.Begin? && Grants(t, e, k) && Leased(t, k, from) && 0 < from
    ensures t.rows[k].requestHash == e.ctx.requestHash
    ensures LeaseRanOut(t.rows[k], k, t.runtime, e.now, from)
  {
    hide Strip, StartsWith, Lower;
    BeginExecutesExactlyWhenOpen(t.rows, e.ctx, t.runtime, e.now, e.w);
  }

  /**
   * Two permissions for one key, `first` and later `second`, with any run in between whose calls read no earlier
   * time than the first: either some update in
   * between recorded a failure while the row was unsent, or the lease had to run out. Running out takes at least
   * 15 seconds for a row that shows no trace of an attempt, and then only for an internal key whose owner was
   * replaced or whose tool may reclaim from itself; it takes at least 30 seconds for any other row.
   */
  lemma {:induction false} LeaseBetweenPermissions(s: State, first: Event, between: seq<Event>, second: Event, k: Key)
    requires first.Begin? && second.Begin? && 0 < first.now
    requires Grants(s, first, k) && Grants(After(Step(s, first), between), second, k)
    requires NotBefore(between, first.now)
    ensures var t := After(Step(s, first), between);
            || (exists i | 0 <= i < |between| :: FailureAt(Step(s, first), between, k, i))
            || (&& k in t.rows && t.rows[k].requestHash == second.ctx.requestHash
                && LeaseRanOut(t.rows[k], k, t.runtime, second.now, first.now)
                && second.now - first.now >= 15 * SECOND)
  {
    if forall i | 0 <= i < |between| :: !FailureAt(Step(s, first), between, k, i) {
      PermissionLeavesCleanRow(s.rows, first.ctx, s.runtime, first.now, first.w);
      LeaseHolds(Step(s, first), between, k, first.now);
      PermissionOnLease(After(Step(s, first), between), second, k, first.now);
    }
  }

  /**
   * The bound is met exactly. A first attempt that leaves no trace, seen again by the same request at `again` from a
   * process named `later`: permission is given if and only if the key is internal, the retry window has passed, and
   * the process is another one or the tool may reclaim from itself.
   */
  lemma SecondPermissionIff(s: State, ctx: Context, first: int, w: Windows, later: string, again: int, v: Windows)
    requires ctx.key !in s.rows && first > 0
    ensures var t := Step(Step(s, Begin(ctx, first, w)), Restart(later));
            Grants(t, Begin(ctx, again, v), ctx.key) <==>
              && Internal(ctx.key)
              && again - first >= BlankRetryWindow(ctx.key, v.blankRetry)
              && (Strip(s.runtime) == "" || Strip(s.runtime) != later || SameRuntimeReclaim(ctx.key))
  {
    var t := Step(Step(s, Begin(ctx, first, w)), Restart(later));
    assert t.rows[ctx.key] == NewRow(ctx, s.runtime, first);
    BeginExecutesExactlyWhenOpen(t.rows, ctx, later, again, v);
    hide BeginOn, StartsWith, Lower, BlankRetryWindow;
  }

  /** Rows that cannot be taken from the process that owns them by waiting. */
  predicate HeldByOwner(r: Record, k: Key, runtime: string) {
    !r.sent && r.status == InProgress && IsBlankRecord(r)
    && (!Internal(k) || (OwnedBy(r, runtime) && !SameRuntimeReclaim(k)))
  }

  predicate LeavesToOwner(e: Event, k: Key) {
    !(e.Update? && e.key == k) && (e.Restart? ==> !Internal(k))
  }

  lemma HeldStep(s: State, e: Event, k: Key)
    requires k in s.rows && HeldByOwner(s.rows[k], k, s.runtime) && LeavesToOwner(e, k)
    ensures !Grants(s, e, k)
    ensures Lookup(Step(s, e).rows, k) == Some(s.rows[k])
    ensures HeldByOwner(s.rows[k], k, Step(s, e).runtime)
  {
    hide Strip, StartsWith, Lower;
    if e.Begin? {
      BeginExecutesExactlyWhenOpen(s.rows, e.ctx, s.runtime, e.now, e.w);
    }
  }

  predicate GrantedAt(s: State, es: seq<Event>, k: Key, i: nat)
    requires i < |es|
  {
    Grants(After(s, es[..i]), es[i], k)
  }

  /**
   * A blank row in progress under a key from outside, or one held by the live process under a tool that may not
   * reclaim from itself, is never handed out again by time alone: until an update names the key (or, for an
   * internal key, the process restarts), no call gets permission for it and the row does not move.
   */
  lemma {:induction false} HeldRowNeverHandedOut(s: State, es: seq<Event>, k: Key)
    requires k in s.rows && HeldByOwner(s.rows[k], k, s.runtime)
    requires forall i | 0 <= i < |es| :: LeavesToOwner(es[i], k)
    ensures Lookup(After(s, es).rows, k) == Some(s.rows[k])
    ensures HeldByOwner(s.rows[k], k, After(s, es).runtime)
    ensures forall i | 0 <= i < |es| :: !GrantedAt(s, es, k, i)
  {
    hide HeldByOwner, Grants, Step;
    if es != [] {
      var n := |es| - 1;
      var front := es[..n];
      HeldRowNeverHandedOut(s, front, k);
      HeldStep(After(s, front), es[n], k);
      forall i | 0 <= i < n
        ensures !GrantedAt(s, es, k, i)
      {
        assert front[..i] == es[..i] && front[i] == es[i];
        assert !GrantedAt(s, front, k, i);
      }
    }
  }

  // ---- Answers -----------------------------------------------------------------------------------

  function AnswerLength(r: Record): nat {
    |AnswerText(r.result)|
  }

  predicate ResultHasReference(r: Record) {
    r.result.Parsed? && HasFullAnswerReference(r.result.result)
  }

  predicate CarriesReference(e: Event, k: Key) {
    e.Update? && e.key == k && e.patch.result.Some? && HasFullAnswerReference(e.patch.result.value)
  }

  /** An update shortens the stored answer only in favour of a result that refers to a full answer. */
  lemma UpdateKeepsAnswer(r: Record, p: Patch, now: int)
    ensures AnswerLength(Updated(r, p, now)) >= AnswerLength(r) || ResultHasReference(Updated(r, p, now))
    ensures AnswerLength(Updated(r, p, now)) < AnswerLength(r) <==>
              && p.result.Some?
              && |Strip(p.result.value.answer)| < AnswerLength(r)
              && HasFullAnswerReference(p.result.value)
  {
  }

  lemma AnswerStep(s: State, e: Event, k: Key)
    requires k in s.rows && !Overrides(s, e, k) && !CarriesReference(e, k)
    ensures k in Step(s, e).rows
    ensures AnswerLength(Step(s, e).rows[k]) >= AnswerLength(s.rows[k])
  {
    if e.Update? && e.key == k {
      UpdateKeepsAnswer(s.rows[k], e.patch, e.now);
    }
  }

  lemma SentIsNotOverridden(s: State, e: Event, k: Key)
    requires k in s.rows && s.rows[k].sent
    ensures !Overrides(s, e, k)
  {
    hide Strip, StartsWith, Lower;
  }

  /**
   * Over any run in which the row is sent (or at least never overridden) and no update brings a result with a
   * full-answer reference, the stored answer never gets shorter.
   */
  lemma {:induction false} AnswerNeverShrinks(s: State, es: seq<Event>, k: Key)
    requires k in s.rows
    requires s.rows[k].sent || NeverOverridden(s, es, k)
    requires forall i | 0 <= i < |es| :: !CarriesReference(es[i], k)
    ensures k in After(s, es).rows
    ensures AnswerLength(After(s, es).rows[k]) >= AnswerLength(s.rows[k])
  {
    if es != [] {
      var n := |es| - 1;
      var front := es[..n];
      if NeverOverridden(s, es, k) {
        OverriddenPrefix(s, es, k);
      }
      AnswerNeverShrinks(s, front, k);
      RunAbsorbs(s, front, k);
      if s.rows[k].sent {
        SentIsNotOverridden(After(s, front), es[n], k);
      }
      hide Overrides, CarriesReference, AnswerLength, Step;
      AnswerStep(After(s, front), es[n], k);
    }
  }

  /** A stored reference to a full answer is dropped by exactly the updates whose own result has none. */
  lemma ReferenceDroppedIff(r: Record, p: Patch, now: int)
    requires ResultHasReference(r)
    ensures !ResultHasReference(Updated(r, p, now)) <==> p.result.Some? && !HasFullAnswerReference(p.result.value)
  {
  }

  function Storing(result: AnswerResult): Patch {
    Patch(None, None, None, Some(result), None)
  }

  /**
   * So letting the longer answer win does not keep the full answer reachable: a full answer, then any preview that
   * refers to it, then any partial answer at least as long as the preview but without a reference leave only the
   * partial answer behind.
   */
  lemma FullAnswerCanBecomeUnreachable(
      r: Record, full: AnswerResult, preview: AnswerResult, partial: AnswerResult, now: int)
    requires r.result.NoResult?
    requires |Strip(preview.answer)| <= |Strip(partial.answer)| < |Strip(full.answer)|
    requires HasFullAnswerReference(preview) && !HasFullAnswerReference(partial) && Strip(partial.answer) != ""
    ensures var last := Updated(Updated(Updated(r, Storing(full), now), Storing(preview), now), Storing(partial), now);
            last.result == Parsed(partial) && !ResultHasReference(last)
  {
    var second := Updated(Updated(r, Storing(full), now), Storing(preview), now);
    assert AnswerText(second.result) == Strip(preview.answer);
  }
}
