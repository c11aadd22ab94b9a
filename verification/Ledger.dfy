/**
 * The idempotency ledger (`chatgpt_web_mcp/idempotency.py`): one row per (namespace, tool, key), rewritten by
 * two operations that each run under the ledger lock. Time is a whole number of microseconds.
 */
module Ledger {
  import opened Wrappers
  import opened Text
  import opened Answers

  datatype Key = Key(ns: string, tool: string, id: string)

  datatype Context = Context(key: Key, requestHash: string)

  /** A status as every comparison reads it, stripped and lower-cased. */
  datatype Status = InProgress | Completed | Error | Blocked | Cooldown | Other(name: string)

  predicate IsFailure(s: Status) {
    s.Error? || s.Blocked? || s.Cooldown?
  }

  /** The `result_json` column: null, a dictionary, or text that does not parse. */
  datatype Stored = NoResult | Parsed(result: AnswerResult) | Unreadable

  datatype Record = Record(
    requestHash: string,
    status: Status,
    createdAt: int,
    updatedAt: int,
    sent: bool,
    url: Option<string>,
    result: Stored,
    error: Option<string>,
    runtime: Option<string>)

  type Rows = map<Key, Record>

  /** The two retry windows as the environment gives them at the time of a call. */
  datatype Windows = Windows(blankRetry: int, stale: int)

  // ---- begin -------------------------------------------------------------------------------------

  predicate Internal(key: Key) {
    StartsWith(key.id, "chatgptrest:")
  }

  predicate SameRuntimeReclaim(key: Key) {
    StartsWith(Strip(key.id), "chatgptrest:") && StartsWith(Lower(Strip(key.tool)), "gemini_web_")
  }

  function BlankRetryWindow(key: Key, configured: int): (w: int)
    ensures w >= 15 * SECOND
    ensures configured <= 15 * SECOND ==> w == 15 * SECOND
    ensures !SameRuntimeReclaim(key) && configured >= 15 * SECOND ==> w == configured
    ensures SameRuntimeReclaim(key) ==> w <= 30 * SECOND
    ensures 15 * SECOND <= configured <= 30 * SECOND ==> w == configured
    ensures SameRuntimeReclaim(key) && configured >= 30 * SECOND ==> w == 30 * SECOND
  {
    var w := Max(15 * SECOND, configured);
    if SameRuntimeReclaim(key) then Min(w, 30 * SECOND) else w
  }

  function StaleWindow(configured: int): (w: int)
    ensures w >= 30 * SECOND && w >= configured
    ensures w == 30 * SECOND || w == configured
  {
    Max(30 * SECOND, configured)
  }

  /** No trace of an attempt: no conversation, no result, no error. */
  predicate IsBlankRecord(r: Record) {
    && IsBlank(r.url.GetOr(""))
    && r.result.NoResult?
    && IsBlank(r.error.GetOr(""))
  }

  predicate OwnedBy(r: Record, runtime: string) {
    var owner := Strip(r.runtime.GetOr(""));
    owner != "" && owner == runtime
  }

  /** At least `window` has passed since the last write; a zero time stamp counts as long ago. */
  predicate Aged(r: Record, now: int, window: int) {
    r.updatedAt == 0 || now - r.updatedAt >= window
  }

  datatype Branch =
    | Insert
    | CollisionOverride
    | CollisionError
    | MismatchReplay
    | FailedRetry
    | BlankReset
    | StaleReset
    | Replay

  /** Which branch a call takes, given the row it finds. */
  function BranchOf(row: Option<Record>, ctx: Context, runtime: string, now: int, w: Windows): Branch {
    if row.None? then Insert
    else
      var r := row.value;
      if r.requestHash != ctx.requestHash then
        if r.sent then MismatchReplay
        else if IsFailure(r.status) && Internal(ctx.key) then CollisionOverride
        else CollisionError
      else if r.sent then Replay
      else if IsFailure(r.status) then FailedRetry
      else if !r.status.InProgress? then Replay
      else if IsBlankRecord(r) then
        if && Internal(ctx.key)
           && Aged(r, now, BlankRetryWindow(ctx.key, w.blankRetry))
           && (!OwnedBy(r, runtime) || SameRuntimeReclaim(ctx.key))
        then BlankReset else Replay
      else if Aged(r, now, StaleWindow(w.stale)) then StaleReset
      else Replay
  }

  /** The branches that return `should_execute = True`. */
  predicate Executes(b: Branch) {
    b.Insert? || b.CollisionOverride? || b.FailedRetry? || b.BlankReset? || b.StaleReset?
  }

  function NewRow(ctx: Context, runtime: string, now: int): Record {
    Record(ctx.requestHash, InProgress, now, now, false, None, NoResult, None, Some(runtime))
  }

  function Lookup(rows: Rows, key: Key): Option<Record> {
    if key in rows then Some(rows[key]) else None
  }

  function RowAfter(row: Option<Record>, b: Branch, ctx: Context, runtime: string, now: int): Option<Record> {
    match b
    case Insert | CollisionOverride => Some(NewRow(ctx, runtime, now))
    case FailedRetry | BlankReset | StaleReset =>
      if row.None? then None
      else Some(row.value.(status := InProgress, error := None, updatedAt := now, runtime := Some(runtime)))
    case _ => row
  }

  /** The record handed back to the caller: the row as it was read, with the changes the branch makes to its copy. */
  function Returned(row: Option<Record>, b: Branch, ctx: Context, runtime: string): Option<Record> {
    if row.None? then None
    else match b
      case CollisionOverride =>
        Some(row.value.(requestHash := ctx.requestHash, status := InProgress, sent := false, url := None,
                        result := NoResult))
      case BlankReset | StaleReset => Some(row.value.(runtime := Some(runtime)))
      case _ => row
  }

  /** What one call answers; `CollisionError` is the raised exception. */
  datatype BeginOutcome = BeginOutcome(branch: Branch, existing: Option<Record>)

  function BeginOn(rows: Rows, ctx: Context, runtime: string, now: int, w: Windows): BeginOutcome {
    var row := Lookup(rows, ctx.key);
    var b := BranchOf(row, ctx, runtime, now, w);
    BeginOutcome(b, Returned(row, b, ctx, runtime))
  }

  function AfterBegin(rows: Rows, ctx: Context, runtime: string, now: int, w: Windows): Rows {
    var row := Lookup(rows, ctx.key);
    var b := BranchOf(row, ctx, runtime, now, w);
    var next := RowAfter(row, b, ctx, runtime, now);
    if next.Some? then rows[ctx.key := next.value] else rows
  }

  // ---- update ------------------------------------------------------------------------------------

  /** The optional arguments of an update. */
  datatype Patch = Patch(
    status: Option<Status>,
    sent: Option<bool>,
    url: Option<string>,
    result: Option<AnswerResult>,
    error: Option<string>)

  predicate IsThread(url: string) {
    Contains(url, "/c/")
  }

  /** A URL as every reader of the ledger sees it. */
  function UrlOf(r: Record): string {
    Strip(r.url.GetOr(""))
  }

  /** 0: nothing known, 1: a page that is not a conversation, 2: a conversation thread. */
  function UrlRank(url: string): nat {
    if url == "" then 0 else if IsThread(url) then 2 else 1
  }

  function NextUrl(stored: Option<string>, wanted: Option<string>): Option<string> {
    if wanted.None? then stored
    else
      var was, new_ := Strip(stored.GetOr("")), Strip(wanted.value);
      if new_ == "" then stored
      else if IsThread(was) then (if new_ == was then Some(new_) else stored)
      else if IsThread(new_) || was == "" then Some(new_)
      else stored
  }

  function AnswerText(s: Stored): string {
    if s.Parsed? then Strip(s.result.answer) else ""
  }

  /** A format that is missing or empty is filled from the stored result. */
  function MergedFormat(stored: Option<string>, wanted: Option<string>): Option<string> {
    if stored.GetOr("") != "" && wanted.GetOr("") == "" then stored else wanted
  }

  function NextResult(stored: Stored, wanted: Option<AnswerResult>): Stored {
    if wanted.None? then stored
    else if !stored.Parsed? then Parsed(wanted.value)
    else
      var have, new_ := AnswerText(stored), Strip(wanted.value.answer);
      if have == "" || (new_ != "" && |new_| >= |have|) then Parsed(wanted.value)
      else if HasFullAnswerReference(wanted.value) then
        Parsed(wanted.value.(answerChars := Default(wanted.value.answerChars, |have|)))
      else
        Parsed(wanted.value.(answer := have,
                             answerFormat := MergedFormat(stored.result.answerFormat, wanted.value.answerFormat)))
  }

  function Updated(r: Record, p: Patch, now: int): Record {
    Record(
      r.requestHash,
      if r.status.Completed? then Completed else p.status.GetOr(r.status),
      r.createdAt,
      now,
      r.sent || p.sent.GetOr(false),
      NextUrl(r.url, p.url),
      NextResult(r.result, p.result),
      if p.error.Some? then p.error else r.error,
      r.runtime)
  }

  function AfterUpdate(rows: Rows, key: Key, p: Patch, now: int): Rows {
    if key in rows then rows[key := Updated(rows[key], p, now)] else rows
  }

  // ---- The ledger object -------------------------------------------------------------------------

  class IdempotencyLedger {
    var rows: Rows
    var runtime: string

    constructor (runtimeInstanceId: string)
      ensures rows == map[] && runtime == runtimeInstanceId
    {
      rows := map[];
      runtime := runtimeInstanceId;
    }

    method Begin(ctx: Context, now: int, w: Windows) returns (out: BeginOutcome)
      modifies this`rows
      ensures out == BeginOn(old(rows), ctx, runtime, now, w)
      ensures rows == AfterBegin(old(rows), ctx, runtime, now, w)
    {
      if ctx.key in rows {
        var record := rows[ctx.key];
        if record.requestHash != ctx.requestHash {
          out := BeginOtherRequest(ctx, now, w);
          return;
        }
        if !record.sent && IsFailure(record.status) {
          rows := rows[ctx.key := record.(status := InProgress, error := None, updatedAt := now,
                                          runtime := Some(runtime))];
          return BeginOutcome(FailedRetry, Some(record));
        }
        if !record.sent && record.status == InProgress {
          out := BeginInProgress(ctx, now, w);
          return;
        }
        return BeginOutcome(Replay, Some(record));
      }
      rows := rows[ctx.key := Record(ctx.requestHash, InProgress, now, now, false, None, NoResult, None,
                                     Some(runtime))];
      return BeginOutcome(Insert, None);
    }

    /** The branch for a stored row that belongs to a different request. */
    method BeginOtherRequest(ctx: Context, now: int, w: Windows) returns (out: BeginOutcome)
      requires ctx.key in rows && rows[ctx.key].requestHash != ctx.requestHash
      modifies this`rows
      ensures out == BeginOn(old(rows), ctx, runtime, now, w)
      ensures rows == AfterBegin(old(rows), ctx, runtime, now, w)
    {
      var record := rows[ctx.key];
      if !record.sent && IsFailure(record.status) && Internal(ctx.key) {
        rows := rows[ctx.key := record.(requestHash := ctx.requestHash, status := InProgress, createdAt := now,
          updatedAt := now, sent := false, url := None, result := NoResult, error := None, runtime := Some(runtime))];
        record := record.(requestHash := ctx.requestHash, status := InProgress, sent := false, url := None,
                          result := NoResult);
        return BeginOutcome(CollisionOverride, Some(record));
      }
      if record.sent {
        return BeginOutcome(MismatchReplay, Some(record));
      }
      return BeginOutcome(CollisionError, Some(record));
    }

    /** The branch for an unsent row of the same request that is marked in progress. */
    method BeginInProgress(ctx: Context, now: int, w: Windows) returns (out: BeginOutcome)
      requires ctx.key in rows && rows[ctx.key].requestHash == ctx.requestHash
      requires !rows[ctx.key].sent && rows[ctx.key].status == InProgress
      modifies this`rows
      ensures out == BeginOn(old(rows), ctx, runtime, now, w)
      ensures rows == AfterBegin(old(rows), ctx, runtime, now, w)
    {
      hide Strip, StartsWith, Lower, BlankRetryWindow, StaleWindow;
      var record := rows[ctx.key];
      var hasUrl := Strip(record.url.GetOr("")) != "";
      var hasResult := record.result.Parsed? || record.result.Unreadable?;
      var hasError := Strip(record.error.GetOr("")) != "";
      var owner := Strip(record.runtime.GetOr(""));
      var runtimeMismatch := owner == "" || owner != runtime;
      assert IsBlankRecord(record) <==> !hasUrl && !hasResult && !hasError;
      assert OwnedBy(record, runtime) <==> !runtimeMismatch;
      if !hasUrl && !hasResult && !hasError {
        if Internal(ctx.key) {
          var retry := BlankRetryWindow(ctx.key, w.blankRetry);
          var age := if record.updatedAt != 0 then now - record.updatedAt else retry + SECOND;
          if age >= retry && (runtimeMismatch || SameRuntimeReclaim(ctx.key)) {
            rows := rows[ctx.key := record.(status := InProgress, error := None, updatedAt := now,
                                            runtime := Some(runtime))];
            record := record.(runtime := Some(runtime));
            return BeginOutcome(BlankReset, Some(record));
          }
        }
        return BeginOutcome(Replay, Some(record));
      }
      var stale := StaleWindow(w.stale);
      var age := if record.updatedAt != 0 then now - record.updatedAt else stale + SECOND;
      if age >= stale {
        rows := rows[ctx.key := record.(status := InProgress, error := None, updatedAt := now,
                                        runtime := Some(runtime))];
        record := record.(runtime := Some(runtime));
        return BeginOutcome(StaleReset, Some(record));
      }
      return BeginOutcome(Replay, Some(record));
    }

    method Update(key: Key, p: Patch, now: int)
      modifies this`rows
      ensures rows == AfterUpdate(old(rows), key, p, now)
    {
      if key !in rows {
        return;  // the SQL update matches no row
      }
      var row := rows[key];
      var desiredStatus, desiredSent := p.status, p.sent;
      if row.sent && desiredSent == Some(false) {
        desiredSent := None;
      }
      if desiredStatus.Some? && row.status.Completed? && desiredStatus.value != Completed {
        desiredStatus := None;
      }
      var desiredUrl := GuardUrl(row.url, p.url);
      var desiredResult := GuardResult(row.result, p.result);
      var url := if desiredUrl.Some? then desiredUrl else row.url;
      var result := if desiredResult.Some? then Parsed(desiredResult.value) else row.result;
      var error := if p.error.Some? then p.error else row.error;
      rows := rows[key := Record(row.requestHash, desiredStatus.GetOr(row.status), row.createdAt, now,
                                 desiredSent.GetOr(row.sent), url, result, error, row.runtime)];
    }

    /** The URL an update may still write, if any. */
    static method GuardUrl(stored: Option<string>, wanted: Option<string>) returns (desired: Option<string>)
      ensures NextUrl(stored, wanted) == if desired.Some? then desired else stored
    {
      desired := wanted;
      if desired.Some? {
        var newUrl := Strip(desired.value);
        var oldUrl := Strip(stored.GetOr(""));
        if newUrl == "" {
          desired := None;
        } else if IsThread(oldUrl) {
          desired := if IsThread(newUrl) && newUrl == oldUrl then Some(newUrl) else None;
        } else if IsThread(newUrl) {
          desired := Some(newUrl);
        } else if oldUrl == "" {
          desired := Some(newUrl);
        } else {
          desired := None;
        }
      }
    }

    /** The result an update may still write: a shorter answer is completed from the stored one. */
    static method GuardResult(stored: Stored, wanted: Option<AnswerResult>) returns (desired: Option<AnswerResult>)
      ensures NextResult(stored, wanted) == if desired.Some? then Parsed(desired.value) else stored
    {
      desired := wanted;
      if desired.Some? && stored.Parsed? {
        var existingAnswer := Strip(stored.result.answer);
        var newAnswer := Strip(desired.value.answer);
        if existingAnswer != "" && (newAnswer == "" || |newAnswer| < |existingAnswer|) {
          if HasFullAnswerReference(desired.value) {
            desired := Some(desired.value.(answerChars := Default(desired.value.answerChars, |existingAnswer|)));
          } else {
            var merged := desired.value.(answer := existingAnswer);
            if stored.result.answerFormat.GetOr("") != "" && merged.answerFormat.GetOr("") == "" {
              merged := merged.(answerFormat := stored.result.answerFormat);
            }
            desired := Some(merged);
          }
        }
      }
    }
  }

  // ---- One call ----------------------------------------------------------------------------------

  /** A row that still allows a first send under this request. */
  predicate OpenFor(row: Option<Record>, ctx: Context, runtime: string, now: int, w: Windows) {
    row.None? || (!row.value.sent && LeaseFree(row.value, ctx, runtime, now, w))
  }

  /**
   * An unsent row is free when its attempt failed, or when the attempt in progress has been silent for longer
   * than its window; a different request may only take over a failed internal row.
   */
  predicate LeaseFree(r: Record, ctx: Context, runtime: string, now: int, w: Windows) {
    if IsFailure(r.status) then
      r.requestHash == ctx.requestHash || Internal(ctx.key)
    else
      && r.status.InProgress? && r.requestHash == ctx.requestHash
      && (IsBlankRecord(r) ==> Internal(ctx.key) && (OwnedBy(r, runtime) ==> SameRuntimeReclaim(ctx.key)))
      && Aged(r, now, if IsBlankRecord(r) then BlankRetryWindow(ctx.key, w.blankRetry) else StaleWindow(w.stale))
  }

  /** Permission to execute is given exactly on an open row; a call that is not given it writes nothing. */
  lemma BeginExecutesExactlyWhenOpen(rows: Rows, ctx: Context, runtime: string, now: int, w: Windows)
    ensures Executes(BeginOn(rows, ctx, runtime, now, w).branch)
       <==> OpenFor(Lookup(rows, ctx.key), ctx, runtime, now, w)
    ensures !Executes(BeginOn(rows, ctx, runtime, now, w).branch) ==> AfterBegin(rows, ctx, runtime, now, w) == rows
  {
    if ctx.key in rows && !Executes(BeginOn(rows, ctx, runtime, now, w).branch) {
      assert rows[ctx.key := rows[ctx.key]] == rows;
    }
  }

  /** The row belongs to the same request, was not sent, and says that an attempt is under way. */
  predicate UnderWay(r: Record, ctx: Context) {
    r.requestHash == ctx.requestHash && !r.sent && r.status == InProgress
  }

  /**
   * Which of the eight branches a call takes, by what its caller could read in the row: an absent row is inserted; a
   * row of another request is replayed once sent, taken over if it failed under an internal key, and a collision
   * otherwise; a failed attempt of the same request is retried; an attempt under way is taken over after its window.
   */
  lemma EveryBranchIff(rows: Rows, ctx: Context, runtime: string, now: int, w: Windows)
    requires ctx.key in rows
    ensures var r := rows[ctx.key];
            var b := BeginOn(rows, ctx, runtime, now, w).branch;
            var other := r.requestHash != ctx.requestHash;
            var silent := (window: int) => r.updatedAt == 0 || now >= r.updatedAt + window;
            var blank := UrlOf(r) == "" && r.result == NoResult && Strip(r.error.GetOr("")) == "";
            var mine := runtime != "" && Strip(r.runtime.GetOr("")) == runtime;
            && b != Insert
            && (b == CollisionError <==> other && !r.sent && !(IsFailure(r.status) && Internal(ctx.key)))
            && (b == CollisionOverride <==> other && !r.sent && IsFailure(r.status) && Internal(ctx.key))
            && (b == MismatchReplay <==> other && r.sent)
            && (b == FailedRetry <==> !other && !r.sent && IsFailure(r.status))
            && (b == BlankReset <==>
                  && UnderWay(r, ctx) && blank && Internal(ctx.key)
                  && silent(BlankRetryWindow(ctx.key, w.blankRetry)) && (mine ==> SameRuntimeReclaim(ctx.key)))
            && (b == StaleReset <==> UnderWay(r, ctx) && !blank && silent(StaleWindow(w.stale)))
  {
    hide Strip, StartsWith, Lower, BlankRetryWindow, StaleWindow, Contains;
  }

  /** A row of another request that was sent is handed back as it is; an absent row is inserted for this one. */
  lemma SentRowsAreReplayed(rows: Rows, ctx: Context, runtime: string, now: int, w: Windows)
    ensures var out := BeginOn(rows, ctx, runtime, now, w);
            var after := AfterBegin(rows, ctx, runtime, now, w);
            && (ctx.key in rows && rows[ctx.key].sent ==>
                  && after == rows && out.existing == Some(rows[ctx.key])
                  && out.branch == if rows[ctx.key].requestHash == ctx.requestHash then Replay else MismatchReplay)
            && (ctx.key !in rows ==>
                  && out == BeginOutcome(Insert, None)
                  && after == rows[ctx.key := Record(ctx.requestHash, InProgress, now, now, false, None, NoResult, None,
                                                     Some(runtime))])
  {
  }

  lemma GeminiName()
    ensures StartsWith(Lower(Strip("gemini_web_ask")), "gemini_web_")
  {
    assert Strip("gemini_web_ask") == "gemini_web_ask";
    assert Lower("gemini_web_ask")[..11] == "gemini_web_";
  }

  lemma ChatgptName()
    ensures !StartsWith(Lower(Strip("chatgpt_web_ask")), "gemini_web_")
  {
    assert Strip("chatgpt_web_ask") == "chatgpt_web_ask";
    assert Lower("chatgpt_web_ask")[0] == 'c';
  }

  /** Without permission the record handed back is the stored one. */
  lemma RefusalsLeaveTheRow(rows: Rows, ctx: Context, runtime: string, now: int, w: Windows)
    ensures var out := BeginOn(rows, ctx, runtime, now, w);
            !Executes(out.branch) ==> ctx.key in rows && out.existing == Some(rows[ctx.key])
  {
  }

  /** Only an internal key of a Gemini tool may take a blank row back from its own process. */
  lemma ReclaimableTools(key: Key)
    requires Strip(key.id) == key.id
    ensures SameRuntimeReclaim(key) ==> Internal(key)
    ensures key.tool == "chatgpt_web_ask" ==> !SameRuntimeReclaim(key)
    ensures key.tool == "gemini_web_ask" ==> (SameRuntimeReclaim(key) <==> Internal(key))
  {
    GeminiName();
    ChatgptName();
    hide Strip, Lower, StartsWith;
  }

  /**
   * Every permission leaves one row behind that is unsent, in progress, free of errors, stamped with this
   * runtime and this time, and carries the caller's request; no other row moves. Another attempt of the same request
   * keeps what the earlier one found out, any other request starts from nothing.
   */
  lemma PermissionLeavesCleanRow(rows: Rows, ctx: Context, runtime: string, now: int, w: Windows)
    requires Executes(BeginOn(rows, ctx, runtime, now, w).branch)
    ensures ctx.key in rows ==> !rows[ctx.key].sent
    ensures var after := AfterBegin(rows, ctx, runtime, now, w);
            && after.Keys == rows.Keys + {ctx.key}
            && (forall k | k in rows && k != ctx.key :: after[k] == rows[k])
            && var r := after[ctx.key];
               && !r.sent && r.status == InProgress && r.error.None?
               && r.runtime == Some(runtime) && r.updatedAt == now
               && r.requestHash == ctx.requestHash
               && (if ctx.key in rows && rows[ctx.key].requestHash == ctx.requestHash
                   then var was := rows[ctx.key];
                        r.url == was.url && r.result == was.result && r.createdAt == was.createdAt
                   else r.url.None? && r.result == NoResult && r.createdAt == now)
    ensures var existing := BeginOn(rows, ctx, runtime, now, w).existing;
            existing.Some? ==> !existing.value.sent
  {
  }

  /**
   * The record returned by a call agrees with the stored row on the request, on whether a prompt was sent, on where to
   * resume and on the result; after a failure that is retried it still tells the old status.
   */
  lemma ReturnedRecordIsCurrent(rows: Rows, ctx: Context, runtime: string, now: int, w: Windows)
    ensures var out := BeginOn(rows, ctx, runtime, now, w);
            var after := AfterBegin(rows, ctx, runtime, now, w);
            && ctx.key in after
            && (out.existing.None? ==> out.branch == Insert && !after[ctx.key].sent && after[ctx.key].url.None?)
            && (out.existing.Some? ==>
                  var r := out.existing.value;
                  && after[ctx.key].sent == r.sent && after[ctx.key].url == r.url && after[ctx.key].result == r.result
                  && after[ctx.key].requestHash == r.requestHash
                  && r.status == if out.branch == FailedRetry then rows[ctx.key].status else after[ctx.key].status)
  {
  }

  /**
   * What an update leaves behind: the status it was given unless the row is completed, the error it was given, the
   * sent flag once anyone set it, and the URL it was given exactly if that one says more than the stored one.
   */
  lemma UpdateRecordsWhatItIsGiven(r: Record, p: Patch, now: int)
    ensures var after := Updated(r, p, now);
            && after.status == (if r.status == Completed || p.status.None? then r.status else p.status.value)
            && after.error == (if p.error.Some? then p.error else r.error)
            && (after.sent <==> r.sent || p.sent == Some(true))
            && after.requestHash == r.requestHash && after.createdAt == r.createdAt && after.runtime == r.runtime
            && after.updatedAt == now
    ensures var was, given, is_ := UrlOf(r), Strip(p.url.GetOr("")), UrlOf(Updated(r, p, now));
            && is_ == (if UrlRank(given) > UrlRank(was) then given else was)
            && (!IsThread(was) && IsThread(given) ==> is_ == given)
            && (was == "" && given != "" ==> is_ == given)
  {
    hide NextResult;
    assert !IsThread("");
    hide Contains, TrimLeft, TrimRight;
  }

  /**
   * A result given to an update is stored with everything but its answer as given; its answer too, unless it is
   * shorter than the stored one and refers to no full answer. Only then the stored answer, and a stored format where
   * none was given, stay.
   */
  lemma ResultIsRecorded(r: Record, p: Patch, now: int)
    ensures p.result.None? ==> Updated(r, p, now).result == r.result
    ensures p.result.Some? ==>
              var stored, given := Updated(r, p, now).result, p.result.value;
              var shorter := |Strip(given.answer)| < |AnswerText(r.result)|;
              && stored.Parsed?
              && stored.result.(answer := given.answer, answerFormat := given.answerFormat,
                                answerChars := given.answerChars) == given
              && (!shorter || HasFullAnswerReference(given) ==>
                    && stored.result.answer == given.answer && stored.result.answerFormat == given.answerFormat
                    && (given.answerChars.Some? || !shorter ==> stored.result.answerChars == given.answerChars)
                    && (given.answerChars.None? && shorter ==>
                          stored.result.answerChars == Some(|AnswerText(r.result)|)))
              && (shorter && !HasFullAnswerReference(given) ==>
                    && stored.result.answer == AnswerText(r.result)
                    && stored.result.answerChars == given.answerChars
                    && stored.result.answerFormat
                       == if given.answerFormat.GetOr("") == "" && r.result.result.answerFormat.GetOr("") != ""
                          then r.result.result.answerFormat else given.answerFormat)
  {
    hide HasFullAnswerReference, NextUrl;
  }

  /** A failure recorded before anything was sent lets the next call of the same request try again at once. */
  lemma FailureOpensRetry(rows: Rows, p: Patch, at: int, ctx: Context, runtime: string, now: int, w: Windows)
    requires ctx.key in rows && !rows[ctx.key].sent && rows[ctx.key].status != Completed
    requires rows[ctx.key].requestHash == ctx.requestHash
    requires p.sent != Some(true) && p.status in {Some(Status.Error), Some(Status.Blocked), Some(Status.Cooldown)}
    ensures BeginOn(AfterUpdate(rows, ctx.key, p, at), ctx, runtime, now, w).branch == FailedRetry
  {
  }
}
