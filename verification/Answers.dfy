/**
 * Tool results and the answer offload (`chatgpt_web_mcp/_answers.py`,
 * `_result_has_full_answer_reference` of `chatgpt_web_mcp/idempotency.py`).
 *
 * A result dictionary is a record of the fields the offload and the ledger look at; `None` is an absent
 * key, and `rest` stands for every field they only carry along.
 */
module Answers {
  import opened Wrappers
  import opened Text

  datatype AnswerResult = AnswerResult(
    answer: string,
    answerFormat: Option<string>,
    answerId: Option<string>,
    answerPath: Option<string>,
    answerSha: Option<string>,
    answerChars: Option<int>,
    answerReturnedChars: Option<int>,
    answerTruncated: Option<bool>,
    answerSaved: Option<bool>,
    rest: string)

  /** What the answer writer hands back; `Option<Saved>` is `None` when writing raised. */
  datatype Saved = Saved(id: string, path: string, sha: string)

  predicate HasFullAnswerReference(r: AnswerResult) {
    || Strip(r.answerId.GetOr("")) != ""
    || Strip(r.answerPath.GetOr("")) != ""
    || (r.answerTruncated == Some(true) && r.answerChars.GetOr(0) > 0)
  }

  function SavedFormat(format: Option<string>): string {
    if Lower(Strip(format.GetOr(""))) == "markdown" then "markdown" else "text"
  }

  function Default<T>(current: Option<T>, value: T): Option<T> {
    if current.Some? then current else Some(value)
  }

  /** `int(chars or n)`: an absent or zero count reads as `n`. */
  function CharsOr(chars: Option<int>, n: int): int {
    if chars.GetOr(0) == 0 then n else chars.value
  }

  predicate Fits(answer: string, limit: int) {
    limit <= 0 || |answer| <= limit
  }

  /** The answer file is written exactly when a too long answer has no full reference yet. */
  predicate Writes(r: AnswerResult, limit: int) {
    && !IsBlank(r.answer)
    && !Fits(r.answer, limit)
    && !HasFullAnswerReference(r.(answerChars := Default(r.answerChars, |r.answer|)))
  }

  function Offloaded(r: AnswerResult, limit: int, saved: Option<Saved>): AnswerResult {
    var n := |r.answer|;
    if IsBlank(r.answer) then r
    else if Fits(r.answer, limit) then
      r.(answerReturnedChars := Some(n), answerChars := Some(CharsOr(r.answerChars, n)),
         answerTruncated := Default(r.answerTruncated, false))
    else
      var preview := r.(answer := r.answer[..limit], answerReturnedChars := Some(limit), answerTruncated := Some(true));
      if !Writes(r, limit) then
        preview.(answerSaved := Default(r.answerSaved, true), answerChars := Some(CharsOr(r.answerChars, n)))
      else if saved.None? then
        preview.(answerSaved := Some(false), answerChars := Some(n))
      else
        preview.(answerSaved := Some(true), answerId := Some(saved.value.id), answerPath := Some(saved.value.path),
                 answerSha := Some(saved.value.sha), answerChars := Some(n),
                 answerFormat := Default(r.answerFormat, SavedFormat(r.answerFormat)))
  }

  /** A result dictionary held by a tool and changed in place. */
  class ResultDict {
    var r: AnswerResult

    constructor (initial: AnswerResult)
      ensures r == initial
    {
      r := initial;
    }

    /** `attempt` is what the file writer will do if it is called; `written` is the text it was given, if it was. */
    method Offload(maxReturnChars: int, attempt: Option<Saved>) returns (written: Option<string>)
      modifies this
      ensures r == Offloaded(old(r), maxReturnChars, attempt)
      ensures written == if Writes(old(r), maxReturnChars) then Some(old(r).answer) else None
    {
      written := None;
      var answer := r.answer;
      if Strip(answer) == "" {
        return;
      }
      var limit := Max(0, maxReturnChars);
      r := r.(answerReturnedChars := Default(r.answerReturnedChars, |answer|));
      r := r.(answerChars := Default(r.answerChars, |answer|));
      if limit <= 0 || |answer| <= limit {
        r := r.(answerTruncated := Default(r.answerTruncated, false));
        r := r.(answerReturnedChars := Some(|answer|));
        r := r.(answerChars := Some(CharsOr(r.answerChars, |answer|)));
        return;
      }
      var preview := answer[..limit];
      if HasFullAnswerReference(r) {
        r := r.(answer := preview, answerTruncated := Some(true));
        r := r.(answerSaved := Default(r.answerSaved, true));
        r := r.(answerChars := Some(CharsOr(r.answerChars, |answer|)), answerReturnedChars := Some(|preview|));
        return;
      }
      written := Some(answer);
      r := r.(answer := preview, answerTruncated := Some(true), answerSaved := Some(attempt.Some?));
      if attempt.Some? {
        r := r.(answerId := Some(attempt.value.id), answerPath := Some(attempt.value.path));
        r := r.(answerSha := Some(attempt.value.sha));
        r := r.(answerFormat := Default(r.answerFormat, SavedFormat(r.answerFormat)));
      }
      r := r.(answerChars := Some(|answer|), answerReturnedChars := Some(|preview|));
    }
  }

  // ---- Sequences of offloads -------------------------------------------------------------------

  datatype Attempt = Attempt(limit: int, saved: Option<Saved>)

  function OffloadRun(r: AnswerResult, run: seq<Attempt>): AnswerResult
  {
    if run == [] then r
    else
      var before := OffloadRun(r, run[..|run| - 1]);
      Offloaded(before, run[|run| - 1].limit, run[|run| - 1].saved)
  }

  /** Every text handed to the file writer over the run, in order. */
  function WrittenTexts(r: AnswerResult, run: seq<Attempt>): seq<string>
  {
    if run == [] then []
    else
      var before := OffloadRun(r, run[..|run| - 1]);
      WrittenTexts(r, run[..|run| - 1]) + (if Writes(before, run[|run| - 1].limit) then [before.answer] else [])
  }

  /** The shortest of `n` and the positive limits of the run, in whatever order they came. */
  function TightestLimit(n: nat, run: seq<Attempt>): (m: nat)
    ensures m == n || exists i | 0 <= i < |run| :: run[i].limit == m
    ensures m <= n && forall i | 0 <= i < |run| && run[i].limit > 0 :: m <= run[i].limit
  {
    if run == [] then n
    else
      var m := TightestLimit(n, run[..|run| - 1]);
      if 0 < run[|run| - 1].limit < m then run[|run| - 1].limit else m
  }

  /** A result as a job first builds it: a real answer and none of the offload's own fields. */
  predicate Fresh(r: AnswerResult) {
    && !IsBlank(r.answer)
    && r.answerId.None? && r.answerPath.None? && r.answerChars.None? && r.answerTruncated.None?
  }

  /** The state of a result after offloads whose tightest limit is `m`; `applied` says whether there was one. */
  predicate CutTo(r: AnswerResult, s: AnswerResult, m: nat, applied: bool) {
    && s.answer <= r.answer && m <= |s.answer|
    && (!IsBlank(s.answer) ==> |s.answer| == m)
    && (HasFullAnswerReference(s) <==> |s.answer| < |r.answer|)
    && (if !applied then s == r
        else
          && s.answerChars == Some(|r.answer|)
          && s.answerTruncated == Some(|s.answer| < |r.answer|)
          && (!IsBlank(s.answer) ==> s.answerReturnedChars == Some(|s.answer|)))
  }

  lemma CutStep(r: AnswerResult, s: AnswerResult, m: nat, applied: bool, a: Attempt)
    requires Fresh(r) && CutTo(r, s, m, applied)
    ensures CutTo(r, Offloaded(s, a.limit, a.saved), if 0 < a.limit < m then a.limit else m, true)
    ensures Writes(s, a.limit) <==> |s.answer| == |r.answer| && |Offloaded(s, a.limit, a.saved).answer| < |r.answer|
  {
    assert s.answer == r.answer[..|s.answer|];
    assert |s.answer| == |r.answer| ==> s.answer == r.answer;
    hide Strip;
    var t := Offloaded(s, a.limit, a.saved);
    assert t.answer == r.answer[..|t.answer|];
  }

  /**
   * Whatever limits are applied, and however often saving fails: the visible answer stays a prefix of the original, its
   * length is the tightest positive limit (unless a preview went blank, which freezes it), the advertised length is the
   * original one, and the only text ever written out is the whole answer, once.
   */
  lemma {:induction false} OffloadSequences(r: AnswerResult, run: seq<Attempt>)
    requires Fresh(r)
    ensures CutTo(r, OffloadRun(r, run), TightestLimit(|r.answer|, run), run != [])
    ensures WrittenTexts(r, run) == if |OffloadRun(r, run).answer| < |r.answer| then [r.answer] else []
  {
    if run != [] {
      var n := |run| - 1;
      var before := OffloadRun(r, run[..n]);
      OffloadSequences(r, run[..n]);
      CutStep(r, before, TightestLimit(|r.answer|, run[..n]), n > 0, run[n]);
      assert |before.answer| == |r.answer| ==> before.answer == r.answer;
      hide Offloaded, Writes, HasFullAnswerReference, IsBlank;
    } else {
      assert Strip("") == "";
    }
  }

  /**
   * A result that names an answer file is never written again: its preview keeps id, path and sum, is marked saved
   * unless it says otherwise, and keeps the length it was told.
   */
  lemma ReferencedIsNotWritten(r: AnswerResult, limit: int, saved: Option<Saved>)
    requires Strip(r.answerId.GetOr("")) != "" || Strip(r.answerPath.GetOr("")) != ""
    ensures var s := Offloaded(r, limit, saved);
            && HasFullAnswerReference(r) && HasFullAnswerReference(s) && !Writes(r, limit)
            && s.answerId == r.answerId && s.answerPath == r.answerPath && s.answerSha == r.answerSha
            && s.answerFormat == r.answerFormat && s.rest == r.rest
            && (Strip(r.answer) != "" ==>
                  s.answerChars == Some(if r.answerChars.GetOr(0) != 0 then r.answerChars.value else |r.answer|))
            && (Strip(r.answer) != "" && 0 < limit < |r.answer| ==>
                  && s.answer == r.answer[..limit] && s.answerTruncated == Some(true)
                  && s.answerReturnedChars == Some(limit)
                  && s.answerSaved == (if r.answerSaved.Some? then r.answerSaved else Some(true)))
            && (limit <= 0 || |r.answer| <= limit ==> s.answer == r.answer && s.answerSaved == r.answerSaved)
  {
    hide Strip;
  }

  /** Applying the limit a result was already cut to changes nothing, for any result and any writer behaviour. */
  lemma OffloadTwice(r: AnswerResult, limit: int, first: Option<Saved>, second: Option<Saved>)
    ensures Offloaded(Offloaded(r, limit, first), limit, second) == Offloaded(r, limit, first)
    ensures !Writes(Offloaded(r, limit, first), limit)
  {
    var once := Offloaded(r, limit, first);
    if !IsBlank(once.answer) {
      assert Fits(once.answer, limit);
    }
  }

  /** What the one write of the run came to: `None` if nothing was written, otherwise what the writer handed back. */
  function WriteOutcome(r: AnswerResult, run: seq<Attempt>): Option<Option<Saved>> {
    if run == [] then None
    else
      var n := |run| - 1;
      if Writes(OffloadRun(r, run[..n]), run[n].limit) then Some(run[n].saved) else WriteOutcome(r, run[..n])
  }

  /** The id and the path of a result are those of the file that a write left, if one succeeded. */
  predicate PointsToWrite(r: AnswerResult, s: AnswerResult, outcome: Option<Option<Saved>>) {
    var saved := outcome.GetOr(None);
    && s.answerId == (if saved.Some? then Some(saved.value.id) else None)
    && s.answerPath == (if saved.Some? then Some(saved.value.path) else None)
    && (outcome.Some? ==> s.answerSaved == Some(saved.Some?))
    && s.answerSha == (if saved.Some? then Some(saved.value.sha) else r.answerSha)
    && s.answerFormat == (if saved.Some? && r.answerFormat.None? then Some("text") else r.answerFormat)
    && s.rest == r.rest
  }

  lemma PointerStep(r: AnswerResult, s: AnswerResult, outcome: Option<Option<Saved>>, a: Attempt)
    requires Fresh(r) && PointsToWrite(r, s, outcome)
    requires outcome.Some? ==> !Writes(s, a.limit)
    requires outcome.None? ==> Writes(s, a.limit) || IsBlank(s.answer) || Fits(s.answer, a.limit)
    ensures PointsToWrite(r, Offloaded(s, a.limit, a.saved), if Writes(s, a.limit) then Some(a.saved) else outcome)
  {
    assert Lower(Strip("")) == "";
    hide IsBlank, HasFullAnswerReference;
  }

  lemma {:induction false} PointersFollowWrite(r: AnswerResult, run: seq<Attempt>)
    requires Fresh(r)
    ensures PointsToWrite(r, OffloadRun(r, run), WriteOutcome(r, run))
    ensures WriteOutcome(r, run).Some? <==> |OffloadRun(r, run).answer| < |r.answer|
  {
    OffloadSequences(r, run);
    if run != [] {
      var n := |run| - 1;
      var before := OffloadRun(r, run[..n]);
      PointersFollowWrite(r, run[..n]);
      OffloadSequences(r, run[..n]);
      CutStep(r, before, TightestLimit(|r.answer|, run[..n]), n > 0, run[n]);
      hide IsBlank, Fresh;
      PointerStep(r, before, WriteOutcome(r, run[..n]), run[n]);
    }
  }

  /**
   * The reference test is true of every preview, also of one whose save failed. A result that passes it leads to the
   * whole answer if and only if its one write succeeded, which its own saved flag tells: then it holds the id and the
   * path of the file, and the text in that file is the original answer; otherwise it holds neither.
   */
  lemma ReferenceIsRealIff(r: AnswerResult, run: seq<Attempt>)
    requires Fresh(r) && HasFullAnswerReference(OffloadRun(r, run))
    ensures var s := OffloadRun(r, run);
            var outcome := WriteOutcome(r, run);
            && WrittenTexts(r, run) == [r.answer] && outcome.Some?
            && s.answerSaved == Some(outcome.value.Some?)
            && s.answerId == (if outcome.value.Some? then Some(outcome.value.value.id) else None)
            && s.answerPath == (if outcome.value.Some? then Some(outcome.value.value.path) else None)
            && (outcome.value.Some? ==> s.answerSha == Some(outcome.value.value.sha))
            && s.answerFormat
               == (if outcome.value.Some? && r.answerFormat.None? then Some("text") else r.answerFormat)
            && s.rest == r.rest
  {
    OffloadSequences(r, run);
    PointersFollowWrite(r, run);
  }

  /** One failed save is enough for a reference that leads nowhere, whatever the result held before. */
  lemma UnsavedPreviewCountsAsReference(r: AnswerResult, limit: int)
    requires Writes(r, limit) && r.answerId.None? && r.answerPath.None?
    ensures var s := Offloaded(r, limit, None);
            && s.answerSaved == Some(false) && s.answerId.None? && s.answerPath.None?
            && |s.answer| < |r.answer|
            && HasFullAnswerReference(s)
  {
    assert r.answer != "";
  }
}
