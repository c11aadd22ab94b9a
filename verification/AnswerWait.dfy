/**
 * Waiting for an answer to settle (`_wait_for_answer` in `chatgpt_web_mcp/_tools_impl.py`), over an arbitrary stream
 * of page observations. The stream holds the polls made before the deadline; where it ends, time is up.
 */
module AnswerWait {
  import opened Wrappers
  import opened Text

  datatype Poll = Poll(count: int, text: string, stopVisible: bool, sandbox: bool)

  /** The arguments of one wait; `baseline` is the text of the last message before the question, normalised. */
  datatype Wait = Wait(startCount: int, minChars: int, requireNew: bool, baseline: string)

  /**
   * `Returned` is a settled answer and the poll it settled at, counted from the one after the answer began; `Late` is
   * the text returned when time is up, and the others are the ways to fail.
   */
  datatype Outcome = Returned(text: string, at: nat) | Late(text: string) | NotStarted | NoContent | TooShort

  function Collapse(s: string): string
    decreases |s|
  {
    if s == "" then ""
    else if IsSpace(s[0]) then " " + Collapse(TrimLeft(s[1..]))
    else [s[0]] + Collapse(s[1..])
  }

  function NormalizeWs(s: string): string {
    Strip(Collapse(s))
  }

  /** Evidence that the assistant has begun to answer. */
  predicate Started(p: Poll, w: Wait) {
    if !w.requireNew then p.count > w.startCount
    else
      var last := if p.count > 0 then NormalizeWs(p.text) else "";
      || (p.count > w.startCount && (p.stopVisible || w.baseline == "" || last != w.baseline))
      || (w.baseline != "" && last != "" && last != w.baseline)
  }

  /** What the loop carries from poll to poll: half seconds without a change, and the last count and text seen. */
  datatype Tracker = Tracker(stable: nat, count: int, text: string)

  const UNSEEN := Tracker(0, -1, "")

  /** Two seconds, in polls of half a second. */
  const SETTLED := 4

  function Seen(t: Tracker, p: Poll): Tracker {
    if p.text != "" && p.text == t.text && p.count == t.count then t.(stable := t.stable + 1)
    else Tracker(0, p.count, p.text)
  }

  predicate Ready(t: Tracker, p: Poll, w: Wait) {
    t.text != "" && t.stable >= SETTLED && !p.stopVisible && |t.text| >= w.minChars
  }

  /** The answer from before the question is still the one on the page. */
  predicate StillBaseline(text: string, count: int, w: Wait) {
    w.requireNew && w.baseline != "" && NormalizeWs(text) == w.baseline && count <= w.startCount
  }

  predicate Accepts(t: Tracker, p: Poll, w: Wait) {
    var s := Seen(t, p);
    p.count > 0 && Ready(s, p, w) && !p.sandbox && !StillBaseline(s.text, p.count, w)
  }

  /** The tracker after a poll at which the wait goes on. */
  function Carried(t: Tracker, p: Poll, w: Wait): Tracker {
    var s := Seen(t, p);
    if p.count <= 0 then t
    else if Ready(s, p, w) && p.sandbox then s.(stable := 0)
    else s
  }

  function Expired(t: Tracker, w: Wait): Outcome {
    if t.text == "" then NoContent
    else if w.minChars != 0 && |t.text| < w.minChars then TooShort
    else Late(t.text)
  }

  function Watch(polls: seq<Poll>, i: nat, t: Tracker, w: Wait): Outcome
    requires i <= |polls|
    decreases |polls| - i
  {
    if i == |polls| then Expired(t, w)
    else if Accepts(t, polls[i], w) then Returned(polls[i].text, i)
    else Watch(polls, i + 1, Carried(t, polls[i], w), w)
  }

  function FirstStarted(polls: seq<Poll>, i: nat, w: Wait): nat
    requires i <= |polls|
    ensures i <= FirstStarted(polls, i, w) <= |polls|
    decreases |polls| - i
  {
    if i == |polls| || Started(polls[i], w) then i else FirstStarted(polls, i + 1, w)
  }

  function OutcomeOf(polls: seq<Poll>, w: Wait): Outcome {
    var s := FirstStarted(polls, 0, w);
    if s == |polls| then NotStarted else Watch(polls[s + 1..], 0, UNSEEN, w)
  }

  method WaitForAnswer(polls: seq<Poll>, w: Wait) returns (out: Outcome)
    ensures out == OutcomeOf(polls, w)
  {
    hide NormalizeWs;
    var i := 0;
    while i < |polls| && !Started(polls[i], w)
      invariant 0 <= i <= |polls|
      invariant FirstStarted(polls, 0, w) == FirstStarted(polls, i, w)
    {
      i := i + 1;
    }
    if i == |polls| {
      return NotStarted;
    }
    var rest := polls[i + 1..];
    i := 0;
    var stable, prevCount, prevText := 0, -1, "";
    while i < |rest|
      invariant 0 <= i <= |rest| && stable >= 0
      invariant OutcomeOf(polls, w) == Watch(rest, i, Tracker(stable, prevCount, prevText), w)
    {
      var p := rest[i];
      ghost var before := Tracker(stable, prevCount, prevText);
      if p.count > 0 {
        if p.text != "" && p.text == prevText && p.count == prevCount {
          stable := stable + 1;
        } else {
          stable, prevText, prevCount := 0, p.text, p.count;
        }
        if prevText != "" && stable >= SETTLED && !p.stopVisible && |prevText| >= w.minChars {
          if p.sandbox {
            stable := 0;
          } else if w.requireNew && w.baseline != "" && NormalizeWs(prevText) == w.baseline && p.count <= w.startCount {
          } else {
            return Returned(prevText, i);
          }
        }
      }
      assert !Accepts(before, p, w) && Carried(before, p, w) == Tracker(stable, prevCount, prevText);
      i := i + 1;
    }
    if prevText != "" {
      if w.minChars != 0 && |prevText| < w.minChars {
        return TooShort;
      }
      return Late(prevText);
    }
    return NoContent;
  }

  // ---- Sound and complete ------------------------------------------------------------------------

  /** The polls at which a message was on the page. */
  function Present(polls: seq<Poll>): (ps: seq<Poll>)
    ensures forall p | p in ps :: p.count > 0
  {
    if polls == [] then []
    else if polls[|polls| - 1].count > 0 then Present(polls[..|polls| - 1]) + [polls[|polls| - 1]]
    else Present(polls[..|polls| - 1])
  }

  /** The last `n` present polls all show this text under this count. */
  predicate EndsWith(ps: seq<Poll>, n: nat, text: string, count: int) {
    n <= |ps| && forall j | |ps| - n <= j < |ps| :: ps[j].text == text && ps[j].count == count
  }

  predicate Tracks(t: Tracker, ps: seq<Poll>) {
    if ps == [] then t == UNSEEN
    else
      && t.text == ps[|ps| - 1].text && t.count == ps[|ps| - 1].count
      && EndsWith(ps, t.stable + 1, t.text, t.count)
  }

  lemma PresentOneMore(polls: seq<Poll>, i: nat)
    requires i < |polls|
    ensures Present(polls[..i + 1])
         == if polls[i].count > 0 then Present(polls[..i]) + [polls[i]] else Present(polls[..i])
  {
    assert polls[..i + 1][..i] == polls[..i];
  }

  lemma SeenTracks(t: Tracker, ps: seq<Poll>, p: Poll)
    requires Tracks(t, ps) && p.count > 0
    ensures Tracks(Seen(t, p), ps + [p])
  {
    var s, qs := Seen(t, p), ps + [p];
    assert forall j | 0 <= j < |ps| :: qs[j] == ps[j];
  }

  /** What a settled answer must look like at the poll it is returned at. */
  predicate FinalPoll(p: Poll, text: string, w: Wait) {
    && p.count > 0 && p.text == text && text != "" && |text| >= w.minChars
    && !p.stopVisible && !p.sandbox
    && (w.requireNew && w.baseline != "" && p.count <= w.startCount ==> NormalizeWs(text) != w.baseline)
  }

  lemma CarriedTracks(t: Tracker, ps: seq<Poll>, p: Poll, w: Wait)
    requires Tracks(t, ps)
    ensures Tracks(Carried(t, p, w), if p.count > 0 then ps + [p] else ps)
  {
    if p.count > 0 {
      SeenTracks(t, ps, p);
    }
  }

  lemma AcceptedIsFinal(t: Tracker, ps: seq<Poll>, p: Poll, w: Wait)
    requires Tracks(t, ps) && Accepts(t, p, w)
    ensures FinalPoll(p, p.text, w) && EndsWith(ps + [p], SETTLED + 1, p.text, p.count)
  {
    SeenTracks(t, ps, p);
  }

  /** How a wait ends when time is up: by what the last poll that saw a message saw, if there was one. */
  function EndOf(ps: seq<Poll>, w: Wait): Outcome {
    if ps == [] || ps[|ps| - 1].text == "" then NoContent
    else if |ps[|ps| - 1].text| < w.minChars then TooShort
    else Late(ps[|ps| - 1].text)
  }

  /** What soundness says about the outcome of watching these polls from poll `i` on. */
  predicate SoundOutcome(polls: seq<Poll>, i: nat, out: Outcome, w: Wait) {
    && (out.Returned? ==>
          && i <= out.at < |polls| && FinalPoll(polls[out.at], out.text, w)
          && EndsWith(Present(polls[..out.at + 1]), SETTLED + 1, out.text, polls[out.at].count))
    && (!out.Returned? ==> out == EndOf(Present(polls), w))
  }

  lemma ExpiredIsSound(polls: seq<Poll>, t: Tracker, w: Wait)
    requires Tracks(t, Present(polls))
    ensures SoundOutcome(polls, |polls|, Expired(t, w), w)
  {
    hide EndsWith, FinalPoll, Present;
  }

  lemma AcceptedIsSound(polls: seq<Poll>, i: nat, t: Tracker, w: Wait)
    requires i < |polls| && Tracks(t, Present(polls[..i])) && Accepts(t, polls[i], w)
    ensures SoundOutcome(polls, i, Returned(polls[i].text, i), w)
  {
    PresentOneMore(polls, i);
    AcceptedIsPresent(t, polls[i], w);
    AcceptedIsFinal(t, Present(polls[..i]), polls[i], w);
    hide FinalPoll, EndsWith, Accepts, Present, Tracks;
  }

  lemma WatchGoesOn(polls: seq<Poll>, i: nat, t: Tracker, w: Wait)
    requires i < |polls| && Tracks(t, Present(polls[..i])) && !Accepts(t, polls[i], w)
    ensures Watch(polls, i, t, w) == Watch(polls, i + 1, Carried(t, polls[i], w), w)
    ensures Tracks(Carried(t, polls[i], w), Present(polls[..i + 1]))
  {
    PresentOneMore(polls, i);
    CarriedTracks(t, Present(polls[..i]), polls[i], w);
    hide Accepts, Carried, Present, Tracks;
  }

  lemma {:induction false} WatchSound(polls: seq<Poll>, i: nat, t: Tracker, w: Wait)
    requires i <= |polls| && Tracks(t, Present(polls[..i]))
    ensures SoundOutcome(polls, i, Watch(polls, i, t, w), w)
    decreases |polls| - i
  {
    if i == |polls| {
      assert polls[..i] == polls;
      ExpiredIsSound(polls, t, w);
      assert Watch(polls, i, t, w) == Expired(t, w);
    } else if Accepts(t, polls[i], w) {
      AcceptedIsSound(polls, i, t, w);
      assert Watch(polls, i, t, w) == Returned(polls[i].text, i);
      hide SoundOutcome;
    } else {
      WatchGoesOn(polls, i, t, w);
      hide Watch, Accepts, Carried, Present, Tracks, FinalPoll, EndsWith, EndOf;
      WatchSound(polls, i + 1, Carried(t, polls[i], w), w);
    }
  }

  lemma AcceptedIsPresent(t: Tracker, p: Poll, w: Wait)
    requires Accepts(t, p, w)
    ensures p.count > 0
  {
  }

  /** The polls a wait watches once the answer has begun. */
  function Watched(polls: seq<Poll>, w: Wait): seq<Poll> {
    var s := FirstStarted(polls, 0, w);
    if s == |polls| then [] else polls[s + 1..]
  }

  /** Watching begins right after the first poll that shows the answer has begun. */
  lemma WatchedFromFirst(polls: seq<Poll>, w: Wait, s: nat)
    requires s < |polls| && Started(polls[s], w) && forall i | 0 <= i < s :: !Started(polls[i], w)
    ensures Watched(polls, w) == polls[s + 1..] && OutcomeOf(polls, w) == Watch(polls[s + 1..], 0, UNSEEN, w)
  {
    hide Started, Watch;
    FirstStartedIs(polls, 0, w, s);
  }

  lemma {:induction false} FirstStartedIs(polls: seq<Poll>, i: nat, w: Wait, s: nat)
    requires i <= s <= |polls| && (s < |polls| ==> Started(polls[s], w))
    requires forall j | i <= j < s :: !Started(polls[j], w)
    ensures FirstStarted(polls, i, w) == s
    decreases s - i
  {
    hide Started;
    if i < s {
      FirstStartedIs(polls, i + 1, w, s);
    }
  }

  /** The text a poll shows of the last message, normalised; empty if there is none. */
  function Shown(p: Poll): string {
    if p.count > 0 then NormalizeWs(p.text) else ""
  }

  /**
   * The answer has begun: there are more messages than before the question, unless a new one is wanted and the page
   * still quietly shows the old text; or, when a new one is wanted, the page shows some text other than the old one.
   */
  predicate ShowsAnswer(p: Poll, w: Wait) {
    var compares := w.requireNew && w.baseline != "";
    || (p.count > w.startCount && !(compares && !p.stopVisible && Shown(p) == w.baseline))
    || (compares && Shown(p) !in {"", w.baseline})
  }

  lemma StartedIff(p: Poll, w: Wait)
    ensures Started(p, w) <==> ShowsAnswer(p, w)
  {
    hide NormalizeWs;
  }

  /** A wait fails to start exactly if no poll before the deadline shows that the answer has begun. */
  lemma {:induction false} NotStartedIff(polls: seq<Poll>, w: Wait)
    ensures OutcomeOf(polls, w) == NotStarted <==> forall i | 0 <= i < |polls| :: !ShowsAnswer(polls[i], w)
  {
    hide Started, ShowsAnswer;
    forall i | 0 <= i < |polls|
      ensures Started(polls[i], w) <==> ShowsAnswer(polls[i], w)
    {
      StartedIff(polls[i], w);
    }
    if forall i | 0 <= i < |polls| :: !Started(polls[i], w) {
      FirstStartedIs(polls, 0, w, |polls|);
    } else {
      var s := FirstStartedExists(polls, w);
      WatchedFromFirst(polls, w, s);
      ReturnedAnswerIsSettled(polls, w);
      WatchGoesSomewhere(polls[s + 1..], 0, UNSEEN, w);
    }
    hide Watch, OutcomeOf;
  }

  lemma {:induction false} WatchGoesSomewhere(polls: seq<Poll>, i: nat, t: Tracker, w: Wait)
    requires i <= |polls|
    ensures Watch(polls, i, t, w) != NotStarted
    decreases |polls| - i
  {
    hide Accepts, Carried;
    if i < |polls| && !Accepts(t, polls[i], w) {
      WatchGoesSomewhere(polls, i + 1, Carried(t, polls[i], w), w);
    }
  }

  lemma FirstStartedExists(polls: seq<Poll>, w: Wait) returns (s: nat)
    requires exists i | 0 <= i < |polls| :: Started(polls[i], w)
    ensures s < |polls| && Started(polls[s], w) && forall i | 0 <= i < s :: !Started(polls[i], w)
  {
    hide Started;
    s := 0;
    while !Started(polls[s], w)
      invariant s < |polls| && forall i | 0 <= i < s :: !Started(polls[i], w)
      decreases |polls| - s
    {
      s := s + 1;
    }
  }

  /**
   * Soundness: an answer returned before the deadline was non-empty, long enough and new, with no stop button and no
   * sandbox at that poll, and the last five polls that saw a message all saw this text under this count. If the answer
   * began but did not settle, the last poll that saw a message decides: its text is returned late if it is long enough,
   * is too short, or was not there.
   */
  lemma ReturnedAnswerIsSettled(polls: seq<Poll>, w: Wait)
    ensures var out := OutcomeOf(polls, w);
            var seen := Watched(polls, w);
            && (out.Returned? ==>
                  && out.at < |seen| && FinalPoll(seen[out.at], out.text, w)
                  && EndsWith(Present(seen[..out.at + 1]), 5, out.text, seen[out.at].count))
            && (!out.Returned? && !out.NotStarted? ==> out == EndOf(Present(seen), w))
  {
    hide FinalPoll, EndsWith;
    var seen := Watched(polls, w);
    assert seen[..0] == [];
    if FirstStarted(polls, 0, w) < |polls| {
      WatchSound(seen, 0, UNSEEN, w);
    }
  }

  /**
   * A settled run: the last five present polls show this text under this count, the last one would do as the final one,
   * and no sandbox was open at the three before it. What the stop button did before the last one does not matter.
   */
  predicate CleanRun(ps: seq<Poll>, text: string, count: int, w: Wait) {
    && EndsWith(ps, SETTLED + 1, text, count)
    && FinalPoll(ps[|ps| - 1], text, w)
    && forall j | |ps| - SETTLED <= j < |ps| - 1 :: !ps[j].sandbox
  }

  lemma {:induction false} PresentGrows(polls: seq<Poll>, i: nat, j: nat)
    requires i <= j <= |polls|
    ensures Present(polls[..i]) <= Present(polls[..j])
    decreases j
  {
    if i < j {
      PresentOneMore(polls, j - 1);
      PresentGrows(polls, i, j - 1);
    }
  }

  /** One more poll of the run: the tracker moves on by one, unless a sandbox is open at the first. */
  lemma CleanPoll(t: Tracker, p: Poll, n: nat, text: string, w: Wait)
    requires p.count > 0 && p.text == text && text != ""
    requires n > 0 ==> t.text == text && t.count == p.count && t.stable >= n - 1 && !p.sandbox
    ensures Carried(t, p, w).stable >= n
  {
    hide NormalizeWs;
  }

  /** The fifth poll of the run is accepted. */
  lemma FifthPoll(t: Tracker, p: Poll, text: string, w: Wait)
    requires FinalPoll(p, text, w) && t.text == text && t.count == p.count && t.stable >= SETTLED - 1
    ensures Accepts(t, p, w)
  {
    hide NormalizeWs;
  }

  /** A poll that sees a message, with all the polls up to the end of the run known: accepted, or one step nearer. */
  lemma CleanStep(t: Tracker, p: Poll, ps: seq<Poll>, all: seq<Poll>, text: string, count: int, w: Wait)
    requires p.count > 0 && ps + [p] <= all && Tracks(t, ps) && CleanRun(all, text, count, w)
    requires t.stable >= |ps| - (|all| - SETTLED - 1) - 1
    ensures Accepts(t, p, w)
         || (|ps| + 1 < |all| && Carried(t, p, w).stable >= |ps| + 1 - (|all| - SETTLED - 1) - 1)
  {
    hide FinalPoll, Accepts, Carried;
    var n := |ps| - (|all| - SETTLED - 1);
    assert all[|ps|] == (ps + [p])[|ps|] == p;
    FinalText(all[|all| - 1], text, w);
    if n >= 0 {
      if n > 0 {
        assert all[|ps| - 1] == (ps + [p])[|ps| - 1] == ps[|ps| - 1];
      }
      if n == SETTLED {
        FifthPoll(t, p, text, w);
      } else {
        CleanPoll(t, p, n, text, w);
      }
    }
  }

  /**
   * With a clean run of five ending before poll `end`, the ones before poll `i` seen and counted, the wait returns
   * before poll `end`.
   */
  lemma {:induction false} WatchComplete(
      polls: seq<Poll>, i: nat, t: Tracker, w: Wait, end: nat, text: string, count: int)
    requires i <= end <= |polls| && Tracks(t, Present(polls[..i]))
    requires CleanRun(Present(polls[..end]), text, count, w)
    requires |Present(polls[..i])| < |Present(polls[..end])|
    requires t.stable >= |Present(polls[..i])| - (|Present(polls[..end])| - SETTLED - 1) - 1
    ensures Watch(polls, i, t, w).Returned? && Watch(polls, i, t, w).at < end
    decreases end - i
  {
    hide FinalPoll, Accepts, Carried, CleanRun, Tracks;
    var p, ps, all := polls[i], Present(polls[..i]), Present(polls[..end]);
    PresentOneMore(polls, i);
    PresentGrows(polls, i, end);
    PresentGrows(polls, i + 1, end);
    if !Accepts(t, p, w) {
      CarriedTracks(t, ps, p, w);
      if p.count > 0 {
        CleanStep(t, p, ps, all, text, count, w);
      } else {
        CarriedNothing(t, p, w);
      }
      WatchComplete(polls, i + 1, Carried(t, p, w), w, end, text, count);
    }
  }

  lemma FinalText(p: Poll, text: string, w: Wait)
    requires FinalPoll(p, text, w)
    ensures p.text == text && text != ""
  {
  }

  lemma CarriedNothing(t: Tracker, p: Poll, w: Wait)
    requires p.count <= 0
    ensures Carried(t, p, w) == t
  {
  }

  /**
   * Completeness: once the answer has begun, five polls in a row (skipping those that see no message) that show the
   * same text under the same count make the wait return no later than at the fifth, if that one would do as the final
   * one and no sandbox was open at the three before it.
   */
  lemma FiveCleanPollsReturn(polls: seq<Poll>, w: Wait, end: nat, text: string, count: int)
    requires end <= |Watched(polls, w)|
    requires CleanRun(Present(Watched(polls, w)[..end]), text, count, w)
    ensures OutcomeOf(polls, w).Returned? && OutcomeOf(polls, w).at < end
  {
    hide FinalPoll;
    var seen := Watched(polls, w);
    assert seen[..0] == [];
    WatchComplete(seen, 0, UNSEEN, w, end, text, count);
  }
}
