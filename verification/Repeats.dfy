/**
 * Exactly when the service of `Ask` sends a key's prompt again, for every run of overlapping asks, jobs, updates and
 * restarts, with a run for each way it happens.
 */
module Repeats {
  import opened Wrappers
  import opened Text
  import opened Answers
  import opened Ledger
  import opened Ask
  import Jobs

  type Task = Jobs.Task

  // ---- The tallies are exact -----------------------------------------------------------------------

  predicate StaleJob(w: World, k: Key) {
    InfoOn(w, k).Some? && InfoOn(w, k).value.stale
  }

  /**
   * Every loss was a prompt, and a stale start is behind every stale job; as long as the row does not say sent, there
   * was no stale start and every prompt was lost or is about to be recorded.
   */
  predicate Exact(w: World, k: Key) {
    && Count(w.lost, k) + AsNat(Exposed(w, k)) <= Count(w.prompts, k)
    && (StaleJob(w, k) ==> Count(w.stale, k) > 0)
    && (!IsSent(w, k) ==>
          Count(w.stale, k) == 0 && Count(w.prompts, k) == Count(w.lost, k) + AsNat(Exposed(w, k)))
  }

  /** The two worlds agree on a key's tallies and job, and the second has not forgotten a send. */
  predicate SameFor(w: World, v: World, k: Key) {
    && Count(v.prompts, k) == Count(w.prompts, k) && Count(v.lost, k) == Count(w.lost, k)
    && Count(v.stale, k) == Count(w.stale, k)
    && InfoOn(v, k) == InfoOn(w, k)
    && (IsSent(w, k) ==> IsSent(v, k))
  }

  lemma SameStaysExact(w: World, v: World, k: Key)
    requires Exact(w, k) && SameFor(w, v, k)
    ensures Exact(v, k)
  {
  }

  /** A started job is the job of its key; the others keep theirs. */
  lemma InfoStarts(w: World, key: Key, kind: Jobs.Kind, k: Key)
    requires TasksOk(w) && Jobs.Running(w.reg, key).None?
    ensures InfoOn(w, key) == None
    ensures var v := Launch(w, key, kind);
            && w.reg.next in v.info
            && InfoOn(v, k) == if k == key then Some(v.info[w.reg.next]) else InfoOn(w, k)
  {
    assert k in w.reg.jobs ==> w.reg.jobs[k].task != w.reg.next;
  }

  lemma LaunchExact(w: World, key: Key, kind: Jobs.Kind, k: Key)
    requires TasksOk(w) && Exact(w, k)
    ensures Exact(Launch(w, key, kind), k)
  {
    if Jobs.Running(w.reg, key).None? {
      InfoStarts(w, key, kind, k);
      hide TasksOk, InfoOn, Jobs.Running;
    }
  }

  lemma ReadExact(w: World, ctx: Context, now: int, win: Windows, k: Key)
    requires TasksOk(w) && Exact(w, k)
    ensures TasksOk(AfterRead(w, ctx, now, win)) && Exact(AfterRead(w, ctx, now, win), k)
  {
    BeginSameSent(w.rows, ctx, w.runtime, now, win);
    hide AfterBegin;
    SameStaysExact(w, AfterRead(w, ctx, now, win), k);
  }

  lemma AskNowExact(w: World, ctx: Context, callerUrl: string, now: int, win: Windows, k: Key)
    requires TasksOk(w) && Exact(w, k)
    ensures Exact(AfterAskNow(w, ctx, callerUrl, now, win), k)
  {
    ReadExact(w, ctx, now, win, k);
    hide TasksOk, Exact, Launch, AfterRead, BeginPlan;
    var plan := BeginPlan(w, ctx, callerUrl, now, win);
    if plan.Run? {
      LaunchExact(AfterRead(w, ctx, now, win), ctx.key, JobKind(plan.intent), k);
    }
  }

  lemma AsksExact(w: World, asks: map<nat, Pending>, k: Key)
    requires TasksOk(w) && Exact(w, k)
    ensures TasksOk(w.(asks := asks)) && Exact(w.(asks := asks), k)
  {
    SameStaysExact(w, w.(asks := asks), k);
  }

  lemma AskReadExact(w: World, ask: nat, ctx: Context, callerUrl: string, now: int, win: Windows, k: Key)
    requires TasksOk(w) && Exact(w, k)
    ensures Exact(AfterAskRead(w, ask, ctx, callerUrl, now, win), k)
  {
    hide TasksOk, Exact, AfterBegin, BeginPlan;
    ReadExact(w, ctx, now, win, k);
    AsksExact(AfterRead(w, ctx, now, win), AfterAskRead(w, ask, ctx, callerUrl, now, win).asks, k);
  }

  lemma AskCheckExact(w: World, ask: nat, k: Key)
    requires TasksOk(w) && Exact(w, k)
    ensures Exact(AfterAskCheck(w, ask), k)
  {
    hide TasksOk, Exact;
    AsksExact(w, AfterAskCheck(w, ask).asks, k);
  }

  lemma AskStartExact(w: World, ask: nat, k: Key)
    requires TasksOk(w) && Exact(w, k)
    ensures Exact(AfterAskStart(w, ask), k)
  {
    hide TasksOk, Exact, Launch;
    if ask in w.asks {
      AsksExact(w, w.asks - {ask}, k);
      LaunchExact(w.(asks := w.asks - {ask}), w.asks[ask].intent.key, JobKind(w.asks[ask].intent), k);
    }
  }

  lemma UpdateExact(w: World, key: Key, patch: Patch, now: int, k: Key)
    requires Exact(w, k)
    ensures Exact(w.(rows := AfterUpdate(w.rows, key, patch, now)), k)
  {
    hide NextUrl, NextResult;
    SameStaysExact(w, w.(rows := AfterUpdate(w.rows, key, patch, now)), k);
  }

  lemma AskReplyExact(w: World, ask: nat, patch: Patch, now: int, k: Key)
    requires TasksOk(w) && Exact(w, k)
    ensures Exact(AfterAskReply(w, ask, patch, now), k)
  {
    hide TasksOk, Exact, AfterUpdate;
    if ask in w.asks {
      var i := w.asks[ask].intent;
      AsksExact(w, w.asks - {ask}, k);
      UpdateExact(w.(asks := w.asks - {ask}), i.key, WithSent(patch, Some(i.sent)), now, k);
    }
  }

  /** A task with information is the live job of its key. */
  lemma TaskIsTheJob(w: World, t: Task)
    requires TasksOk(w) && t in w.info
    ensures t in w.reg.keyOf && InfoOn(w, w.reg.keyOf[t]) == Some(w.info[t])
    ensures forall k: Key | k != w.reg.keyOf[t] && Jobs.Running(w.reg, k).Some? ::
              Jobs.Running(w.reg, k).value.task != t
  {
  }

  /** Changing what is known of a task changes it for the job of its key and no other. */
  lemma InfoChanges(w: World, v: World, t: Task, k: Key)
    requires TasksOk(w) && t in w.info && v.reg == w.reg && t in v.info && v.info == w.info[t := v.info[t]]
    ensures t in w.reg.keyOf
    ensures InfoOn(v, k) == if k == w.reg.keyOf[t] then Some(v.info[t]) else InfoOn(w, k)
  {
    TaskIsTheJob(w, t);
    hide TasksOk;
  }

  lemma PromptExact(w: World, t: Task, k: Key)
    requires TasksOk(w) && Exact(w, k)
    ensures Exact(AfterSendPrompt(w, t), k)
  {
    if t in w.info {
      TaskIsTheJob(w, t);
      InfoChanges(w, AfterSendPrompt(w, t), t, k);
      hide TasksOk, InfoOn, Jobs.Running;
    }
  }

  lemma JobUpdateExact(w: World, t: Task, patch: Patch, now: int, k: Key)
    requires TasksOk(w) && Exact(w, k)
    ensures Exact(AfterJobUpdate(w, t, patch, now), k)
  {
    hide NextUrl, NextResult;
    if t in w.info {
      TaskIsTheJob(w, t);
      assert w.reg.keyOf[t] in w.rows;
      hide TasksOk;
      var v := AfterJobUpdate(w, t, patch, now);
      if k != w.reg.keyOf[t] || patch.sent != Some(true) {
        SameStaysExact(w, v, k);
      }
    }
  }

  lemma JobDoneExact(w: World, t: Task, k: Key)
    requires TasksOk(w) && Exact(w, k)
    ensures Exact(AfterJobDone(w, t), k)
  {
    if t in w.info {
      TaskIsTheJob(w, t);
      hide TasksOk;
      var v := AfterJobDone(w, t);
      if k != w.reg.keyOf[t] {
        SameStaysExact(w, v, k);
      }
    }
  }

  lemma CleanupExact(w: World, t: Task, k: Key)
    requires TasksOk(w) && Exact(w, k)
    ensures Exact(AfterCleanupJob(w, t), k)
  {
    Jobs.LateCleanupIsHarmless(w.reg, t, k);
    SameStaysExact(w, AfterCleanupJob(w, t), k);
  }

  lemma RestartExact(w: World, runtime: string, k: Key)
    requires TasksOk(w) && Exact(w, k)
    ensures Exact(AfterProcessRestart(w, runtime), k)
  {
  }

  lemma NextExact(w: World, e: Event, k: Key)
    requires TasksOk(w) && Exact(w, k)
    ensures Exact(Next(w, e), k)
  {
    hide TasksOk, Exact, AfterAskRead, AfterAskCheck, AfterAskStart, AfterAskReply, AfterAskNow, Launch, AfterUpdate,
      AfterSendPrompt, AfterJobUpdate, AfterJobDone, AfterCleanupJob, AfterProcessRestart;
    match e
    case AskRead(ask, ctx, callerUrl, now, win) => AskReadExact(w, ask, ctx, callerUrl, now, win, k);
    case AskCheck(ask) => AskCheckExact(w, ask, k);
    case AskStart(ask) => AskStartExact(w, ask, k);
    case AskReply(ask, patch, now) => AskReplyExact(w, ask, patch, now, k);
    case AskNow(ctx, callerUrl, now, win) => AskNowExact(w, ctx, callerUrl, now, win, k);
    case WaitStart(key) => LaunchExact(w, key, Jobs.ResumeWait, k);
    case OtherUpdate(key, patch, now) => UpdateExact(w, key, WithSent(patch, None), now, k);
    case SendPrompt(t) => PromptExact(w, t, k);
    case JobUpdate(t, patch, now) => JobUpdateExact(w, t, patch, now, k);
    case JobDone(t) => JobDoneExact(w, t, k);
    case CleanupJob(t) => CleanupExact(w, t, k);
    case Restart(runtime) => RestartExact(w, runtime, k);
  }

  lemma {:induction false} RunExact(runtime: string, es: seq<Event>, k: Key)
    ensures TasksOk(After(Initial(runtime), es)) && Exact(After(Initial(runtime), es), k)
  {
    RunSound(runtime, es, k);
    if es != [] {
      RunExact(runtime, es[..|es| - 1], k);
      NextExact(After(Initial(runtime), es[..|es| - 1]), es[|es| - 1], k);
    }
  }

  // ---- When a prompt is a repeat -------------------------------------------------------------------

  /** This event really sends the prompt of this key. */
  predicate Sends(w: World, e: Event, k: Key) {
    && e.SendPrompt? && e.task in w.info && e.task in w.reg.keyOf
    && w.info[e.task].phase == Unsent && w.reg.keyOf[e.task] == k
  }

  lemma PromptsAreSends(w: World, e: Event, k: Key)
    ensures Count(Next(w, e).prompts, k) == Count(w.prompts, k) + AsNat(Sends(w, e, k))
  {
    if e.SendPrompt? {
      OnlyThisKey(w, e.task, k);
    } else {
      OthersSendNothing(w, e);
    }
    hide AfterAskRead, AfterAskCheck, AfterAskStart, AfterAskReply, AfterAskNow, AfterWaitStart, AfterOtherUpdate,
      AfterSendPrompt, AfterJobUpdate, AfterJobDone, AfterCleanupJob, AfterProcessRestart;
  }

  predicate IsAsk(e: Event) {
    e.AskRead? || e.AskCheck? || e.AskStart? || e.AskReply? || e.AskNow?
  }

  lemma OthersSendNothing(w: World, e: Event)
    requires !e.SendPrompt?
    ensures Next(w, e).prompts == w.prompts
  {
    hide AfterAskRead, AfterAskCheck, AfterAskStart, AfterAskReply, AfterAskNow, AfterSendPrompt, AfterUpdate, Exposed,
      Bump, Launch;
  }

  lemma OnlyThisKey(w: World, t: Task, k: Key)
    ensures Count(AfterSendPrompt(w, t).prompts, k) == Count(w.prompts, k) + AsNat(Sends(w, SendPrompt(t), k))
  {
  }

  function StateAt(runtime: string, es: seq<Event>, i: nat): World
    requires i <= |es|
  {
    After(Initial(runtime), es[..i])
  }

  predicate SendsAt(runtime: string, es: seq<Event>, i: nat, k: Key)
    requires i < |es|
  {
    Sends(StateAt(runtime, es, i), es[i], k)
  }

  /** The job that sends at this point was started on a row that already said sent. */
  predicate IsStaleAt(runtime: string, es: seq<Event>, i: nat)
    requires i < |es|
  {
    var w := StateAt(runtime, es, i);
    es[i].SendPrompt? && es[i].task in w.info && w.info[es[i].task].stale
  }

  predicate PromptedAt(runtime: string, es: seq<Event>, i: nat, k: Key)
    requires i <= |es|
  {
    Count(StateAt(runtime, es, i).prompts, k) > 0
  }

  predicate LostAt(runtime: string, es: seq<Event>, i: nat, k: Key)
    requires i <= |es|
  {
    Count(StateAt(runtime, es, i).lost, k) > 0
  }

  /**
   * In every run: when a job that was not started stale is about to send, the key's prompts so far are exactly the
   * lost ones, so its prompt is a repeat if and only if one was lost.
   */
  lemma PromptsWereLost(runtime: string, es: seq<Event>, i: nat, k: Key)
    requires i < |es| && SendsAt(runtime, es, i, k) && !IsStaleAt(runtime, es, i)
    ensures var w := StateAt(runtime, es, i);
            Count(w.prompts, k) == Count(w.lost, k)
  {
    var w := StateAt(runtime, es, i);
    RunExact(runtime, es[..i], k);
    TaskIsTheJob(w, es[i].task);
    hide Jobs.Consistent, After;
  }

  lemma SameBefore(runtime: string, es: seq<Event>, n: nat, i: nat, k: Key)
    requires i < n <= |es|
    ensures SendsAt(runtime, es, i, k) == SendsAt(runtime, es[..n], i, k)
    ensures PromptedAt(runtime, es, i, k) == PromptedAt(runtime, es[..n], i, k)
  {
    assert es[..n][..i] == es[..i];
  }

  lemma OneMorePrompt(runtime: string, es: seq<Event>, k: Key)
    requires es != []
    ensures var n := |es| - 1;
            && PromptsOf(runtime, es, k) == PromptsOf(runtime, es[..n], k) + AsNat(SendsAt(runtime, es, n, k))
            && (PromptedAt(runtime, es, n, k) <==> PromptsOf(runtime, es[..n], k) > 0)
  {
    PromptsAreSends(After(Initial(runtime), es[..|es| - 1]), es[|es| - 1], k);
    hide Next, Sends;
  }

  function PromptsOf(runtime: string, es: seq<Event>, k: Key): nat {
    Count(After(Initial(runtime), es).prompts, k)
  }

  /** A key is prompted more than once if and only if some event sends its prompt when it was prompted already. */
  lemma {:induction false} MoreThanOnePrompt(runtime: string, es: seq<Event>, k: Key)
    ensures PromptsOf(runtime, es, k) > 1 <==>
              exists i | 0 <= i < |es| :: SendsAt(runtime, es, i, k) && PromptedAt(runtime, es, i, k)
  {
    if es != [] {
      hide SendsAt, PromptedAt, PromptsOf;
      var n := |es| - 1;
      var front := es[..n];
      MoreThanOnePrompt(runtime, front, k);
      OneMorePrompt(runtime, es, k);
      forall i | 0 <= i < n
        ensures SendsAt(runtime, es, i, k) == SendsAt(runtime, front, i, k)
        ensures PromptedAt(runtime, es, i, k) == PromptedAt(runtime, front, i, k)
      {
        SameBefore(runtime, es, n, i, k);
      }
    }
  }

  /** The send at this point repeats a prompt: a stale job after some prompt, or any other job after a lost one. */
  predicate RepeatsAt(runtime: string, es: seq<Event>, i: nat, k: Key)
    requires i < |es|
  {
    && SendsAt(runtime, es, i, k)
    && if IsStaleAt(runtime, es, i) then PromptedAt(runtime, es, i, k) else LostAt(runtime, es, i, k)
  }

  /**
   * Over every run of reads, checks, starts, waits, job updates, job ends, cleanups and restarts, in any order: a
   * key's prompt is sent at most once, plus once for each job that ended after sending and before recording it,
   * plus once for each send job that a stale read started on a row already marked sent. It goes out a second time if
   * and only if a job sends that was started stale after a prompt, or that was not and follows a lost one.
   */
  lemma PromptsAreAccountedFor(runtime: string, es: seq<Event>, k: Key)
    ensures var w := After(Initial(runtime), es);
            && Count(w.lost, k) <= Count(w.prompts, k) <= 1 + Count(w.lost, k) + Count(w.stale, k)
            && (PromptsOf(runtime, es, k) > 1 <==> exists i | 0 <= i < |es| :: RepeatsAt(runtime, es, i, k))
  {
    RunSound(runtime, es, k);
    RunExact(runtime, es, k);
    var w := After(Initial(runtime), es);
    assert !(IsSent(w, k) && CleanlyExposed(w, k));
    hide TasksOk, AsksOk, InfoOn, After;
    MoreThanOnePrompt(runtime, es, k);
    forall i | 0 <= i < |es| && SendsAt(runtime, es, i, k)
      ensures RepeatsAt(runtime, es, i, k) <==> PromptedAt(runtime, es, i, k)
    {
      if !IsStaleAt(runtime, es, i) {
        PromptsWereLost(runtime, es, i, k);
      }
    }
  }

  // ---- Jobs that record only what happened -----------------------------------------------------------

  /** A job records a key as sent only if a prompt of the key went out. */
  predicate IsTruthful(w: World, e: Event, k: Key) {
    e.JobUpdate? && e.patch.sent == Some(true) && e.task in w.info && e.task in w.reg.keyOf && w.reg.keyOf[e.task] == k
    ==> Count(w.prompts, k) > 0
  }

  predicate TruthfulRun(runtime: string, es: seq<Event>, k: Key) {
    forall i | 0 <= i < |es| :: IsTruthful(StateAt(runtime, es, i), es[i], k)
  }

  lemma AskSetsNoFlag(w: World, e: Event, k: Key)
    requires AsksOk(w) && IsAsk(e) && IsSent(Next(w, e), k)
    ensures IsSent(w, k)
  {
    if e.AskRead? || e.AskNow? {
      BeginSameSent(w.rows, e.ctx, w.runtime, e.now, e.w);
    }
    hide AfterBegin, NextUrl, NextResult, AfterAskRead, AfterAskNow, AfterAskCheck, AfterAskStart, AfterWaitStart,
      AfterOtherUpdate, AfterSendPrompt, AfterJobUpdate, AfterJobDone, AfterCleanupJob, AfterProcessRestart;
  }

  /** Only a job sets the sent flag. */
  lemma SentByJob(w: World, e: Event, k: Key)
    requires AsksOk(w) && IsSent(Next(w, e), k) && !IsSent(w, k)
    ensures e.JobUpdate? && e.patch.sent == Some(true) && e.task in w.info && e.task in w.reg.keyOf
    ensures w.reg.keyOf[e.task] == k
  {
    hide AfterAskRead, AfterAskCheck, AfterAskStart, AfterAskReply, AfterAskNow, NextUrl, NextResult, Bump, Exposed,
      Launch, Jobs.AfterDone, Jobs.AfterCleanup, Jobs.AfterRestart;
    if IsAsk(e) {
      AskSetsNoFlag(w, e, k);
    }
  }

  lemma TruthfulPrefix(runtime: string, es: seq<Event>, n: nat, k: Key)
    requires TruthfulRun(runtime, es, k) && n <= |es|
    ensures TruthfulRun(runtime, es[..n], k)
  {
    hide IsTruthful, After;
    forall i | 0 <= i < n
      ensures IsTruthful(StateAt(runtime, es[..n], i), es[..n][i], k)
    {
      assert es[..n][..i] == es[..i];
      assert IsTruthful(StateAt(runtime, es, i), es[i], k);
    }
  }

  lemma {:induction false} SentWasPrompted(runtime: string, es: seq<Event>, k: Key)
    requires TruthfulRun(runtime, es, k)
    ensures IsSent(After(Initial(runtime), es), k) ==> PromptsOf(runtime, es, k) > 0
  {
    if es != [] {
      var n := |es| - 1;
      var w := After(Initial(runtime), es[..n]);
      TruthfulPrefix(runtime, es, n, k);
      SentWasPrompted(runtime, es[..n], k);
      RunSound(runtime, es[..n], k);
      PromptsAreSends(w, es[n], k);
      assert IsTruthful(StateAt(runtime, es, n), es[n], k);
      hide TasksOk, AsksOk, Next, TruthfulRun, Sends, IsSent, Count;
      if IsSent(Next(w, es[n]), k) && !IsSent(w, k) {
        SentByJob(w, es[n], k);
      }
    }
  }

  /**
   * If jobs record only prompts that went out, a key's prompt is sent more than once if and only if some job sends
   * that was started stale, or that sends after a prompt of the key was lost.
   */
  lemma SentAgainIff(runtime: string, es: seq<Event>, k: Key)
    requires TruthfulRun(runtime, es, k)
    ensures PromptsOf(runtime, es, k) > 1 <==>
              exists i | 0 <= i < |es| ::
                SendsAt(runtime, es, i, k) && (IsStaleAt(runtime, es, i) || LostAt(runtime, es, i, k))
  {
    PromptsAreAccountedFor(runtime, es, k);
    forall i | 0 <= i < |es| && SendsAt(runtime, es, i, k)
      ensures RepeatsAt(runtime, es, i, k) <==> IsStaleAt(runtime, es, i) || LostAt(runtime, es, i, k)
    {
      if IsStaleAt(runtime, es, i) {
        StaleWasPrompted(runtime, es, i, k);
      }
    }
    hide SendsAt, IsStaleAt, LostAt;
  }

  lemma StaleWasPrompted(runtime: string, es: seq<Event>, i: nat, k: Key)
    requires i < |es| && TruthfulRun(runtime, es, k) && SendsAt(runtime, es, i, k) && IsStaleAt(runtime, es, i)
    ensures PromptedAt(runtime, es, i, k)
  {
    RunExact(runtime, es[..i], k);
    TaskIsTheJob(StateAt(runtime, es, i), es[i].task);
    TruthfulPrefix(runtime, es, i, k);
    SentWasPrompted(runtime, es[..i], k);
  }

  /**
   * Exactly which step starts a send job on a row that says sent: the last piece of a split ask that passed its check,
   * wants to send, and finds no live job.
   */
  lemma StaleStartIff(w: World, e: Event)
    ensures Next(w, e).stale != w.stale <==>
              && e.AskStart? && e.ask in w.asks && w.asks[e.ask].Deciding? && w.asks[e.ask].checked
              && JobKind(w.asks[e.ask].intent) == Jobs.Send
              && IsSent(w, w.asks[e.ask].intent.key)
              && Jobs.Running(w.reg, w.asks[e.ask].intent.key).None?
  {
    if !e.AskStart? {
      AtomicStep(w, e);
    }
  }

  /** In runs of unsplit asks a prompt is repeated if and only if a job sends after a prompt of the key was lost. */
  lemma AtomicRepeatIff(runtime: string, es: seq<Event>, k: Key)
    requires AsksAreAtomic(es)
    ensures PromptsOf(runtime, es, k) > 1 <==>
              exists i | 0 <= i < |es| :: SendsAt(runtime, es, i, k) && LostAt(runtime, es, i, k)
  {
    hide SendsAt, IsStaleAt, LostAt, PromptedAt, AsksAreAtomic;
    PromptsAreAccountedFor(runtime, es, k);
    forall i | 0 <= i < |es| && SendsAt(runtime, es, i, k)
      ensures RepeatsAt(runtime, es, i, k) <==> LostAt(runtime, es, i, k)
    {
      AtomicSendIsNotStale(runtime, es, i, k);
    }
    hide After, RepeatsAt;
  }

  /**
   * Exactly one sender: in every run of unsplit asks, no send job is ever started on a row that says sent, and each
   * key's prompt is sent at most once plus once per job lost between sending and recording. It is sent more than once
   * if and only if some job sends after a prompt of the key was lost.
   */
  lemma ExactlyOneSender(runtime: string, es: seq<Event>, k: Key)
    requires AsksAreAtomic(es)
    ensures PromptsOf(runtime, es, k) <= 1 + Count(After(Initial(runtime), es).lost, k)
    ensures PromptsOf(runtime, es, k) > 1 <==>
              exists i | 0 <= i < |es| :: SendsAt(runtime, es, i, k) && LostAt(runtime, es, i, k)
    ensures forall i | 0 <= i < |es| :: StartsSendAt(runtime, es, i) ==>
              es[i].AskNow? && !IsSent(StateAt(runtime, es, i), es[i].ctx.key)
  {
    PromptsAreAccountedFor(runtime, es, k);
    AtomicAsksAreNeverStale(runtime, es, k);
    AtomicRepeatIff(runtime, es, k);
    hide SendsAt, LostAt, RepeatsAt, StartsSendAt, StateAt, After, IsSent;
    forall i | 0 <= i < |es| && StartsSendAt(runtime, es, i)
      ensures es[i].AskNow? && !IsSent(StateAt(runtime, es, i), es[i].ctx.key)
    {
      AtomicStartIsOnUnsent(runtime, es, i);
    }
  }

  lemma AtomicSendIsNotStale(runtime: string, es: seq<Event>, i: nat, k: Key)
    requires AsksAreAtomic(es) && i < |es| && SendsAt(runtime, es, i, k)
    ensures !IsStaleAt(runtime, es, i)
  {
    AtomicAsksAreNeverStale(runtime, es[..i], k);
    RunExact(runtime, es[..i], k);
    TaskIsTheJob(StateAt(runtime, es, i), es[i].task);
  }

  lemma AtomicStartIsOnUnsent(runtime: string, es: seq<Event>, i: nat)
    requires AsksAreAtomic(es) && i < |es| && StartsSendAt(runtime, es, i)
    ensures es[i].AskNow? && !IsSent(StateAt(runtime, es, i), es[i].ctx.key)
  {
    AtomicStep(After(Initial(runtime), es[..i]), es[i]);
  }

  // ---- A run for each way a prompt is repeated --------------------------------------------------------

  lemma StepAt(runtime: string, es: seq<Event>, i: nat)
    requires i < |es|
    ensures StateAt(runtime, es, i + 1) == Next(StateAt(runtime, es, i), es[i])
    ensures StateAt(runtime, es, 0) == Initial(runtime)
    ensures StateAt(runtime, es, |es|) == After(Initial(runtime), es)
  {
    assert es[..i + 1][..i] == es[..i] && es[..|es|] == es;
  }

  lemma FirstStep(runtime: string, es: seq<Event>, ctx: Context, now: int, win: Windows)
    requires es != [] && es[0] == AskNow(ctx, "", now, win)
    ensures StateAt(runtime, es, 1) == FirstAsk(runtime, ctx, now)
  {
    assert es[..1] == [AskNow(ctx, "", now, win)];
    FirstAskStartsTaskZero(runtime, ctx, "", now, win);
  }

  /** The ids that processes give themselves are not blank and hold no outer white space. */
  predicate IsRuntimeId(runtime: string) {
    Strip(runtime) == runtime != ""
  }

  const SENT := Patch(None, Some(true), None, None, None)

  /** The world in which `ctx` was asked for the first time and its send job runs as task 0. */
  function FirstAsk(runtime: string, ctx: Context, now: int): World {
    Initial(runtime).(
      rows := map[ctx.key := NewRow(ctx, runtime, now)],
      reg := Jobs.Registry(map[ctx.key := Jobs.Job(0, Jobs.Send)], map[0 := ctx.key], {0}, {}, 1),
      info := map[0 := Info(Jobs.Send, Unsent, false)])
  }

  lemma FirstAskStartsTaskZero(runtime: string, ctx: Context, callerUrl: string, now: int, win: Windows)
    ensures After(Initial(runtime), [AskNow(ctx, callerUrl, now, win)]) == FirstAsk(runtime, ctx, now)
  {
    assert [AskNow(ctx, callerUrl, now, win)][..0] == [];
    assert After(Initial(runtime), []) == Initial(runtime);
  }

  /** The same world with a second ask past its check, on its way to start a job. */
  function SecondAskReady(runtime: string, ctx: Context, now: int): World {
    FirstAsk(runtime, ctx, now).(asks := map[1 := Deciding(Intent(ctx.key, false, ""), true)])
  }

  /** ... and after the first ask's job has sent the prompt, recorded it and ended. */
  function FirstJobEnded(runtime: string, ctx: Context, now: int): World {
    SecondAskReady(runtime, ctx, now).(
      rows := map[ctx.key := Updated(NewRow(ctx, runtime, now), SENT, now)],
      reg := Jobs.Registry(map[ctx.key := Jobs.Job(0, Jobs.Send)], map[0 := ctx.key], {}, {0}, 1),
      info := map[],
      prompts := map[ctx.key := 1])
  }

  lemma SecondAskReads(runtime: string, ctx: Context, now: int, win: Windows)
    requires now > 0 && IsRuntimeId(runtime)
    ensures AfterAskCheck(AfterAskRead(FirstAsk(runtime, ctx, now), 1, ctx, "", now, win), 1)
         == SecondAskReady(runtime, ctx, now)
  {
    var w := FirstAsk(runtime, ctx, now);
    assert BeginOn(w.rows, ctx, runtime, now, win) == BeginOutcome(Replay, Some(NewRow(ctx, runtime, now))) by {
      hide StartsWith, Lower, Strip;
    }
    assert AfterBegin(w.rows, ctx, runtime, now, win) == w.rows;
    hide BeginOn, AfterBegin, BranchOf;
    assert AfterAskRead(w, 1, ctx, "", now, win).asks == map[1 := Deciding(Intent(ctx.key, false, ""), false)];
  }

  lemma FirstJobSendsAndEnds(runtime: string, ctx: Context, now: int)
    ensures AfterJobDone(AfterJobUpdate(AfterSendPrompt(SecondAskReady(runtime, ctx, now), 0), 0, SENT, now), 0)
         == FirstJobEnded(runtime, ctx, now)
  {
    hide NextUrl, NextResult;
    var w := AfterSendPrompt(SecondAskReady(runtime, ctx, now), 0);
    assert w.info == map[0 := Info(Jobs.Send, Unrecorded, false)] && w.prompts == map[ctx.key := 1];
    var v := AfterJobUpdate(w, 0, SENT, now);
    assert v.info == map[0 := Info(Jobs.Send, Settled, false)];
    assert v.rows == map[ctx.key := Updated(NewRow(ctx, runtime, now), SENT, now)];
  }

  lemma SecondAskSendsAgain(runtime: string, ctx: Context, now: int)
    ensures var w := AfterSendPrompt(AfterAskStart(FirstJobEnded(runtime, ctx, now), 1), 1);
            Count(w.prompts, ctx.key) == 2 && Count(w.lost, ctx.key) == 0 && Count(w.stale, ctx.key) == 1
  {
    hide NextUrl, NextResult;
    var w := AfterAskStart(FirstJobEnded(runtime, ctx, now), 1);
    assert w.info == map[1 := Info(Jobs.Send, Unsent, true)];
  }

  function SplitRun(ctx: Context, now: int, win: Windows): seq<Event> {
    [AskNow(ctx, "", now, win), AskRead(1, ctx, "", now, win), AskCheck(1),
     SendPrompt(0), JobUpdate(0, SENT, now), JobDone(0), AskStart(1), SendPrompt(1)]
  }

  lemma SplitRunReads(runtime: string, ctx: Context, now: int, win: Windows)
    requires now > 0 && IsRuntimeId(runtime)
    ensures StateAt(runtime, SplitRun(ctx, now, win), 3) == SecondAskReady(runtime, ctx, now)
  {
    hide AfterAskRead, AfterAskCheck, AfterAskStart, AfterAskNow, AfterAskReply, AfterWaitStart, AfterOtherUpdate,
      AfterSendPrompt, AfterJobUpdate, AfterJobDone, AfterCleanupJob, AfterProcessRestart, FirstAsk, SecondAskReady,
      FirstJobEnded, Count, StateAt, After, IsRuntimeId;
    SecondAskReads(runtime, ctx, now, win);
    var es := SplitRun(ctx, now, win);
    FirstStep(runtime, es, ctx, now, win);
    StepAt(runtime, es, 1);
    StepAt(runtime, es, 2);
  }

  /**
   * The awaits inside an ask matter: a second ask reads the row, the first one's job sends, records it and ends,
   * and the second then starts another send from what it read. No job was lost and no process restarted.
   */
  lemma SplitAskCanSendTwice(runtime: string, ctx: Context, now: int, win: Windows)
    requires now > 0 && IsRuntimeId(runtime)
    ensures var w := After(Initial(runtime), SplitRun(ctx, now, win));
            Count(w.prompts, ctx.key) == 2 && Count(w.lost, ctx.key) == 0 && Count(w.stale, ctx.key) == 1
  {
    hide AfterAskRead, AfterAskCheck, AfterAskStart, AfterAskNow, AfterAskReply, AfterWaitStart, AfterOtherUpdate,
      AfterSendPrompt, AfterJobUpdate, AfterJobDone, AfterCleanupJob, AfterProcessRestart, FirstAsk, SecondAskReady,
      FirstJobEnded, Count, StateAt, After, IsRuntimeId;
    SplitRunReads(runtime, ctx, now, win);
    var es := SplitRun(ctx, now, win);
    FirstJobSendsAndEnds(runtime, ctx, now);
    StepAt(runtime, es, 3);
    StepAt(runtime, es, 4);
    StepAt(runtime, es, 5);
    SecondAskSendsAgain(runtime, ctx, now);
    StepAt(runtime, es, 6);
    StepAt(runtime, es, 7);
  }

  /** The first ask's job has sent the prompt and recorded it, and is still running. */
  function FirstJobRecorded(runtime: string, ctx: Context, now: int): World {
    FirstAsk(runtime, ctx, now).(
      rows := map[ctx.key := Updated(NewRow(ctx, runtime, now), SENT, now)],
      info := map[0 := Info(Jobs.Send, Settled, false)],
      prompts := map[ctx.key := 1])
  }

  /** ... a second ask knows of the send, has nowhere to resume from, and has found the job running ... */
  function SecondAskKnows(runtime: string, ctx: Context, now: int): World {
    FirstJobRecorded(runtime, ctx, now).(asks := map[1 := Deciding(Intent(ctx.key, true, ""), true)])
  }

  /** ... and the job has ended. */
  function JobEndedUnderIt(runtime: string, ctx: Context, now: int): World {
    SecondAskKnows(runtime, ctx, now).(
      reg := Jobs.Registry(map[ctx.key := Jobs.Job(0, Jobs.Send)], map[0 := ctx.key], {}, {0}, 1),
      info := map[])
  }

  lemma FirstJobRecords(runtime: string, ctx: Context, now: int)
    ensures AfterJobUpdate(AfterSendPrompt(FirstAsk(runtime, ctx, now), 0), 0, SENT, now)
         == FirstJobRecorded(runtime, ctx, now)
  {
    hide NextUrl, NextResult;
    var w := AfterSendPrompt(FirstAsk(runtime, ctx, now), 0);
    assert w.info == map[0 := Info(Jobs.Send, Unrecorded, false)] && w.prompts == map[ctx.key := 1];
    var v := AfterJobUpdate(w, 0, SENT, now);
    assert v.info == map[0 := Info(Jobs.Send, Settled, false)];
    assert v.rows == map[ctx.key := Updated(NewRow(ctx, runtime, now), SENT, now)];
  }

  lemma SecondAskPasses(runtime: string, ctx: Context, now: int, win: Windows)
    ensures AfterAskCheck(AfterAskRead(FirstJobRecorded(runtime, ctx, now), 1, ctx, "", now, win), 1)
         == SecondAskKnows(runtime, ctx, now)
  {
    var w := FirstJobRecorded(runtime, ctx, now);
    var row := Updated(NewRow(ctx, runtime, now), SENT, now);
    assert Strip("") == "" && row.sent && UrlOf(row) == "" && row.result == NoResult;
    assert BeginOn(w.rows, ctx, runtime, now, win) == BeginOutcome(Replay, Some(row));
    assert AfterBegin(w.rows, ctx, runtime, now, win) == w.rows;
    hide BeginOn, AfterBegin, BranchOf, Updated, Strip;
    assert AfterAskRead(w, 1, ctx, "", now, win).asks == map[1 := Deciding(Intent(ctx.key, true, ""), false)];
  }

  lemma JobEnds(runtime: string, ctx: Context, now: int)
    ensures AfterJobDone(SecondAskKnows(runtime, ctx, now), 0) == JobEndedUnderIt(runtime, ctx, now)
  {
    assert SecondAskKnows(runtime, ctx, now).info - {0} == map[];
  }

  lemma KnowingAskSends(runtime: string, ctx: Context, now: int)
    ensures var w := AfterSendPrompt(AfterAskStart(JobEndedUnderIt(runtime, ctx, now), 1), 1);
            Count(w.prompts, ctx.key) == 2 && Count(w.lost, ctx.key) == 0 && Count(w.stale, ctx.key) == 1
  {
    hide NextUrl, NextResult;
    var w := AfterAskStart(JobEndedUnderIt(runtime, ctx, now), 1);
    assert w.info == map[1 := Info(Jobs.Send, Unsent, true)];
  }

  /**
   * The await between the running-job check and the start matters too: an ask that knows the prompt was sent, and was
   * let through only because a job was running, sends it again if that job ends first.
   */
  lemma PassedCheckCanSendTwice(runtime: string, ctx: Context, now: int, win: Windows)
    ensures var es := [AskNow(ctx, "", now, win), SendPrompt(0), JobUpdate(0, SENT, now),
                       AskRead(1, ctx, "", now, win), AskCheck(1), JobDone(0), AskStart(1), SendPrompt(1)];
            var w := After(Initial(runtime), es);
            && StateAt(runtime, es, 5).asks == map[1 := Deciding(Intent(ctx.key, true, ""), true)]
            && Count(w.prompts, ctx.key) == 2 && Count(w.lost, ctx.key) == 0 && Count(w.stale, ctx.key) == 1
  {
    hide AfterAskRead, AfterAskCheck, AfterAskStart, AfterAskNow, AfterSendPrompt, AfterJobUpdate, AfterJobDone,
      AfterProcessRestart, FirstAsk, FirstJobRecorded, JobEndedUnderIt, Count;
    var es := [AskNow(ctx, "", now, win), SendPrompt(0), JobUpdate(0, SENT, now),
               AskRead(1, ctx, "", now, win), AskCheck(1), JobDone(0), AskStart(1), SendPrompt(1)];
    hide StateAt, After;
    FirstStep(runtime, es, ctx, now, win);
    FirstJobRecords(runtime, ctx, now);
    StepAt(runtime, es, 1);
    StepAt(runtime, es, 2);
    SecondAskPasses(runtime, ctx, now, win);
    StepAt(runtime, es, 3);
    StepAt(runtime, es, 4);
    JobEnds(runtime, ctx, now);
    StepAt(runtime, es, 5);
    KnowingAskSends(runtime, ctx, now);
    StepAt(runtime, es, 6);
    StepAt(runtime, es, 7);
  }

  /** The world after a restart that caught the first ask's job between sending and recording. */
  function Interrupted(runtime: string, later: string, ctx: Context, now: int): World {
    FirstAsk(runtime, ctx, now).(
      runtime := later,
      reg := Jobs.Registry(map[], map[], {}, {}, 1),
      info := map[],
      prompts := map[ctx.key := 1],
      lost := map[ctx.key := 1])
  }

  lemma RestartLosesTheRecord(runtime: string, later: string, ctx: Context, now: int)
    ensures AfterProcessRestart(AfterSendPrompt(FirstAsk(runtime, ctx, now), 0), later)
         == Interrupted(runtime, later, ctx, now)
  {
    var w := AfterSendPrompt(FirstAsk(runtime, ctx, now), 0);
    assert Exposed(w, ctx.key) && w.prompts == map[ctx.key := 1];
    assert AfterProcessRestart(w, later).lost == map[ctx.key := 1];
  }

  lemma StartedSend(w: World, ctx: Context, callerUrl: string, now: int, win: Windows)
    requires StartsSendTask(w, AfterAskNow(w, ctx, callerUrl, now, win))
    ensures var v := AfterAskNow(w, ctx, callerUrl, now, win);
            && v.info == w.info[w.reg.next := Info(Jobs.Send, Unsent, false)]
            && v.reg.keyOf == w.reg.keyOf[w.reg.next := ctx.key]
            && v.prompts == w.prompts && v.lost == w.lost
  {
    PlanIsCurrent(w, ctx, callerUrl, now, win);
    hide BeginPlan, AfterBegin;
  }

  lemma NextAskSendsAgain(runtime: string, later: string, ctx: Context, now: int, win: Windows)
    ensures var w := AfterSendPrompt(AfterAskNow(Interrupted(runtime, later, ctx, now), ctx, "", now, win), 1);
            Count(w.prompts, ctx.key) == 2 && Count(w.lost, ctx.key) == 1
  {
    var w := Interrupted(runtime, later, ctx, now);
    AskNowStartsSendIff(w, ctx, "", now, win);
    StartedSend(w, ctx, "", now, win);
    hide AfterAskNow;
  }

  /**
   * And so does the gap between sending and recording: a restart in it lets the next ask of the same request send
   * again, at once, although every ask is unsplit.
   */
  lemma RestartBeforeRecordingCanSendTwice(runtime: string, later: string, ctx: Context, now: int, win: Windows)
    ensures var es := [AskNow(ctx, "", now, win), SendPrompt(0), Restart(later), AskNow(ctx, "", now, win),
                       SendPrompt(1)];
            var w := After(Initial(runtime), es);
            && AsksAreAtomic(es)
            && Count(w.prompts, ctx.key) == 2 && Count(w.lost, ctx.key) == 1
  {
    hide AfterAskRead, AfterAskCheck, AfterAskStart, AfterAskNow, AfterSendPrompt, AfterJobUpdate, AfterJobDone,
      AfterProcessRestart, FirstAsk, Interrupted, Count;
    var es := [AskNow(ctx, "", now, win), SendPrompt(0), Restart(later), AskNow(ctx, "", now, win), SendPrompt(1)];
    hide StateAt, After;
    FirstStep(runtime, es, ctx, now, win);
    RestartLosesTheRecord(runtime, later, ctx, now);
    StepAt(runtime, es, 1);
    StepAt(runtime, es, 2);
    NextAskSendsAgain(runtime, later, ctx, now, win);
    StepAt(runtime, es, 3);
    StepAt(runtime, es, 4);
  }
}
