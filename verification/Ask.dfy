/**
 * The ask tool (`ask` in `chatgpt_web_mcp/_tools_impl.py`): the ledger and the job registry put together so that
 * a prompt is not sent twice. Jobs, the browser and the clock are the environment; the tool decides only which
 * job, if any, is started.
 */
module Ask {
  import opened Wrappers
  import opened Text
  import opened Answers
  import opened Ledger
  import opened Jobs

  // ---- The decision ------------------------------------------------------------------------------

  /** What an ask remembers of the record it was given while it decides which job to start. */
  datatype Intent = Intent(key: Key, sent: bool, resumeUrl: string)

  datatype Plan = Raise | ReplyFromCache(intent: Intent) | Run(intent: Intent)

  function IntentFrom(key: Key, existing: Option<Record>, callerUrl: string): Intent {
    if existing.None? then Intent(key, false, "")
    else
      var r := existing.value;
      Intent(key, r.sent, if r.sent && UrlOf(r) == "" then Strip(callerUrl) else UrlOf(r))
  }

  function PlanFor(key: Key, out: BeginOutcome, callerUrl: string): Plan {
    if out.branch.CollisionError? then Raise
    else
      var intent := IntentFrom(key, out.existing, callerUrl);
      if !Executes(out.branch) && out.existing.Some? && out.existing.value.result.Parsed?
      then ReplyFromCache(intent) else Run(intent)
  }

  function JobKind(i: Intent): Kind {
    if i.sent && i.resumeUrl != "" then ResumeWait else Send
  }

  /** Marked as sent, but nowhere to resume from: only a job that is already running may be joined. */
  predicate NeedsRunningJob(i: Intent) {
    i.sent && i.resumeUrl == ""
  }

  datatype Answer = Collided | Cached(result: AnswerResult) | Refused | Joined(job: Job)

  /** What the tool answers, by its plan. */
  function AnswerFor(out: BeginOutcome, key: Key, callerUrl: string, reg: Registry): Answer {
    match PlanFor(key, out, callerUrl)
    case Raise => Collided
    case ReplyFromCache(_) => Cached(out.existing.value.result.result)
    case Run(i) =>
      if NeedsRunningJob(i) && Running(reg, key).None? then Refused else Joined(GotOrStarted(reg, key, JobKind(i)))
  }

  /**
   * What the tool answers, by what the row said before the call (`open`: the ledger gives permission). A row with a
   * readable result is answered from it, unless the call may execute; a job that is started on a row that says sent
   * waits, and any other sends.
   */
  predicate AnswersByRow(
      a: Answer, row: Option<Record>, open: bool, ctx: Context, callerUrl: string, before: Registry) {
    var collides := row.Some? && !row.value.sent && row.value.requestHash != ctx.requestHash && !open;
    var cached := row.Some? && row.value.result.Parsed? && !open && !collides;
    var sent := row.Some? && row.value.sent;
    var live := Running(before, ctx.key);
    && (a == Collided <==> collides)
    && (a.Cached? <==> cached)
    && (a.Cached? ==> a.result == row.value.result.result)
    && (a == Refused <==> sent && !cached && UrlOf(row.value) == "" && Strip(callerUrl) == "" && live.None?)
    && (a.Joined? && live.Some? ==> a.job == live.value)
    && (a.Joined? && live.None? ==> a.job == Job(before.next, if sent then ResumeWait else Send))
  }

  lemma AskAnswersByRow(
      rows: Rows, reg: Registry, ctx: Context, callerUrl: string, runtime: string, now: int, w: Windows)
    ensures var row := Lookup(rows, ctx.key);
            AnswersByRow(AnswerFor(BeginOn(rows, ctx, runtime, now, w), ctx.key, callerUrl, reg), row,
                         OpenFor(row, ctx, runtime, now, w), ctx, callerUrl, reg)
  {
    hide BeginOn, AfterBegin, Strip, LeaseFree, StartsWith, Lower, BlankRetryWindow, StaleWindow;
    BeginExecutesExactlyWhenOpen(rows, ctx, runtime, now, w);
    SentRowsAreReplayed(rows, ctx, runtime, now, w);
    RefusalsLeaveTheRow(rows, ctx, runtime, now, w);
    if Executes(BeginOn(rows, ctx, runtime, now, w).branch) {
      PermissionLeavesCleanRow(rows, ctx, runtime, now, w);
    }
    if ctx.key in rows {
      EveryBranchIff(rows, ctx, runtime, now, w);
      LeaseFreeFailed(rows[ctx.key], ctx, runtime, now, w);
    }
  }

  /** The tool itself, from the ledger call to the job it waits for. */
  class AskTool {
    const ledger: IdempotencyLedger
    const registry: JobRegistry

    constructor (ledger: IdempotencyLedger, registry: JobRegistry)
      ensures this.ledger == ledger && this.registry == registry
    {
      this.ledger := ledger;
      this.registry := registry;
    }

    method Ask(ctx: Context, callerUrl: string, now: int, w: Windows) returns (a: Answer)
      modifies ledger`rows, registry
      ensures ledger.rows == AfterBegin(old(ledger.rows), ctx, ledger.runtime, now, w)
      ensures var out := BeginOn(old(ledger.rows), ctx, ledger.runtime, now, w);
              var plan := PlanFor(ctx.key, out, callerUrl);
              var before := old(registry.Model());
              match plan
              case Raise => a == Collided && registry.Model() == before
              case ReplyFromCache(_) => a == Cached(out.existing.value.result.result) && registry.Model() == before
              case Run(i) =>
                if NeedsRunningJob(i) && Running(before, ctx.key).None? then a == Refused && registry.Model() == before
                else && a == Joined(GotOrStarted(before, ctx.key, JobKind(i)))
                     && registry.Model() == AfterGetOrStart(before, ctx.key, JobKind(i))
      ensures var row := Lookup(old(ledger.rows), ctx.key);
              AnswersByRow(a, row, OpenFor(row, ctx, ledger.runtime, now, w), ctx, callerUrl, old(registry.Model()))
      ensures a.Joined? || registry.Model() == old(registry.Model())
      ensures forall world: World | IsStateOf(world, old(ledger.rows), ledger.runtime, old(registry.Model())) ::
                IsStateOf(AfterAskNow(world, ctx, callerUrl, now, w), ledger.rows, ledger.runtime, registry.Model())
    {
      hide AfterBegin, BeginOn, AnswersByRow, OpenFor;
      AskAnswersByRow(ledger.rows, registry.Model(), ctx, callerUrl, ledger.runtime, now, w);
      var out := ledger.Begin(ctx, now, w);
      if out.branch.CollisionError? {
        return Collided;
      }
      var shouldExecute := Executes(out.branch);
      if !shouldExecute && out.existing.Some? && out.existing.value.result.Parsed? {
        return Cached(out.existing.value.result.result);
      }
      var existingSent := out.existing.Some? && out.existing.value.sent;
      var resumeUrl := if out.existing.Some? then Strip(out.existing.value.url.GetOr("")) else "";
      if existingSent && resumeUrl == "" {
        resumeUrl := Strip(callerUrl);
      }
      var kind := Send;
      if existingSent && resumeUrl != "" {
        kind := ResumeWait;
      }
      if existingSent && resumeUrl == "" {
        var running := registry.GetRunningJob(ctx.key);
        if running.None? {
          return Refused;
        }
      }
      var job := registry.GetOrStartJob(ctx.key, kind);
      return Joined(job);
    }
  }

  // ---- The whole service as a transition system ----------------------------------------------------

  /** A send job has not pressed send yet, has pressed it without recording it, or has nothing left to send. */
  datatype Phase = Unsent | Unrecorded | Settled

  /** `stale`: a send job that was started although its row already said sent. */
  datatype Info = Info(kind: Kind, phase: Phase, stale: bool)

  /** An ask between its ledger call and its job, and whether it has passed the running-job check. */
  datatype Pending = Deciding(intent: Intent, checked: bool) | Replying(intent: Intent)

  /**
   * The service with three tallies per key: prompts really sent, jobs that ended after sending but before
   * recording it, and send jobs started on a row that already said sent.
   */
  datatype World = World(
    rows: Rows,
    runtime: string,
    reg: Registry,
    info: map<Task, Info>,
    asks: map<nat, Pending>,
    prompts: map<Key, nat>,
    lost: map<Key, nat>,
    stale: map<Key, nat>)

  function Initial(runtime: string): World {
    World(map[], runtime, EMPTY, map[], map[], map[], map[], map[])
  }

  /**
   * `AskRead`, `AskCheck`, `AskStart` and `AskReply` are the atomic pieces of one ask, in the order in which the
   * tool awaits them; `AskNow` is the same ask without a gap. `WaitStart` is the wait tool, which starts a waiting
   * job for any row. `OtherUpdate` is any ledger update that does not set the sent flag.
   */
  datatype Event =
    | AskRead(ask: nat, ctx: Context, callerUrl: string, now: int, w: Windows)
    | AskCheck(ask: nat)
    | AskStart(ask: nat)
    | AskReply(ask: nat, patch: Patch, now: int)
    | AskNow(ctx: Context, callerUrl: string, now: int, w: Windows)
    | WaitStart(key: Key)
    | OtherUpdate(key: Key, patch: Patch, now: int)
    | SendPrompt(task: Task)
    | JobUpdate(task: Task, patch: Patch, now: int)
    | JobDone(task: Task)
    | CleanupJob(task: Task)
    | Restart(runtime: string)

  /** The part of the world that the tool's own objects hold. */
  predicate IsStateOf(w: World, rows: Rows, runtime: string, reg: Registry) {
    w.rows == rows && w.runtime == runtime && w.reg == reg
  }

  function Count(m: map<Key, nat>, k: Key): nat {
    if k in m then m[k] else 0
  }

  function Bump(m: map<Key, nat>, k: Key): map<Key, nat> {
    m[k := Count(m, k) + 1]
  }

  predicate IsSent(w: World, k: Key) {
    k in w.rows && w.rows[k].sent
  }

  function InfoOn(w: World, k: Key): Option<Info> {
    var job := Running(w.reg, k);
    if job.Some? && job.value.task in w.info then Some(w.info[job.value.task]) else None
  }

  /** Get-or-start: a live job of the key is joined, otherwise one of the wanted kind is started. */
  function Launch(w: World, k: Key, kind: Kind): (v: World)
    ensures v.rows == w.rows && v.prompts == w.prompts && v.lost == w.lost
  {
    if Running(w.reg, k).Some? then w
    else
      var isStale := kind.Send? && IsSent(w, k);
      w.(reg := AfterGetOrStart(w.reg, k, kind),
         info := w.info[w.reg.next := Info(kind, if kind.Send? then Unsent else Settled, isStale)],
         stale := if isStale then Bump(w.stale, k) else w.stale)
  }

  function BeginPlan(w: World, ctx: Context, callerUrl: string, now: int, win: Windows): Plan {
    PlanFor(ctx.key, BeginOn(w.rows, ctx, w.runtime, now, win), callerUrl)
  }

  function AfterRead(w: World, ctx: Context, now: int, win: Windows): World {
    w.(rows := AfterBegin(w.rows, ctx, w.runtime, now, win))
  }

  function AfterAskNow(w: World, ctx: Context, callerUrl: string, now: int, win: Windows): (v: World)
    ensures v.prompts == w.prompts && v.rows == AfterRead(w, ctx, now, win).rows
  {
    var plan := BeginPlan(w, ctx, callerUrl, now, win);
    var read := AfterRead(w, ctx, now, win);
    if plan.Run? && !(NeedsRunningJob(plan.intent) && Running(w.reg, ctx.key).None?)
    then Launch(read, ctx.key, JobKind(plan.intent)) else read
  }

  /** Whether the live job of a key, if any, has sent a prompt without recording it. */
  predicate Exposed(w: World, k: Key) {
    InfoOn(w, k).Some? && InfoOn(w, k).value.phase == Unrecorded
  }

  function WithSent(p: Patch, sent: Option<bool>): Patch {
    p.(sent := sent)
  }

  function AfterAskRead(w: World, ask: nat, ctx: Context, callerUrl: string, now: int, win: Windows): (v: World)
    ensures v.prompts == w.prompts && (v.rows == w.rows || v.rows == AfterRead(w, ctx, now, win).rows)
  {
    var plan := BeginPlan(w, ctx, callerUrl, now, win);
    var read := AfterRead(w, ctx, now, win);
    if ask in w.asks then w
    else if plan.ReplyFromCache? then read.(asks := w.asks[ask := Replying(plan.intent)])
    else if plan.Run? then read.(asks := w.asks[ask := Deciding(plan.intent, false)])
    else read
  }

  function AfterAskCheck(w: World, ask: nat): (v: World)
    ensures v.prompts == w.prompts && v.rows == w.rows
  {
    if ask !in w.asks || !w.asks[ask].Deciding? then w
    else
      var i := w.asks[ask].intent;
      if NeedsRunningJob(i) && Running(w.reg, i.key).None? then w.(asks := w.asks - {ask})
      else w.(asks := w.asks[ask := Deciding(i, true)])
  }

  function AfterAskStart(w: World, ask: nat): (v: World)
    ensures v.prompts == w.prompts && v.rows == w.rows
  {
    if ask !in w.asks || !w.asks[ask].Deciding? || !w.asks[ask].checked then w
    else Launch(w.(asks := w.asks - {ask}), w.asks[ask].intent.key, JobKind(w.asks[ask].intent))
  }

  function AfterAskReply(w: World, ask: nat, patch: Patch, now: int): (v: World)
    ensures v.prompts == w.prompts
  {
    if ask !in w.asks || !w.asks[ask].Replying? then w
    else
      var i := w.asks[ask].intent;
      w.(asks := w.asks - {ask}, rows := AfterUpdate(w.rows, i.key, WithSent(patch, Some(i.sent)), now))
  }

  function AfterWaitStart(w: World, k: Key): World {
    if k in w.rows then Launch(w, k, ResumeWait) else w
  }

  function AfterOtherUpdate(w: World, k: Key, patch: Patch, now: int): World {
    w.(rows := AfterUpdate(w.rows, k, WithSent(patch, None), now))
  }

  function AfterCleanupJob(w: World, t: Task): World {
    w.(reg := AfterCleanup(w.reg, t))
  }

  function AfterSendPrompt(w: World, t: Task): World {
    if t !in w.info || w.info[t].phase != Unsent || t !in w.reg.keyOf then w
    else w.(info := w.info[t := w.info[t].(phase := Unrecorded)], prompts := Bump(w.prompts, w.reg.keyOf[t]))
  }

  function AfterJobUpdate(w: World, t: Task, patch: Patch, now: int): World {
    if t !in w.info || t !in w.reg.keyOf then w
    else w.(rows := AfterUpdate(w.rows, w.reg.keyOf[t], patch, now),
            info := if patch.sent == Some(true) then w.info[t := w.info[t].(phase := Settled)] else w.info)
  }

  function AfterJobDone(w: World, t: Task): World {
    if t !in w.info || t !in w.reg.keyOf then w
    else w.(reg := AfterDone(w.reg, t), info := w.info - {t},
            lost := if w.info[t].phase == Unrecorded then Bump(w.lost, w.reg.keyOf[t]) else w.lost)
  }

  function AfterProcessRestart(w: World, runtime: string): World {
    World(w.rows, runtime, Jobs.AfterRestart(w.reg), map[], map[], w.prompts,
          map k | k in w.lost.Keys + w.reg.jobs.Keys :: Count(w.lost, k) + (if Exposed(w, k) then 1 else 0),
          w.stale)
  }

  function Next(w: World, e: Event): World {
    match e
    case AskRead(ask, ctx, callerUrl, now, win) => AfterAskRead(w, ask, ctx, callerUrl, now, win)
    case AskCheck(ask) => AfterAskCheck(w, ask)
    case AskStart(ask) => AfterAskStart(w, ask)
    case AskReply(ask, patch, now) => AfterAskReply(w, ask, patch, now)
    case AskNow(ctx, callerUrl, now, win) => AfterAskNow(w, ctx, callerUrl, now, win)
    case WaitStart(k) => AfterWaitStart(w, k)
    case OtherUpdate(k, patch, now) => AfterOtherUpdate(w, k, patch, now)
    case SendPrompt(t) => AfterSendPrompt(w, t)
    case JobUpdate(t, patch, now) => AfterJobUpdate(w, t, patch, now)
    case JobDone(t) => AfterJobDone(w, t)
    case CleanupJob(t) => AfterCleanupJob(w, t)
    case Restart(runtime) => AfterProcessRestart(w, runtime)
  }

  function After(w: World, es: seq<Event>): World {
    if es == [] then w else Next(After(w, es[..|es| - 1]), es[|es| - 1])
  }

  // ---- The invariant -----------------------------------------------------------------------------

  /** The live tasks are the ones with information, and a send job still able to send has an unsent row. */
  predicate TasksOk(w: World) {
    && Consistent(w.reg)
    && w.info.Keys == w.reg.live
    && (forall t | t in w.info ::
          var i := w.info[t];
          && w.reg.keyOf[t] in w.rows
          && w.reg.jobs[w.reg.keyOf[t]].kind == i.kind
          && (i.kind.ResumeWait? ==> i.phase == Settled)
          && (i.phase != Settled && !i.stale ==> !w.rows[w.reg.keyOf[t]].sent))
  }

  /** An ask that was told a prompt had been sent was told the truth. */
  predicate AsksOk(w: World) {
    forall a | a in w.asks ::
      w.asks[a].intent.key in w.rows && (w.asks[a].intent.sent ==> IsSent(w, w.asks[a].intent.key))
  }

  function AsNat(b: bool): nat { if b then 1 else 0 }

  /** A stale send job that may still send has been counted but has not sent. */
  predicate StaleAhead(w: World, k: Key) {
    InfoOn(w, k).Some? && InfoOn(w, k).value.stale && InfoOn(w, k).value.phase == Unsent
  }

  predicate CleanlyExposed(w: World, k: Key) {
    Exposed(w, k) && !InfoOn(w, k).value.stale
  }

  /** Every prompt is accounted for: by the sent flag, by a job about to record it, by a loss or by a stale start. */
  predicate Balanced(w: World, k: Key) {
    Count(w.prompts, k) + AsNat(StaleAhead(w, k))
      <= AsNat(IsSent(w, k)) + AsNat(CleanlyExposed(w, k)) + Count(w.lost, k) + Count(w.stale, k)
  }

  predicate Sound(w: World, k: Key) {
    TasksOk(w) && AsksOk(w) && Balanced(w, k)
  }

  /** A change of the rows that leaves every sent flag as it was. */
  predicate SameSent(before: Rows, after: Rows) {
    && before.Keys <= after.Keys
    && forall k | k in after :: after[k].sent == (k in before && before[k].sent)
  }

  lemma BeginSameSent(rows: Rows, ctx: Context, runtime: string, now: int, win: Windows)
    ensures SameSent(rows, AfterBegin(rows, ctx, runtime, now, win))
    ensures ctx.key in AfterBegin(rows, ctx, runtime, now, win)
  {
  }

  lemma RowsKeep(w: World, rows: Rows, k: Key)
    requires Sound(w, k) && SameSent(w.rows, rows)
    ensures Sound(w.(rows := rows), k)
  {
    assert InfoOn(w.(rows := rows), k) == InfoOn(w, k);
  }

  lemma LaunchKeepsTasks(w: World, key: Key, kind: Kind)
    requires TasksOk(w) && AsksOk(w) && key in w.rows
    ensures TasksOk(Launch(w, key, kind)) && AsksOk(Launch(w, key, kind))
  {
    if Running(w.reg, key).None? {
      StepConsistent(w.reg, GetOrStart(key, kind));
      assert w.reg.next !in w.reg.keyOf;
    }
  }

  lemma LaunchKeepsBalance(w: World, key: Key, kind: Kind, k: Key)
    requires Consistent(w.reg) && w.info.Keys == w.reg.live && Balanced(w, k)
    ensures Balanced(Launch(w, key, kind), k)
  {
    var v := Launch(w, key, kind);
    if Running(w.reg, key).None? {
      if k == key {
        assert InfoOn(v, k) == Some(v.info[w.reg.next]);
      } else {
        assert k in w.reg.jobs ==> w.reg.jobs[k].task != w.reg.next;
        assert InfoOn(v, k) == InfoOn(w, k);
      }
    }
  }

  lemma LaunchKeeps(w: World, key: Key, kind: Kind, k: Key)
    requires Sound(w, k) && key in w.rows
    ensures Sound(Launch(w, key, kind), k)
  {
    LaunchKeepsTasks(w, key, kind);
    LaunchKeepsBalance(w, key, kind, k);
    hide Launch, Balanced, AsksOk;
  }

  /** The plan made from one ledger call knows whether the row says sent. */
  lemma PlanIsCurrent(w: World, ctx: Context, callerUrl: string, now: int, win: Windows)
    ensures var read := AfterRead(w, ctx, now, win);
            && SameSent(w.rows, read.rows) && ctx.key in read.rows
            && IsSent(read, ctx.key) == IsSent(w, ctx.key)
            && var plan := BeginPlan(w, ctx, callerUrl, now, win);
               plan.Run? || plan.ReplyFromCache? ==>
                 plan.intent.key == ctx.key && plan.intent.sent == IsSent(w, ctx.key)
  {
    BeginSameSent(w.rows, ctx, w.runtime, now, win);
    ReturnedRecordIsCurrent(w.rows, ctx, w.runtime, now, win);
  }

  lemma ReadKeeps(w: World, ctx: Context, callerUrl: string, now: int, win: Windows, k: Key)
    requires Sound(w, k)
    ensures Sound(AfterRead(w, ctx, now, win), k)
  {
    PlanIsCurrent(w, ctx, callerUrl, now, win);
    RowsKeep(w, AfterBegin(w.rows, ctx, w.runtime, now, win), k);
  }

  lemma AskNowKeeps(w: World, ctx: Context, callerUrl: string, now: int, win: Windows, k: Key)
    requires Sound(w, k)
    ensures Sound(AfterAskNow(w, ctx, callerUrl, now, win), k)
  {
    hide Sound, AfterRead, BeginPlan, Launch;
    PlanIsCurrent(w, ctx, callerUrl, now, win);
    ReadKeeps(w, ctx, callerUrl, now, win, k);
    var plan := BeginPlan(w, ctx, callerUrl, now, win);
    if plan.Run? {
      LaunchKeeps(AfterRead(w, ctx, now, win), ctx.key, JobKind(plan.intent), k);
    }
  }

  /** The asks under way can change freely as long as none of them claims a send that did not happen. */
  lemma AsksKeep(w: World, asks: map<nat, Pending>, k: Key)
    requires Sound(w, k) && AsksOk(w.(asks := asks))
    ensures Sound(w.(asks := asks), k)
  {
    assert InfoOn(w.(asks := asks), k) == InfoOn(w, k);
  }

  lemma AskReadKeeps(w: World, ask: nat, ctx: Context, callerUrl: string, now: int, win: Windows, k: Key)
    requires Sound(w, k)
    ensures Sound(AfterAskRead(w, ask, ctx, callerUrl, now, win), k)
  {
    hide AfterBegin, BeginPlan, TasksOk, Balanced, SameSent;
    PlanIsCurrent(w, ctx, callerUrl, now, win);
    ReadKeeps(w, ctx, callerUrl, now, win, k);
    AsksKeep(AfterRead(w, ctx, now, win), AfterAskRead(w, ask, ctx, callerUrl, now, win).asks, k);
  }

  lemma AskCheckKeeps(w: World, ask: nat, k: Key)
    requires Sound(w, k)
    ensures Sound(AfterAskCheck(w, ask), k)
  {
    hide TasksOk, Balanced;
    AsksKeep(w, AfterAskCheck(w, ask).asks, k);
  }

  lemma AskStartKeeps(w: World, ask: nat, k: Key)
    requires Sound(w, k)
    ensures Sound(AfterAskStart(w, ask), k)
  {
    hide TasksOk, Balanced, Launch;
    if ask in w.asks {
      AsksKeep(w, w.asks - {ask}, k);
      LaunchKeeps(w.(asks := w.asks - {ask}), w.asks[ask].intent.key, JobKind(w.asks[ask].intent), k);
    }
  }

  lemma AskReplyKeeps(w: World, ask: nat, patch: Patch, now: int, k: Key)
    requires Sound(w, k)
    ensures Sound(AfterAskReply(w, ask, patch, now), k)
  {
    hide TasksOk, Balanced, AfterUpdate;
    if ask in w.asks {
      var i := w.asks[ask].intent;
      AsksKeep(w, w.asks - {ask}, k);
      UpdateKeeps(w.(asks := w.asks - {ask}), i.key, WithSent(patch, Some(i.sent)), now, k);
    }
  }

  /** An update that does not newly set the sent flag. */
  lemma UpdateKeeps(w: World, key: Key, patch: Patch, now: int, k: Key)
    requires Sound(w, k) && (patch.sent == Some(true) ==> IsSent(w, key))
    ensures Sound(w.(rows := AfterUpdate(w.rows, key, patch, now)), k)
  {
    hide NextUrl, NextResult, Balanced, TasksOk;
    RowsKeep(w, AfterUpdate(w.rows, key, patch, now), k);
  }

  lemma PromptKeeps(w: World, t: Task, k: Key)
    requires Sound(w, k)
    ensures Sound(AfterSendPrompt(w, t), k)
  {
  }

  lemma JobUpdateKeeps(w: World, t: Task, patch: Patch, now: int, k: Key)
    requires Sound(w, k)
    ensures Sound(AfterJobUpdate(w, t, patch, now), k)
  {
    hide NextUrl, NextResult;
  }

  lemma JobDoneKeeps(w: World, t: Task, k: Key)
    requires Sound(w, k)
    ensures Sound(AfterJobDone(w, t), k)
  {
    StepConsistent(w.reg, Done(t));
  }

  lemma CleanupKeeps(w: World, t: Task, k: Key)
    requires Sound(w, k)
    ensures Sound(AfterCleanupJob(w, t), k)
  {
    StepConsistent(w.reg, Cleanup(t));
    LateCleanupIsHarmless(w.reg, t, k);
  }

  lemma RestartKeeps(w: World, runtime: string, k: Key)
    requires Sound(w, k)
    ensures Sound(AfterProcessRestart(w, runtime), k)
  {
  }

  lemma WaitKeeps(w: World, key: Key, k: Key)
    requires Sound(w, k)
    ensures Sound(AfterWaitStart(w, key), k)
  {
    if key in w.rows {
      LaunchKeeps(w, key, ResumeWait, k);
    }
  }

  lemma OtherUpdateKeeps(w: World, key: Key, patch: Patch, now: int, k: Key)
    requires Sound(w, k)
    ensures Sound(AfterOtherUpdate(w, key, patch, now), k)
  {
    UpdateKeeps(w, key, WithSent(patch, None), now, k);
  }

  lemma NextKeeps(w: World, e: Event, k: Key)
    requires Sound(w, k)
    ensures Sound(Next(w, e), k)
  {
    hide Sound, AfterAskRead, AfterAskCheck, AfterAskStart, AfterAskReply, AfterAskNow, AfterWaitStart,
      AfterOtherUpdate, AfterSendPrompt, AfterJobUpdate, AfterJobDone, AfterCleanupJob, AfterProcessRestart;
    match e
    case AskRead(ask, ctx, callerUrl, now, win) => AskReadKeeps(w, ask, ctx, callerUrl, now, win, k);
    case AskCheck(ask) => AskCheckKeeps(w, ask, k);
    case AskStart(ask) => AskStartKeeps(w, ask, k);
    case AskReply(ask, patch, now) => AskReplyKeeps(w, ask, patch, now, k);
    case AskNow(ctx, callerUrl, now, win) => AskNowKeeps(w, ctx, callerUrl, now, win, k);
    case WaitStart(key) => WaitKeeps(w, key, k);
    case OtherUpdate(key, patch, now) => OtherUpdateKeeps(w, key, patch, now, k);
    case SendPrompt(t) => PromptKeeps(w, t, k);
    case JobUpdate(t, patch, now) => JobUpdateKeeps(w, t, patch, now, k);
    case JobDone(t) => JobDoneKeeps(w, t, k);
    case CleanupJob(t) => CleanupKeeps(w, t, k);
    case Restart(runtime) => RestartKeeps(w, runtime, k);
  }

  lemma {:induction false} RunSound(runtime: string, es: seq<Event>, k: Key)
    ensures Sound(After(Initial(runtime), es), k)
  {
    if es != [] {
      RunSound(runtime, es[..|es| - 1], k);
      NextKeeps(After(Initial(runtime), es[..|es| - 1]), es[|es| - 1], k);
    }
  }

  // ---- Unsplit asks ------------------------------------------------------------------------

  /** The run never splits an ask: its ledger call, its check and its start happen without an await in between. */
  predicate AsksAreAtomic(es: seq<Event>) {
    forall i | 0 <= i < |es| :: !es[i].AskStart?
  }

  predicate StartsSend(w: World, e: Event) {
    StartsSendTask(w, Next(w, e))
  }

  /** The task a step starts, if it starts a send job. */
  predicate StartsSendTask(w: World, v: World) {
    v.reg.next > w.reg.next && w.reg.next in v.info && v.info[w.reg.next].kind.Send?
  }

  lemma AtomicAsk(w: World, ctx: Context, callerUrl: string, now: int, win: Windows)
    ensures var v := AfterAskNow(w, ctx, callerUrl, now, win);
            v.stale == w.stale && (StartsSendTask(w, v) ==> !IsSent(w, ctx.key))
  {
    PlanIsCurrent(w, ctx, callerUrl, now, win);
    hide BeginPlan, AfterBegin;
  }

  predicate Quiet(w: World, v: World) {
    v.stale == w.stale && !StartsSendTask(w, v)
  }

  lemma WaitIsQuiet(w: World, k: Key)
    ensures Quiet(w, AfterWaitStart(w, k))
  {
  }

  lemma AsksAreQuiet(w: World, ask: nat, ctx: Context, callerUrl: string, now: int, win: Windows)
    ensures Quiet(w, AfterAskRead(w, ask, ctx, callerUrl, now, win))
  {
    hide BeginPlan, AfterBegin;
  }

  lemma CheckIsQuiet(w: World, ask: nat)
    ensures Quiet(w, AfterAskCheck(w, ask))
  {
  }

  lemma RestIsQuiet(w: World, e: Event)
    requires e.AskReply? || e.OtherUpdate? || e.SendPrompt? || e.JobUpdate? || e.JobDone? || e.CleanupJob? || e.Restart?
    ensures Quiet(w, Next(w, e))
  {
    hide AfterAskNow, AfterAskStart, AfterAskRead, AfterAskCheck, AfterWaitStart, AfterUpdate, Exposed, Bump;
    assert Next(w, e).reg.next == w.reg.next;
  }

  /** An unsplit ask starts a send job only on a row that does not say sent, and nothing else starts one at all. */
  lemma AtomicStep(w: World, e: Event)
    requires !e.AskStart?
    ensures Next(w, e).stale == w.stale
    ensures StartsSend(w, e) ==> e.AskNow? && !IsSent(w, e.ctx.key)
  {
    hide AfterAskNow, AfterAskStart, AfterAskRead, AfterAskCheck, AfterAskReply, AfterWaitStart, AfterOtherUpdate,
      AfterSendPrompt, AfterJobUpdate, AfterJobDone, AfterCleanupJob, AfterProcessRestart;
    match e
    case AskNow(ctx, callerUrl, now, win) => AtomicAsk(w, ctx, callerUrl, now, win);
    case WaitStart(k) => WaitIsQuiet(w, k);
    case AskRead(ask, ctx, callerUrl, now, win) => AsksAreQuiet(w, ask, ctx, callerUrl, now, win);
    case AskCheck(ask) => CheckIsQuiet(w, ask);
    case _ => RestIsQuiet(w, e);
  }

  lemma {:induction false} AtomicAsksAreNeverStale(runtime: string, es: seq<Event>, k: Key)
    requires AsksAreAtomic(es)
    ensures Count(After(Initial(runtime), es).stale, k) == 0
  {
    if es != [] {
      AtomicAsksAreNeverStale(runtime, es[..|es| - 1], k);
      AtomicStep(After(Initial(runtime), es[..|es| - 1]), es[|es| - 1]);
    }
  }

  predicate StartsSendAt(runtime: string, es: seq<Event>, i: nat)
    requires i < |es|
  {
    StartsSend(After(Initial(runtime), es[..i]), es[i])
  }

  lemma AskNowStartsSendIff(w: World, ctx: Context, callerUrl: string, now: int, win: Windows)
    ensures var out := BeginOn(w.rows, ctx, w.runtime, now, win);
            StartsSendTask(w, AfterAskNow(w, ctx, callerUrl, now, win)) <==>
              && Running(w.reg, ctx.key).None?
              && !IsSent(w, ctx.key)
              && !out.branch.CollisionError?
              && (Executes(out.branch) || !w.rows[ctx.key].result.Parsed?)
  {
    PlanIsCurrent(w, ctx, callerUrl, now, win);
  }

  /**
   * Exactly when an ask starts a send job, by what the row says: no job of the key is live, nothing was sent, and
   * either the ledger gives permission or the row is of the same request and holds no readable result. So an unsent
   * row without one is sent again whether or not the ledger gave permission, as soon as no job of the key is live.
   */
  lemma AskStartsSendIff(w: World, ctx: Context, callerUrl: string, now: int, win: Windows)
    ensures var row := Lookup(w.rows, ctx.key);
            StartsSend(w, AskNow(ctx, callerUrl, now, win)) <==>
              && Running(w.reg, ctx.key).None?
              && !IsSent(w, ctx.key)
              && (OpenFor(row, ctx, w.runtime, now, win)
                  || (row.value.requestHash == ctx.requestHash && !row.value.result.Parsed?))
  {
    hide AfterAskNow, BeginOn, Strip, StartsWith, Lower, BlankRetryWindow, StaleWindow, LeaseFree;
    AskNowStartsSendIff(w, ctx, callerUrl, now, win);
    BeginExecutesExactlyWhenOpen(w.rows, ctx, w.runtime, now, win);
    if ctx.key in w.rows {
      EveryBranchIff(w.rows, ctx, w.runtime, now, win);
      LeaseFreeFailed(w.rows[ctx.key], ctx, w.runtime, now, win);
    }
  }

  lemma LeaseFreeFailed(r: Record, ctx: Context, runtime: string, now: int, win: Windows)
    ensures r.requestHash != ctx.requestHash ==>
              (LeaseFree(r, ctx, runtime, now, win) <==> IsFailure(r.status) && Internal(ctx.key))
  {
  }

  /** A send job is only ever started under a row that carries the request it was asked for. */
  lemma SendsItsOwnRequest(w: World, ctx: Context, callerUrl: string, now: int, win: Windows)
    requires StartsSend(w, AskNow(ctx, callerUrl, now, win))
    ensures var rows := Next(w, AskNow(ctx, callerUrl, now, win)).rows;
            ctx.key in rows && rows[ctx.key].requestHash == ctx.requestHash && !rows[ctx.key].sent
  {
    hide BeginPlan, BeginOn, AfterBegin, AfterAskNow, OpenFor, StartsSend;
    AskStartsSendIff(w, ctx, callerUrl, now, win);
    BeginExecutesExactlyWhenOpen(w.rows, ctx, w.runtime, now, win);
    if Executes(BeginOn(w.rows, ctx, w.runtime, now, win).branch) {
      PermissionLeavesCleanRow(w.rows, ctx, w.runtime, now, win);
    } else {
      AbsentIsOpen(w.rows, ctx, w.runtime, now, win);
    }
  }

  lemma AbsentIsOpen(rows: Rows, ctx: Context, runtime: string, now: int, win: Windows)
    ensures !OpenFor(Lookup(rows, ctx.key), ctx, runtime, now, win) ==> ctx.key in rows
  {
  }

  /** A waiting job is started where the row says the conversation is, or where the caller says if the row does not. */
  lemma ResumesWhereTheRowSays(w: World, ctx: Context, callerUrl: string, now: int, win: Windows)
    ensures var plan := BeginPlan(w, ctx, callerUrl, now, win);
            plan.Run? && IsSent(w, ctx.key) ==>
              plan.intent.resumeUrl
              == if UrlOf(w.rows[ctx.key]) != "" then UrlOf(w.rows[ctx.key]) else Strip(callerUrl)
  {
    SentRowsAreReplayed(w.rows, ctx, w.runtime, now, win);
    hide BeginOn, Strip;
  }

  /** A job started in the world is the live job of its key, of the kind asked for, and known as such. */
  lemma LaunchStarts(w: World, k: Key, kind: Kind)
    requires TasksOk(w) && Running(w.reg, k).None?
    ensures var v := Launch(w, k, kind);
            && Running(v.reg, k) == Some(Job(w.reg.next, kind))
            && w.reg.next in v.info && v.info[w.reg.next].kind == kind
            && (v.info[w.reg.next].phase == Unsent <==> kind == Send)
  {
    StartsTheKindAskedFor(w.reg, k, kind, k);
  }

  /**
   * So a lease that the ledger refuses to hand out is not respected by the ask that called it, for any unsent row of
   * the same request that holds no readable result.
   */
  lemma AskIgnoresTheLease(w: World, ctx: Context, callerUrl: string, now: int, win: Windows)
    requires ctx.key in w.rows && Running(w.reg, ctx.key).None?
    requires var r := w.rows[ctx.key];
             !r.sent && r.requestHash == ctx.requestHash && !r.result.Parsed?
    requires !LeaseFree(w.rows[ctx.key], ctx, w.runtime, now, win)
    ensures !Executes(BeginOn(w.rows, ctx, w.runtime, now, win).branch)
    ensures StartsSend(w, AskNow(ctx, callerUrl, now, win))
  {
    BeginExecutesExactlyWhenOpen(w.rows, ctx, w.runtime, now, win);
    AskStartsSendIff(w, ctx, callerUrl, now, win);
  }
}
