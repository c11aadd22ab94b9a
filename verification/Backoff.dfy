/**
 * The blocked state of the driver (`_chatgpt_set_blocked`, `_chatgpt_clear_blocked_state` and
 * `_chatgpt_enforce_not_blocked` in `chatgpt_web_mcp/_tools_impl.py`): a cooldown that doubles with every
 * "unusual activity" strike in a row. Times are microseconds, cooldowns whole seconds.
 */
module Backoff {
  import opened Wrappers
  import opened Text

  /** The state file; missing numbers are 0 and a missing reason is empty. */
  datatype State = State(detectedAt: int, blockedUntil: int, reason: string, strikes: nat, cooldown: nat)

  const CLEAR := State(0, 0, "", 0, 0)

  const UNUSUAL := "unusual_activity"

  /** The environment at the time of a call. */
  datatype Settings = Settings(backoff: bool, windowSeconds: nat, maxSeconds: nat)

  function Pow2(n: nat): nat {
    if n == 0 then 1 else 2 * Pow2(n - 1)
  }

  /** `min(max, base * 2^(k-1))` for the `k`-th strike, unless the backoff is off or the cooldown is empty. */
  function Scaled(base: nat, k: nat, maxSeconds: nat): nat {
    if k > 0 && base > 0 && maxSeconds > 0 then Min(maxSeconds, base * Pow2(k - 1)) else base
  }

  predicate Counts(reason: string, s: Settings) {
    reason == UNUSUAL && s.backoff
  }

  function NextStrikes(prev: State, reason: string, now: int, s: Settings): nat {
    if !Counts(reason, s) then 0
    else if prev.reason == UNUSUAL && prev.detectedAt > 0 && now - prev.detectedAt <= s.windowSeconds * SECOND
    then prev.strikes + 1
    else 1
  }

  function AfterSet(prev: State, reason: string, cooldownSeconds: int, now: int, s: Settings): State {
    var strikes := NextStrikes(prev, reason, now, s);
    var cooldown := Scaled(Max(0, cooldownSeconds), strikes, s.maxSeconds);
    State(now, now + cooldown * SECOND, if reason == "" then "blocked" else reason, strikes, cooldown)
  }

  predicate IsProbe(action: string) {
    action == "self_check" || action == "capture_ui"
  }

  predicate AllowedWhileBlocked(action: string, reason: string) {
    var a, r := Lower(Strip(action)), Lower(Strip(reason));
    && r != "frontend_rate_limit"
    && (IsProbe(a)
        || ((r == "network" || r == UNUSUAL || r == "verification_pending")
            && (a == "wait" || a == "conversation_export")))
  }

  predicate Refuses(st: State, action: string, now: int, ignoreBlocked: bool) {
    !ignoreBlocked && 0 < st.blockedUntil && now < st.blockedUntil && !AllowedWhileBlocked(action, st.reason)
  }

  class BlockedFile {
    var state: State

    constructor ()
      ensures state == CLEAR
    {
      state := CLEAR;
    }

    method SetBlocked(reason: string, cooldownSeconds: int, now: int, s: Settings)
      modifies this
      ensures state == AfterSet(old(state), reason, cooldownSeconds, now, s)
    {
      var adjusted: nat := Max(0, cooldownSeconds);
      var strikes := 0;
      if reason == UNUSUAL && s.backoff {
        var prev := state;
        if prev.reason == UNUSUAL && prev.detectedAt > 0 && now - prev.detectedAt <= s.windowSeconds * SECOND {
          strikes := prev.strikes + 1;
        } else {
          strikes := 1;
        }
        if adjusted > 0 && s.maxSeconds > 0 {
          adjusted := Min(s.maxSeconds, adjusted * Pow2(strikes - 1));
        }
      }
      state := State(now, now + adjusted * SECOND, if reason == "" then "blocked" else reason, strikes, adjusted);
    }

    method ClearBlocked() returns (prev: State)
      modifies this
      ensures prev == old(state) && state == CLEAR
    {
      prev := state;
      state := CLEAR;
    }

    method EnforceNotBlocked(action: string, now: int, ignoreBlocked: bool) returns (refused: bool)
      ensures refused == Refuses(state, action, now, ignoreBlocked)
    {
      if ignoreBlocked || state.blockedUntil <= 0 || now >= state.blockedUntil {
        return false;
      }
      return !AllowedWhileBlocked(action, state.reason);
    }
  }

  // ---- Runs of strikes ---------------------------------------------------------------------------

  datatype Event = Set(reason: string, cooldownSeconds: int, now: int, s: Settings) | Clear

  function After(es: seq<Event>): State {
    if es == [] then CLEAR
    else match es[|es| - 1]
      case Set(reason, cooldown, now, s) => AfterSet(After(es[..|es| - 1]), reason, cooldown, now, s)
      case Clear => CLEAR
  }

  predicate PositiveClock(es: seq<Event>) {
    forall i | 0 <= i < |es| && es[i].Set? :: es[i].now > 0
  }

  /** A strike right after another one, within the window. */
  predicate Continues(earlier: Event, later: Event)
    requires later.Set?
  {
    earlier.Set? && earlier.reason == "unusual_activity" && later.now - earlier.now <= later.s.windowSeconds * SECOND
  }

  /** How many counted strikes the history ends with: read off the events, not off the state file. */
  function Streak(es: seq<Event>): nat {
    if es == [] || !es[|es| - 1].Set? || es[|es| - 1].reason != "unusual_activity" || !es[|es| - 1].s.backoff then 0
    else if |es| > 1 && Continues(es[|es| - 2], es[|es| - 1]) then 1 + Streak(es[..|es| - 1])
    else 1
  }

  /** The cooldown the last event of a history should have led to. */
  function DueCooldown(es: seq<Event>): nat
    requires es != [] && es[|es| - 1].Set?
  {
    var e := es[|es| - 1];
    Scaled(Max(0, e.cooldownSeconds), Streak(es), e.s.maxSeconds)
  }

  /**
   * After any run of blocks and clears, the file holds the streak the events add up to, and the cooldown that
   * belongs to it; a clear, another reason or too long a gap starts the next strike at one.
   */
  lemma {:induction false} StrikesAreCounted(es: seq<Event>)
    requires PositiveClock(es)
    ensures After(es).strikes == Streak(es)
    ensures es != [] && es[|es| - 1].Set? ==>
              var e := es[|es| - 1];
              && After(es).detectedAt == e.now
              && After(es).reason == (if e.reason == "" then "blocked" else e.reason)
              && After(es).cooldown == DueCooldown(es)
              && After(es).blockedUntil == e.now + DueCooldown(es) * SECOND
    ensures es == [] || es[|es| - 1].Clear? ==> After(es) == CLEAR
  {
    if es != [] {
      StrikesAreCounted(es[..|es| - 1]);
    }
  }

  lemma SendIsNeverAllowed(reason: string)
    ensures !AllowedWhileBlocked("send", reason)
  {
    assert Strip("send") == "send";
    assert Lower("send") == "send";
  }

  /** A word as it is compared: stripped, lower-cased. */
  predicate IsPlain(s: string) {
    Lower(Strip(s)) == s
  }

  /**
   * What a block lets through, for plain names: after a rate limit of the page nothing, otherwise the two probes; and
   * for the three reasons that pass by themselves also waiting and exporting.
   */
  predicate LetsThrough(reason: string, action: string) {
    && reason != "frontend_rate_limit"
    && (action in {"self_check", "capture_ui"}
        || (action in {"wait", "conversation_export"}
            && reason in {"network", "unusual_activity", "verification_pending"}))
  }

  lemma AllowedIff(action: string, reason: string)
    requires IsPlain(action) && IsPlain(reason)
    ensures AllowedWhileBlocked(action, reason) <==> LetsThrough(reason, action)
  {
    hide Lower, Strip;
  }

  /**
   * Any action is refused exactly while the block of the latest event lasts, blocks are not ignored, and that block
   * does not let it through.
   */
  lemma RefusedIff(es: seq<Event>, action: string, now: int, ignoreBlocked: bool)
    requires PositiveClock(es)
    ensures Refuses(After(es), action, now, ignoreBlocked) <==>
              && !ignoreBlocked
              && es != [] && es[|es| - 1].Set? && now < es[|es| - 1].now + DueCooldown(es) * SECOND
              && !AllowedWhileBlocked(action, if es[|es| - 1].reason == "" then "blocked" else es[|es| - 1].reason)
  {
    StrikesAreCounted(es);
    hide AllowedWhileBlocked, After, DueCooldown;
  }

  /** A send is refused exactly while the block of the latest event lasts. */
  lemma SendRefusedIff(es: seq<Event>, now: int)
    requires PositiveClock(es)
    ensures Refuses(After(es), "send", now, false) <==>
              es != [] && es[|es| - 1].Set? && now < es[|es| - 1].now + DueCooldown(es) * SECOND
  {
    StrikesAreCounted(es);
    SendIsNeverAllowed(After(es).reason);
    hide AllowedWhileBlocked, After, DueCooldown;
  }

  lemma {:induction false} Pow2Grows(j: nat, k: nat)
    requires j <= k
    ensures Pow2(j) <= Pow2(k) && Pow2(k) > k
    decreases k
  {
    if j < k {
      Pow2Grows(j, k - 1);
    } else if k > 0 {
      Pow2Grows(k - 1, k - 1);
    }
  }

  lemma ProductsGrow(base: nat, x: nat, y: nat)
    requires x <= y
    ensures base * x <= base * y
  {
  }

  /**
   * From one strike to the next the cooldown doubles, up to the cap; without a cap or a base, or without a counted
   * strike, it is the base.
   */
  lemma CooldownDoubles(base: nat, k: nat, maxSeconds: nat)
    ensures k == 0 || base == 0 || maxSeconds == 0 ==> Scaled(base, k, maxSeconds) == base
    ensures base > 0 && maxSeconds > 0 ==> Scaled(base, 1, maxSeconds) == Min(maxSeconds, base)
    ensures k > 0 && base > 0 && maxSeconds > 0 ==>
              Scaled(base, k + 1, maxSeconds) == Min(maxSeconds, 2 * Scaled(base, k, maxSeconds))
  {
    if k > 0 {
      assert base * Pow2(k) == 2 * (base * Pow2(k - 1));
    }
  }

  /** The cooldown never falls from one strike of a streak to a later one, starts at the base and ends at the cap. */
  lemma CooldownsClimbToTheCap(base: nat, maxSeconds: nat, j: nat, k: nat)
    requires base > 0 && maxSeconds > 0 && 1 <= j <= k
    ensures Scaled(base, 1, maxSeconds) == Min(maxSeconds, base)
    ensures Scaled(base, j, maxSeconds) <= Scaled(base, k, maxSeconds) <= maxSeconds
    ensures k > maxSeconds ==> Scaled(base, k, maxSeconds) == maxSeconds
  {
    Pow2Grows(j - 1, k - 1);
    ProductsGrow(base, Pow2(j - 1), Pow2(k - 1));
    ProductsGrow(Pow2(k - 1), 1, base);
  }

  // ---- The advertised wait -----------------------------------------------------------------------

  /** `retry_after_seconds`: the whole seconds left of a block, at least one. */
  function RetryAfter(st: State, now: int): Option<nat> {
    if st.blockedUntil <= 0 || now >= st.blockedUntil then None
    else Some(Max(1, (st.blockedUntil - now) / SECOND))
  }

  /**
   * A wait is advertised exactly while a send is refused. Because the seconds left are rounded down, waiting that
   * long ends the block if and only if what was left was a whole number of seconds or less than one.
   */
  lemma RetryAfterIsEnoughIff(st: State, now: int)
    ensures RetryAfter(st, now).Some? <==> Refuses(st, "send", now, false)
    ensures RetryAfter(st, now).Some? ==>
              (now + RetryAfter(st, now).value * SECOND >= st.blockedUntil <==>
                 st.blockedUntil - now < SECOND || (st.blockedUntil - now) % SECOND == 0)
  {
    SendIsNeverAllowed(st.reason);
    hide AllowedWhileBlocked;
  }
}
