/**
 * Suppression of the process's proxy variables (`chatgpt_web_mcp/proxy.py`): a counter of open contexts, the
 * variables put aside while it is positive, and the environment all of them share.
 */
module Proxy {
  type Env = map<string, string>

  const KEYS: seq<string> := [
    "HTTP_PROXY", "HTTPS_PROXY", "ALL_PROXY", "NO_PROXY", "http_proxy", "https_proxy", "all_proxy", "no_proxy"]

  predicate IsProxyKey(k: string) {
    k in KEYS
  }

  function Proxies(env: Env): (p: Env)
    ensures forall k | k in p :: IsProxyKey(k)
  {
    map k | k in env && IsProxyKey(k) :: env[k]
  }

  function Others(env: Env): (o: Env)
    ensures forall k | k in o :: !IsProxyKey(k)
  {
    map k | k in env && !IsProxyKey(k) :: env[k]
  }

  /** The three pieces of global state. */
  datatype Guard = Guard(env: Env, count: nat, baseline: Env)

  function Entered(g: Guard): Guard {
    if g.count == 0 then Guard(Others(g.env), 1, Proxies(g.env)) else g.(count := g.count + 1)
  }

  function Exited(g: Guard): Guard {
    if g.count > 1 then g.(count := g.count - 1) else Guard(Others(g.env) + g.baseline, 0, map[])
  }

  function SubprocessEnv(g: Guard): Env {
    if g.count == 0 then map[] else map k | k in g.baseline && g.baseline[k] != "" :: g.baseline[k]
  }

  class ProxyGuard {
    var environ: Env
    var disableCount: nat
    var baseline: Env

    function Model(): Guard
      reads this
    {
      Guard(environ, disableCount, baseline)
    }

    constructor (env: Env)
      ensures Model() == Guard(env, 0, map[])
    {
      environ, disableCount, baseline := env, 0, map[];
    }

    method PopProxyKeys()
      modifies this`environ
      ensures environ == Others(old(environ))
    {
      hide KEYS;
      for i := 0 to |KEYS|
        invariant environ == map k | k in old(environ) && k !in KEYS[..i] :: old(environ)[k]
      {
        ghost var before := environ;
        environ := environ - {KEYS[i]};
        assert KEYS[..i + 1] == KEYS[..i] + [KEYS[i]];
      }
      assert KEYS[..|KEYS|] == KEYS;
    }

    method Enter()
      modifies this
      ensures Model() == Entered(old(Model()))
    {
      hide KEYS;
      if disableCount == 0 {
        var saved := map k | k in environ && IsProxyKey(k) :: environ[k];
        PopProxyKeys();
        baseline := saved;
      }
      disableCount := disableCount + 1;
    }

    method Exit()
      modifies this
      ensures Model() == Exited(old(Model()))
    {
      hide KEYS;
      disableCount := if disableCount > 0 then disableCount - 1 else 0;
      if disableCount != 0 {
        return;
      }
      var saved := baseline;
      baseline := map[];
      PopProxyKeys();
      environ := environ + saved;
    }

    method EnvForSubprocess() returns (env: Env)
      ensures env == SubprocessEnv(Model())
    {
      if disableCount == 0 || baseline == map[] {
        return map[];
      }
      return map k | k in baseline && baseline[k] != "" :: baseline[k];
    }
  }

  // ---- Overlapping contexts ------------------------------------------------------------------------

  /** Contexts are named so that they can be left in any order; `Set` and `Unset` are writes by anyone else. */
  datatype Event = Enter(ctx: nat) | Exit(ctx: nat) | Set(key: string, value: string) | Unset(key: string)

  /** What should be true without looking at the counter or the baseline. */
  datatype View = View(open: set<nat>, outer: Env, inner: Env, others: Env)

  function Write(env: Env, e: Event): Env
    requires e.Set? || e.Unset?
  {
    if e.Set? then env[e.key := e.value] else env - {e.key}
  }

  /**
   * Outside all contexts a proxy variable belongs to the process; inside, a write to one is private to the
   * suppression and is forgotten with it. Other variables do not notice.
   */
  function ViewStep(v: View, e: Event): View {
    match e
    case Enter(c) => v.(open := v.open + {c}, inner := if v.open == {} then map[] else v.inner)
    case Exit(c) => v.(open := v.open - {c})
    case _ =>
      if !IsProxyKey(e.key) then v.(others := Write(v.others, e))
      else if v.open == {} then v.(outer := Write(v.outer, e))
      else v.(inner := Write(v.inner, e))
  }

  function GuardStep(g: Guard, e: Event): Guard {
    match e
    case Enter(_) => Entered(g)
    case Exit(_) => Exited(g)
    case _ => g.(env := Write(g.env, e))
  }

  function ViewAfter(v: View, es: seq<Event>): View {
    if es == [] then v else ViewStep(ViewAfter(v, es[..|es| - 1]), es[|es| - 1])
  }

  function GuardAfter(g: Guard, es: seq<Event>): Guard {
    if es == [] then g else GuardStep(GuardAfter(g, es[..|es| - 1]), es[|es| - 1])
  }

  /** A context is entered while it is not open and left while it is. */
  predicate Proper(v: View, es: seq<Event>) {
    es != [] ==>
      var before, e := ViewAfter(v, es[..|es| - 1]), es[|es| - 1];
      && Proper(v, es[..|es| - 1])
      && (e.Enter? ==> e.ctx !in before.open)
      && (e.Exit? ==> e.ctx in before.open)
  }

  predicate Agrees(g: Guard, v: View) {
    && g.count == |v.open|
    && (forall k | k in v.others :: !IsProxyKey(k))
    && (forall k | k in v.outer :: IsProxyKey(k))
    && (v.open != {} ==> forall k | k in v.inner :: IsProxyKey(k))
    && g.env == v.others + (if v.open == {} then v.outer else v.inner)
    && g.baseline == (if v.open == {} then map[] else v.outer)
  }

  function Start(env: Env): View {
    View({}, Proxies(env), map[], Others(env))
  }

  /** Variables of the two kinds can be told apart again after being put together. */
  lemma Separate(others: Env, proxies: Env)
    requires (forall k | k in others :: !IsProxyKey(k)) && (forall k | k in proxies :: IsProxyKey(k))
    ensures Others(others + proxies) == others && Proxies(others + proxies) == proxies
  {
    hide KEYS, IsProxyKey;
  }

  lemma AgreesEnter(g: Guard, v: View, c: nat)
    requires Agrees(g, v) && c !in v.open
    ensures Agrees(Entered(g), ViewStep(v, Enter(c)))
  {
    hide KEYS, IsProxyKey, Others, Proxies;
    Separate(v.others, v.outer);
    assert |v.open + {c}| == |v.open| + 1;
    assert v.open == {} <==> |v.open| == 0;
    assert v.others + map[] == v.others;
  }

  lemma AgreesExit(g: Guard, v: View, c: nat)
    requires Agrees(g, v) && c in v.open
    ensures Agrees(Exited(g), ViewStep(v, Exit(c)))
  {
    hide KEYS, IsProxyKey, Others, Proxies;
    Separate(v.others, v.inner);
    assert |v.open - {c}| == |v.open| - 1;
    assert v.open - {c} == {} <==> |v.open - {c}| == 0;
  }

  lemma WriteToOneKind(others: Env, proxies: Env, e: Event)
    requires e.Set? || e.Unset?
    requires (forall k | k in others :: !IsProxyKey(k)) && (forall k | k in proxies :: IsProxyKey(k))
    ensures Write(others + proxies, e)
         == if IsProxyKey(e.key) then others + Write(proxies, e) else Write(others, e) + proxies
  {
    hide KEYS, IsProxyKey;
    if e.Unset? {
      assert others + proxies - {e.key} == (others - {e.key}) + (proxies - {e.key});
      assert IsProxyKey(e.key) ==> others - {e.key} == others;
      assert !IsProxyKey(e.key) ==> proxies - {e.key} == proxies;
    }
  }

  lemma AgreesWrite(g: Guard, v: View, e: Event)
    requires Agrees(g, v) && (e.Set? || e.Unset?)
    ensures Agrees(GuardStep(g, e), ViewStep(v, e))
  {
    hide KEYS, IsProxyKey, Entered, Exited;
    WriteToOneKind(v.others, if v.open == {} then v.outer else v.inner, e);
  }

  /**
   * For every interleaving of entering and leaving named contexts in any order, and of writes by others to any
   * variable: the counter is the number of open contexts, and environment and baseline are the ones of the view.
   */
  lemma {:induction false} GuardMatchesView(env: Env, es: seq<Event>)
    requires Proper(Start(env), es)
    ensures Agrees(GuardAfter(Guard(env, 0, map[]), es), ViewAfter(Start(env), es))
  {
    hide KEYS, IsProxyKey;
    if es == [] {
      assert Others(env) + Proxies(env) == env;
    } else {
      GuardMatchesView(env, es[..|es| - 1]);
      hide Agrees, Entered, Exited;
      var g, v := GuardAfter(Guard(env, 0, map[]), es[..|es| - 1]), ViewAfter(Start(env), es[..|es| - 1]);
      match es[|es| - 1]
      case Enter(c) => AgreesEnter(g, v, c);
      case Exit(c) => AgreesExit(g, v, c);
      case _ => AgreesWrite(g, v, es[|es| - 1]);
    }
  }

  predicate WritesProxies(e: Event) {
    (e.Set? || e.Unset?) && IsProxyKey(e.key)
  }

  /** The other variables after the writes of the run, as if no context had ever been entered. */
  function OthersAfter(env: Env, es: seq<Event>): Env {
    if es == [] then Others(env)
    else
      var e := es[|es| - 1];
      var before := OthersAfter(env, es[..|es| - 1]);
      if (e.Set? || e.Unset?) && !IsProxyKey(e.key) then Write(before, e) else before
  }

  lemma {:induction false} ViewOfQuietRun(env: Env, es: seq<Event>)
    requires forall i | 0 <= i < |es| :: !WritesProxies(es[i])
    ensures var v := ViewAfter(Start(env), es);
            v.outer == Proxies(env) && (v.open != {} ==> v.inner == map[]) && v.others == OthersAfter(env, es)
  {
    hide KEYS, IsProxyKey;
    if es != [] {
      ViewOfQuietRun(env, es[..|es| - 1]);
      var last := es[|es| - 1];
      assert !WritesProxies(last);
    }
  }

  /**
   * If nobody else writes proxy variables: while any context is open none of them is visible and the original ones
   * are put aside unchanged; when the last context closes, in whatever order they close, all are back exactly. The
   * other variables are what the other writes made them at every moment.
   */
  lemma SuppressionIsExact(env: Env, es: seq<Event>)
    requires Proper(Start(env), es)
    requires forall i | 0 <= i < |es| :: !WritesProxies(es[i])
    ensures var g := GuardAfter(Guard(env, 0, map[]), es);
            && g.count == |ViewAfter(Start(env), es).open|
            && Others(g.env) == OthersAfter(env, es)
            && (g.count > 0 ==> Proxies(g.env) == map[] && g.baseline == Proxies(env))
            && (g.count == 0 ==> Proxies(g.env) == Proxies(env) && g.baseline == map[])
  {
    hide KEYS, IsProxyKey;
    GuardMatchesView(env, es);
    ViewOfQuietRun(env, es);
    var v := ViewAfter(Start(env), es);
    Separate(v.others, v.outer);
    Separate(v.others, map[]);
    hide Others, Proxies;
  }

  /**
   * A subprocess started while proxies are suppressed, with the environment plus what the guard adds, sees a proxy
   * variable exactly if the process had one with a non-empty value, and sees that value.
   */
  lemma SubprocessSeesOriginalProxies(env: Env, es: seq<Event>, k: string)
    requires Proper(Start(env), es) && IsProxyKey(k)
    requires forall i | 0 <= i < |es| :: !WritesProxies(es[i])
    requires GuardAfter(Guard(env, 0, map[]), es).count > 0
    ensures var g := GuardAfter(Guard(env, 0, map[]), es);
            var seen := g.env + SubprocessEnv(g);
            && (k in seen <==> k in env && env[k] != "")
            && (k in seen ==> seen[k] == env[k])
  {
    SuppressionIsExact(env, es);
    hide KEYS, IsProxyKey, Proper, GuardAfter, OthersAfter, ViewAfter;
    var g := GuardAfter(Guard(env, 0, map[]), es);
    assert k !in Proxies(g.env);
  }

  lemma {:induction false} ViewConcat(v: View, a: seq<Event>, b: seq<Event>)
    ensures ViewAfter(v, a + b) == ViewAfter(ViewAfter(v, a), b)
  {
    if b == [] {
      assert a + b == a;
    } else {
      assert (a + b)[..|a + b| - 1] == a + b[..|b| - 1];
      ViewConcat(v, a, b[..|b| - 1]);
    }
  }

  lemma {:induction false} ProperConcat(v: View, a: seq<Event>, b: seq<Event>)
    requires Proper(v, a + b)
    ensures Proper(v, a)
  {
    if b == [] {
      assert a + b == a;
    } else {
      assert (a + b)[..|a + b| - 1] == a + b[..|b| - 1];
      ProperConcat(v, a, b[..|b| - 1]);
    }
  }

  /** Every step of the run happens inside some context, or enters one. */
  predicate Inside(v: View, during: seq<Event>) {
    during != [] ==>
      && Inside(v, during[..|during| - 1])
      && (during[|during| - 1].Enter? || ViewAfter(v, during[..|during| - 1]).open != {})
  }

  lemma {:induction false} OuterUnchanged(v: View, during: seq<Event>)
    requires Inside(v, during)
    ensures ViewAfter(v, during).outer == v.outer
  {
    hide KEYS, IsProxyKey;
    if during != [] {
      OuterUnchanged(v, during[..|during| - 1]);
    }
  }

  /**
   * What others do to a proxy variable while contexts are open is lost when the last one closes: back outside, the
   * proxy variables are the ones from before the suppression, whatever happened inside it.
   */
  lemma InnerWritesAreForgotten(env: Env, before: seq<Event>, during: seq<Event>)
    requires Proper(Start(env), before + during)
    requires ViewAfter(Start(env), before).open == {}
    requires Inside(ViewAfter(Start(env), before), during)
    requires ViewAfter(Start(env), before + during).open == {}
    ensures Proxies(GuardAfter(Guard(env, 0, map[]), before + during).env)
         == Proxies(GuardAfter(Guard(env, 0, map[]), before).env)
  {
    ViewConcat(Start(env), before, during);
    ProperConcat(Start(env), before, during);
    OuterUnchanged(ViewAfter(Start(env), before), during);
    GuardMatchesView(env, before + during);
    GuardMatchesView(env, before);
    var v, u := ViewAfter(Start(env), before + during), ViewAfter(Start(env), before);
    Separate(v.others, v.outer);
    Separate(u.others, u.outer);
    hide Proxies, Others, Proper, Inside, ViewAfter, GuardAfter, KEYS;
  }
}
