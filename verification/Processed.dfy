/**
 * The bounded cache of processed requirement ids (`Pipeline` in `chatgptrest/pipeline.py`): an ordered set, newest
 * last, saved after every mark and loaded by every new process.
 */
module Processed {
  import opened Wrappers
  import opened Recency

  const MAX_PROCESSED := 1000

  function Marked(order: seq<string>, id: string): seq<string> {
    LastN(Without(order, id) + [id], MAX_PROCESSED)
  }

  /** Each element once, where it occurs first: what building an ordered dictionary from a list gives. */
  function FirstKept(items: seq<string>): (r: seq<string>)
    ensures forall y :: y in r <==> y in items
    ensures Distinct(r)
  {
    if items == [] then []
    else
      var r, last := FirstKept(items[..|items| - 1]), items[|items| - 1];
      if last in r then r else r + [last]
  }

  /** A missing or unreadable file loads as empty. */
  function Loaded(file: Option<seq<string>>): seq<string> {
    if file.None? then [] else LastN(FirstKept(file.value), MAX_PROCESSED)
  }

  function Fresh(reqs: seq<string>, order: seq<string>): seq<string> {
    if reqs == [] then []
    else Fresh(reqs[..|reqs| - 1], order) + (if reqs[|reqs| - 1] in order then [] else [reqs[|reqs| - 1]])
  }

  /** Taking out an element that occurs once leaves the rest in order. */
  lemma WithoutBetween(a: seq<string>, x: string, b: seq<string>)
    requires x !in a && x !in b
    ensures Without(a + ([x] + b), x) == a + b
  {
    WithoutConcat(a, [x] + b, x);
    WithoutConcat([x], b, x);
    assert Without([x], x) == [];
    hide Without;
    assert [] + b == b;
  }

  class Pipeline {
    var processed: seq<string>
    var file: Option<seq<string>>

    constructor (file: Option<seq<string>>)
      ensures this.file == file && processed == Loaded(file)
    {
      this.file := file;
      processed := [];
      new;
      LoadProcessed();
    }

    method LoadProcessed()
      modifies this`processed
      ensures processed == Loaded(file)
    {
      processed := [];
      if file.Some? {
        for i := 0 to |file.value|
          invariant processed == FirstKept(file.value[..i])
        {
          assert file.value[..i + 1][..i] == file.value[..i];
          if file.value[i] !in processed {
            processed := processed + [file.value[i]];
          }
        }
        assert file.value[..|file.value|] == file.value;
        DropOldest();
      }
    }

    method DropOldest()
      modifies this`processed
      ensures processed == LastN(old(processed), MAX_PROCESSED)
    {
      while |processed| > MAX_PROCESSED
        invariant |processed| <= |old(processed)|
        invariant processed == old(processed)[|old(processed)| - |processed|..]
        invariant |processed| >= MAX_PROCESSED || processed == old(processed)
      {
        processed := processed[1..];
      }
    }

    method SaveProcessed()
      modifies this`file
      ensures file == Some(processed)
    {
      file := Some(processed);
    }

    method MarkProcessed(id: string)
      requires Distinct(processed)
      modifies this
      ensures processed == Marked(old(processed), id) && Distinct(processed)
      ensures file == Some(processed)
    {
      if id !in processed {
        WithoutConcat(processed, [id], id);
        assert Without([id], id) == [];
        processed := processed + [id];
      }
      MoveToEnd(id);
      assert Distinct(LastN(processed, MAX_PROCESSED));
      DropOldest();
      SaveProcessed();
    }

    method MoveToEnd(id: string)
      requires Distinct(processed) && id in processed
      modifies this`processed
      ensures processed == Without(old(processed), id) + [id] && Distinct(processed)
    {
      var i :| 0 <= i < |processed| && processed[i] == id;
      var a, b := processed[..i], processed[i + 1..];
      assert processed == a + ([id] + b) && id !in a && id !in b;
      WithoutBetween(a, id, b);
      WithoutDistinct(processed, id);
      hide Without;
      processed := a + b + [id];
    }

    method ScanSessions(reqs: seq<string>) returns (offered: seq<string>)
      ensures offered == Fresh(reqs, processed)
    {
      offered := [];
      for i := 0 to |reqs|
        invariant offered == Fresh(reqs[..i], processed)
      {
        assert reqs[..i + 1][..i] == reqs[..i];
        if reqs[i] !in processed {
          offered := offered + [reqs[i]];
        }
      }
      assert reqs[..|reqs|] == reqs;
    }
  }

  // ---- Runs --------------------------------------------------------------------------------------

  datatype Event = Mark(id: string) | Restart

  datatype State = State(order: seq<string>, file: Option<seq<string>>)

  function Step(s: State, e: Event): State {
    match e
    case Mark(id) => State(Marked(s.order, id), Some(Marked(s.order, id)))
    case Restart => s.(order := Loaded(s.file))
  }

  function After(es: seq<Event>): State {
    if es == [] then State([], None) else Step(After(es[..|es| - 1]), es[|es| - 1])
  }

  /** The ids marked by a run, in order, whatever processes they were marked in. */
  function Marks(es: seq<Event>): seq<string> {
    if es == [] then []
    else if es[|es| - 1].Mark? then Marks(es[..|es| - 1]) + [es[|es| - 1].id]
    else Marks(es[..|es| - 1])
  }

  lemma {:induction false} FirstKeptDistinct(s: seq<string>)
    requires Distinct(s)
    ensures FirstKept(s) == s
  {
    if s != [] {
      FirstKeptDistinct(s[..|s| - 1]);
    }
  }

  /** Saving and loading again is the identity on everything a cache can hold. */
  lemma SaveThenLoad(order: seq<string>)
    requires Distinct(order) && |order| <= MAX_PROCESSED
    ensures Loaded(Some(order)) == order
  {
    FirstKeptDistinct(order);
  }

  /**
   * After any sequence of marks and restarts the cache is the last 1000 distinct ids of the mark history in the order
   * of their latest mark, and the file agrees with it: restarts are invisible.
   */
  lemma {:induction false} CacheIsRecentHistory(es: seq<Event>)
    ensures After(es).order == LastN(Latest(Marks(es)), MAX_PROCESSED)
    ensures After(es).file == if Marks(es) == [] then None else Some(After(es).order)
  {
    if es != [] {
      var front, e := es[..|es| - 1], es[|es| - 1];
      CacheIsRecentHistory(front);
      match e
      case Mark(id) =>
        LatestOneMore(Marks(front), id);
        BoundedOneMore(Latest(Marks(front)), MAX_PROCESSED, id);
      case Restart =>
        SaveThenLoad(After(front).order);
    }
  }

  /** A scan looks at each requirement by itself and keeps their order. */
  lemma {:induction false} FreshConcat(a: seq<string>, b: seq<string>, order: seq<string>)
    ensures Fresh(a + b, order) == Fresh(a, order) + Fresh(b, order)
    ensures |b| == 1 ==> Fresh(b, order) == if b[0] in order then [] else b
  {
    if b == [] {
      assert a + b == a;
    } else {
      assert (a + b)[..|a + b| - 1] == a + b[..|b| - 1];
      FreshConcat(a, b[..|b| - 1], order);
    }
  }

  /** Loading keeps first occurrences: what comes later in a file never changes the order of what came before. */
  lemma {:induction false} FirstKeptPrefix(a: seq<string>, b: seq<string>)
    ensures FirstKept(a) <= FirstKept(a + b)
  {
    if b == [] {
      assert a + b == a;
    } else {
      assert (a + b)[..|a + b| - 1] == a + b[..|b| - 1];
      FirstKeptPrefix(a, b[..|b| - 1]);
    }
  }

  lemma FreshMembers(reqs: seq<string>, order: seq<string>, id: string)
    ensures id in Fresh(reqs, order) <==> id in reqs && id !in order
  {
    if reqs != [] {
      FreshMembers(reqs[..|reqs| - 1], order, id);
      assert reqs == reqs[..|reqs| - 1] + [reqs[|reqs| - 1]];
    }
  }

  /**
   * A scan offers an id found in the sessions exactly if it was never marked, or if at least 1000 other distinct ids
   * have been marked since its latest mark, in this process or earlier ones.
   */
  lemma OfferedIff(es: seq<Event>, reqs: seq<string>, id: string)
    requires id in reqs
    ensures id in Fresh(reqs, After(es).order) <==>
              id !in Marks(es) || |Latest(Since(Marks(es), id))| >= MAX_PROCESSED
  {
    FreshMembers(reqs, After(es).order, id);
    CacheIsRecentHistory(es);
    if id in Marks(es) {
      var older := LatestSplit(Marks(es), id);
      InLastN(Latest(Marks(es)), |older|, MAX_PROCESSED);
    }
  }

  lemma InLastN(s: seq<string>, i: nat, n: nat)
    requires Distinct(s) && i < |s|
    ensures s[i] in LastN(s, n) <==> |s| - i <= n
  {
    if |s| > n && i >= |s| - n {
      assert LastN(s, n)[i - (|s| - n)] == s[i];
    }
  }
}
