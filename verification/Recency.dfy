/** Distinct elements of a history in the order of their last occurrence. */
module Recency {
  import opened Wrappers

  function LastN(s: seq<string>, n: nat): seq<string> {
    if |s| <= n then s else s[|s| - n..]
  }

  function Without(s: seq<string>, x: string): (r: seq<string>)
    ensures |r| <= |s|
    ensures forall y :: y in r <==> y in s && y != x
    ensures x !in s ==> r == s
  {
    if s == [] then [] else if s[0] == x then Without(s[1..], x) else [s[0]] + Without(s[1..], x)
  }

  /** Every element once, where it occurs last. */
  function Latest(h: seq<string>): (r: seq<string>)
    ensures forall y :: y in r <==> y in h
    ensures Distinct(r)
  {
    if h == [] then [] else if h[0] in h[1..] then Latest(h[1..]) else [h[0]] + Latest(h[1..])
  }

  /** What follows the last occurrence of `x`; the whole history if there is none. */
  function Since(h: seq<string>, x: string): (r: seq<string>)
    ensures x !in r
    ensures |r| <= |h| && r == h[|h| - |r|..]
    ensures x in h <==> |r| < |h|
    ensures x in h ==> h[|h| - |r| - 1] == x
  {
    if h == [] || h[|h| - 1] == x then [] else Since(h[..|h| - 1], x) + [h[|h| - 1]]
  }

  lemma {:induction false} WithoutConcat(a: seq<string>, b: seq<string>, x: string)
    ensures Without(a + b, x) == Without(a, x) + Without(b, x)
  {
    if a == [] {
      assert a + b == b;
    } else {
      assert (a + b)[1..] == a[1..] + b;
      WithoutConcat(a[1..], b, x);
    }
  }

  lemma {:induction false} LatestDistinct(s: seq<string>)
    requires Distinct(s)
    ensures Latest(s) == s
  {
    if s != [] {
      LatestDistinct(s[1..]);
    }
  }

  lemma {:induction false} WithoutDistinct(s: seq<string>, x: string)
    requires Distinct(s)
    ensures Distinct(Without(s, x))
  {
    if s != [] {
      WithoutDistinct(s[1..], x);
      var r := Without(s[1..], x);
      assert s[0] !in s[1..] && s[0] !in r;
      assert Distinct([s[0]] + r);
    }
  }

  lemma LatestHead(a: string, rest: seq<string>)
    ensures Latest([a] + rest) == if a in rest then Latest(rest) else [a] + Latest(rest)
  {
    assert ([a] + rest)[1..] == rest;
  }

  lemma WithoutHead(a: string, rest: seq<string>, x: string)
    ensures Without([a] + rest, x) == if a == x then Without(rest, x) else [a] + Without(rest, x)
  {
    assert ([a] + rest)[1..] == rest;
  }

  /** A new occurrence moves its element to the end. */
  lemma {:induction false} LatestOneMore(h: seq<string>, x: string)
    ensures Latest(h + [x]) == Without(Latest(h), x) + [x]
  {
    if h == [] {
      LatestHead(x, []);
      assert [x] + [] == [x] && h + [x] == [x];
    } else {
      hide Latest, Without, Distinct;
      var first, rest := h[0], h[1..];
      assert h == [first] + rest && h + [x] == [first] + (rest + [x]);
      LatestOneMore(rest, x);
      LatestHead(first, rest);
      LatestHead(first, rest + [x]);
      WithoutHead(first, Latest(rest), x);
    }
  }

  lemma LastNConcat(a: seq<string>, b: seq<string>, n: nat)
    requires |b| >= n
    ensures LastN(a + b, n) == LastN(b, n)
  {
  }

  /** Forgetting all but the newest `n` before a new occurrence or only after it makes no difference. */
  lemma BoundedOneMore(s: seq<string>, n: nat, x: string)
    requires Distinct(s) && n >= 1
    ensures LastN(Without(LastN(s, n), x) + [x], n) == LastN(Without(s, x) + [x], n)
  {
    hide Without;
    if |s| > n {
      var older, newer := s[..|s| - n], s[|s| - n..];
      assert s == older + newer;
      WithoutConcat(older, newer, x);
      WithoutOne(newer, x);
      LastNConcat(Without(older, x), Without(newer, x) + [x], n);
      assert Without(s, x) + [x] == Without(older, x) + (Without(newer, x) + [x]);
    }
  }

  lemma {:induction false} WithoutOne(s: seq<string>, x: string)
    requires Distinct(s)
    ensures |Without(s, x)| == if x in s then |s| - 1 else |s|
  {
    if s != [] && s[0] != x {
      WithoutOne(s[1..], x);
    }
  }

  /** Behind an element's last occurrence come exactly the distinct elements that occurred later. */
  lemma {:induction false} LatestSplit(h: seq<string>, x: string) returns (older: seq<string>)
    requires x in h
    ensures Latest(h) == older + ([x] + Latest(Since(h, x)))
  {
    var rest, later := h[1..], Since(h, x);
    if |later| == |h| - 1 {
      assert rest == later && h[0] == x;
      older := [];
    } else {
      SinceTail(h, x);
      older := LatestSplit(rest, x);
      if h[0] !in rest {
        older := [h[0]] + older;
      }
    }
  }

  lemma {:induction false} SinceTail(h: seq<string>, x: string)
    requires |Since(h, x)| < |h| - 1
    ensures Since(h[1..], x) == Since(h, x) && x in h[1..]
  {
    var r := Since(h, x);
    assert h[1..][|h| - |r| - 2] == x;
    SinceUnique(h[1..], x, r);
  }

  lemma {:induction false} SinceUnique(h: seq<string>, x: string, r: seq<string>)
    requires |r| < |h| && r == h[|h| - |r|..] && h[|h| - |r| - 1] == x && x !in r
    ensures Since(h, x) == r
  {
    if r != [] {
      assert h[|h| - 1] == r[|r| - 1];
      SinceUnique(h[..|h| - 1], x, r[..|r| - 1]);
    }
  }
}
