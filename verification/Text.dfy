/** The few string operations that decide branches in the driver: `str.strip`, `in`, `startswith`, `lower`. */
module Text {
  predicate IsSpace(c: char) {
    || '\t' <= c <= '\r'
    || '\U{1C}' <= c <= ' '
    || c == '\U{85}' || c == '\U{A0}' || c == '\U{1680}'
    || '\U{2000}' <= c <= '\U{200A}'
    || c == '\U{2028}' || c == '\U{2029}' || c == '\U{202F}' || c == '\U{205F}' || c == '\U{3000}'
  }

  predicate IsBlank(s: string) {
    forall i | 0 <= i < |s| :: IsSpace(s[i])
  }

  /** Neither end is white space: the strings that `strip` returns. */
  predicate IsTrimmed(s: string) {
    s != "" ==> !IsSpace(s[0]) && !IsSpace(s[|s| - 1])
  }

  function TrimLeft(s: string): (r: string)
    ensures |r| <= |s|
    ensures r != "" ==> !IsSpace(r[0]) && r[|r| - 1] == s[|s| - 1]
    ensures s != "" && !IsSpace(s[0]) ==> r == s
    ensures r == "" <==> IsBlank(s)
  {
    if s != "" && IsSpace(s[0]) then
      assert IsBlank(s[1..]) ==> IsBlank(s) by { assert forall i | 0 < i < |s| :: s[i] == s[1..][i - 1]; }
      TrimLeft(s[1..])
    else s
  }

  function TrimRight(s: string): (r: string)
    ensures |r| <= |s|
    ensures r != "" ==> !IsSpace(r[|r| - 1]) && r[0] == s[0]
    ensures s != "" && !IsSpace(s[|s| - 1]) ==> r == s
    ensures r == "" <==> IsBlank(s)
  {
    if s != "" && IsSpace(s[|s| - 1]) then
      assert IsBlank(s[..|s| - 1]) ==> IsBlank(s);
      TrimRight(s[..|s| - 1])
    else s
  }

  function Strip(s: string): (r: string)
    ensures |r| <= |s|
    ensures IsTrimmed(r)
    ensures IsTrimmed(s) ==> r == s
    ensures r == "" <==> IsBlank(s)
  {
    TrimRight(TrimLeft(s))
  }

  /** Stripping takes white space off both ends and nothing else. */
  lemma StripIsInner(s: string) returns (a: string, b: string)
    ensures s == a + Strip(s) + b && IsBlank(a) && IsBlank(b)
  {
    a := LeftPart(s);
    b := RightPart(TrimLeft(s));
  }

  lemma {:induction false} LeftPart(s: string) returns (a: string)
    ensures s == a + TrimLeft(s) && IsBlank(a)
  {
    if s != "" && IsSpace(s[0]) {
      var rest := LeftPart(s[1..]);
      a := [s[0]] + rest;
    } else {
      a := "";
    }
  }

  lemma {:induction false} RightPart(s: string) returns (b: string)
    ensures s == TrimRight(s) + b && IsBlank(b)
  {
    if s != "" && IsSpace(s[|s| - 1]) {
      var rest := RightPart(s[..|s| - 1]);
      b := rest + [s[|s| - 1]];
    } else {
      b := "";
    }
  }

  predicate OccursAt(s: string, t: string, i: nat) {
    i + |t| <= |s| && s[i..i + |t|] == t
  }

  lemma {:induction false} ContainsIff(s: string, t: string)
    ensures Contains(s, t) <==> exists i: nat :: OccursAt(s, t, i)
  {
    if StartsWith(s, t) {
      assert OccursAt(s, t, 0);
    } else if s != "" {
      ContainsIff(s[1..], t);
      if Contains(s[1..], t) {
        var i: nat :| OccursAt(s[1..], t, i);
        assert OccursAt(s, t, i + 1);
      }
      forall i: nat | OccursAt(s, t, i)
        ensures Contains(s[1..], t)
      {
        assert i > 0 && OccursAt(s[1..], t, i - 1);
      }
    }
  }

  predicate Contains(s: string, t: string) {
    StartsWith(s, t) || (s != "" && Contains(s[1..], t))
  }

  predicate StartsWith(s: string, prefix: string) {
    prefix <= s
  }

  function Lower(s: string): (r: string)
    ensures |r| == |s|
  {
    seq(|s|, i requires 0 <= i < |s| => if 'A' <= s[i] <= 'Z' then s[i] + ('a' - 'A') else s[i])
  }
}
