/**
 * The bounded memory log of the maintenance daemon (`ops/_maint_codex_memory.py`): JSON lines appended to a file that
 * is cut to a number of bytes, and a digest of its newest record for each signature.
 */
module MemoryLog {
  import opened Wrappers
  import opened Recency

  type Byte = b: int | 0 <= b < 256

  type Bytes = seq<Byte>

  const NEWLINE: Byte := 10

  predicate IsLine(line: Bytes) {
    NEWLINE !in line
  }

  predicate AreLines(lines: seq<Bytes>) {
    forall i | 0 <= i < |lines| :: IsLine(lines[i])
  }

  /** The file that holds these lines. */
  function Join(lines: seq<Bytes>): Bytes {
    if lines == [] then [] else Join(lines[..|lines| - 1]) + (lines[|lines| - 1] + [NEWLINE])
  }

  /** The position of the first newline, or the length if there is none. */
  function FirstNewline(s: Bytes): (n: nat)
    ensures n <= |s| && forall i | 0 <= i < n :: s[i] != NEWLINE
    ensures n < |s| ==> s[n] == NEWLINE
  {
    if s == [] || s[0] == NEWLINE then 0 else 1 + FirstNewline(s[1..])
  }

  function Trimmed(file: Bytes, maxBytes: int): Bytes {
    if maxBytes <= 0 || |file| <= maxBytes then file
    else
      var raw := file[|file| - maxBytes..];
      var n := FirstNewline(raw);
      if n < |raw| then raw[n + 1..] else raw
  }

  /**
   * The length of the line separator that `splitlines` finds at the start of a text in UTF-8, 0 if there is none:
   * the ASCII ones (line feed, vertical tab, form feed, carriage return, three information separators, and carriage
   * return with line feed), U+0085, U+2028 and U+2029.
   */
  function SeparatorLength(s: Bytes): (n: nat)
    ensures n <= |s| && n <= 3
  {
    if |s| >= 2 && s[0] == 13 && s[1] == 10 then 2
    else if s != [] && (10 <= s[0] <= 13 || 28 <= s[0] <= 30) then 1
    else if |s| >= 2 && s[0] == 0xC2 && s[1] == 0x85 then 2
    else if |s| >= 3 && s[0] == 0xE2 && s[1] == 0x80 && (s[2] == 0xA8 || s[2] == 0xA9) then 3
    else 0
  }

  function FirstSeparator(s: Bytes): (n: nat)
    ensures n <= |s|
    ensures n < |s| ==> SeparatorLength(s[n..]) > 0
  {
    if s == [] || SeparatorLength(s) > 0 then 0
    else
      var n := FirstSeparator(s[1..]);
      assert n < |s| - 1 ==> s[1..][n..] == s[n + 1..];
      n + 1
  }

  /** A text that `splitlines` does not cut. */
  predicate IsWhole(s: Bytes) {
    FirstSeparator(s) == |s|
  }

  /** What stands behind the first separator. */
  function Behind(s: Bytes): (rest: Bytes)
    ensures s != [] ==> |rest| < |s|
  {
    var n := FirstSeparator(s);
    if n < |s| then s[n + SeparatorLength(s[n..])..] else []
  }

  /** What `splitlines` cuts a text into. */
  function Split(s: Bytes): seq<Bytes>
    decreases |s|
  {
    if s == [] then [] else [s[..FirstSeparator(s)]] + Split(Behind(s))
  }

  /** One parsed record: its signature, stripped, and the line it came from. */
  datatype Rec = Rec(sig: string, line: Bytes)

  /** The records of a text: the lines the JSON parser (a parameter) accepts, in order. */
  function Parsed(lines: seq<Bytes>, parse: Bytes -> Option<string>): seq<Rec> {
    if lines == [] then []
    else
      var front, sig := Parsed(lines[..|lines| - 1], parse), parse(lines[|lines| - 1]);
      if sig.Some? then front + [Rec(sig.value, lines[|lines| - 1])] else front
  }

  function LastRecs(recs: seq<Rec>, n: int): seq<Rec> {
    if n <= 0 then [] else if |recs| <= n then recs else recs[|recs| - n..]
  }

  function TailRecords(file: Bytes, maxBytes: int, maxRecords: int, parse: Bytes -> Option<string>): seq<Rec> {
    if maxBytes <= 0 || maxRecords <= 0 then []
    else
      var tail := file[|file| - Min(maxBytes, |file|)..];
      LastRecs(Parsed(Split(tail), parse), maxRecords)
  }

  // ---- The digest --------------------------------------------------------------------------------

  function Sigs(recs: seq<Rec>): (s: seq<string>)
    ensures |s| == |recs| && forall i | 0 <= i < |recs| :: s[i] == recs[i].sig
  {
    seq(|recs|, i requires 0 <= i < |recs| => recs[i].sig)
  }

  function Named(recs: seq<Rec>): (named: seq<string>)
    ensures forall r | r in recs && r.sig != "" :: r.sig in named
  {
    if recs == [] then []
    else if recs[0].sig == "" then Named(recs[1..])
    else [recs[0].sig] + Named(recs[1..])
  }

  function Reverse(s: seq<string>): (r: seq<string>)
    ensures |r| == |s| && forall x :: x in r <==> x in s
  {
    if s == [] then [] else Reverse(s[1..]) + [s[0]]
  }

  function Take(s: seq<string>, n: int): seq<string> {
    if n <= 0 then [] else if |s| <= n then s else s[..n]
  }

  /** No record after position `i` has the signature of the one at `i`. */
  predicate IsNewest(recs: seq<Rec>, i: nat)
    requires i < |recs|
  {
    forall j | i < j < |recs| :: recs[j].sig != recs[i].sig
  }

  predicate IsNewestRecord(recs: seq<Rec>, r: Rec) {
    exists i | 0 <= i < |recs| :: recs[i] == r && IsNewest(recs, i)
  }

  /** All signatures of a log, the one that occurred most recently first. */
  function RecentFirst(recs: seq<Rec>): seq<string> {
    Reverse(Latest(Named(recs)))
  }

  lemma NamedMembers(recs: seq<Rec>, sig: string)
    ensures sig in Named(recs) <==> sig != "" && exists i | 0 <= i < |recs| :: recs[i].sig == sig
  {
    if recs != [] {
      NamedMembers(recs[1..], sig);
      if sig in Named(recs[1..]) {
        var i :| 0 <= i < |recs| - 1 && recs[1..][i].sig == sig;
        assert recs[i + 1].sig == sig;
      }
      assert forall i | 0 < i < |recs| :: recs[i] == recs[1..][i - 1];
    }
  }

  /** Going one record further back adds its signature at the end, unless it has none or was met already. */
  lemma RecentFirstOneBack(recs: seq<Rec>)
    requires recs != []
    ensures RecentFirst(recs)
         == if recs[0].sig == "" || recs[0].sig in Named(recs[1..]) then RecentFirst(recs[1..])
            else RecentFirst(recs[1..]) + [recs[0].sig]
  {
    if recs[0].sig != "" {
      assert Named(recs)[1..] == Named(recs[1..]);
      if recs[0].sig !in Named(recs[1..]) {
        assert Latest(Named(recs))[1..] == Latest(Named(recs[1..]));
      }
    }
  }

  lemma {:induction false} RecentFirstPrefix(recs: seq<Rec>, i: nat)
    requires i <= |recs|
    ensures RecentFirst(recs[i..]) <= RecentFirst(recs)
  {
    if i == 0 {
      assert recs[0..] == recs;
    } else {
      assert recs[i - 1..][1..] == recs[i..];
      RecentFirstOneBack(recs[i - 1..]);
      RecentFirstPrefix(recs, i - 1);
    }
  }

  /** The list part of the digest: the newest record of each signature, newest signature first. */
  method RenderDigest(recs: seq<Rec>, maxGroups: int) returns (shown: seq<Rec>)
    ensures Sigs(shown) == Take(RecentFirst(recs), maxGroups)
    ensures forall r | r in shown :: IsNewestRecord(recs, r)
  {
    hide RecentFirst, IsNewestRecord;
    shown := [];
    var seen: set<string> := {};
    var groups := 0;
    var i := |recs|;
    NothingBehind(recs);
    while i > 0
      invariant 0 <= i <= |recs|
      invariant forall s :: s in seen <==> s in Named(recs[i..])
      invariant groups == |shown| && (groups <= maxGroups || groups == 0)
      invariant Sigs(shown) == RecentFirst(recs[i..])
      invariant forall r | r in shown :: IsNewestRecord(recs, r)
    {
      i := i - 1;
      var rec := recs[i];
      assert recs[i..][1..] == recs[i + 1..] && recs[i..][0] == rec;
      RecentFirstOneBack(recs[i..]);
      if rec.sig == "" || rec.sig in seen {
        continue;
      }
      seen := seen + {rec.sig};
      groups := groups + 1;
      if groups > maxGroups {
        RecentFirstPrefix(recs, i);
        return;
      }
      FirstMetIsNewest(recs, i);
      assert Sigs(shown + [rec]) == Sigs(shown) + [rec.sig];
      shown := shown + [rec];
    }
    assert recs[0..] == recs;
  }

  lemma NothingBehind(recs: seq<Rec>)
    ensures RecentFirst(recs[|recs|..]) == []
  {
  }

  lemma FirstMetIsNewest(recs: seq<Rec>, i: nat)
    requires i < |recs| && recs[i].sig != "" && recs[i].sig !in Named(recs[i + 1..])
    ensures IsNewestRecord(recs, recs[i])
  {
    assert forall j | i < j < |recs| :: recs[j] == recs[i + 1..][j - i - 1];
    assert IsNewest(recs, i);
  }

  /** The position of the last record with this signature, counted from 1; 0 if there is none. */
  function LastAt(recs: seq<Rec>, sig: string): (n: nat)
    ensures n <= |recs| && (n > 0 ==> recs[n - 1].sig == sig)
    ensures forall i | n <= i < |recs| :: recs[i].sig != sig
  {
    if recs == [] then 0
    else if recs[|recs| - 1].sig == sig then |recs|
    else LastAt(recs[..|recs| - 1], sig)
  }

  /** These signatures have records, and the one with the newer last record stands first. */
  predicate ByLastRecord(recs: seq<Rec>, s: seq<string>) {
    && (forall i | 0 <= i < |s| :: LastAt(recs, s[i]) > 0)
    && (forall i, j | 0 <= i < j < |s| :: LastAt(recs, s[i]) > LastAt(recs, s[j]))
  }

  lemma ByLastRecordOneBack(recs: seq<Rec>, s: seq<string>)
    requires recs != [] && ByLastRecord(recs[1..], s)
    ensures ByLastRecord(recs, s)
    ensures recs[0].sig !in s && LastAt(recs[1..], recs[0].sig) == 0 ==> ByLastRecord(recs, s + [recs[0].sig])
  {
    forall i | 0 <= i < |s|
      ensures LastAt(recs, s[i]) == LastAt(recs[1..], s[i]) + 1
    {
      LastAtOneBack(recs, s[i]);
    }
    LastAtOneBack(recs, recs[0].sig);
    hide LastAt;
  }

  /** In the list of signatures the one with the newer last record stands first, and each with a record is there. */
  lemma {:induction false} RecentFirstIsByLastRecord(recs: seq<Rec>)
    ensures ByLastRecord(recs, RecentFirst(recs))
    ensures forall sig: string :: sig in RecentFirst(recs) <==> sig != "" && LastAt(recs, sig) > 0
  {
    if recs != [] {
      hide RecentFirst, LastAt, Named, ByLastRecord;
      var rest := recs[1..];
      RecentFirstIsByLastRecord(rest);
      RecentFirstOneBack(recs);
      FirstIsMember(recs);
      ByLastRecordOneBack(recs, RecentFirst(rest));
      forall sig: string
        ensures sig in RecentFirst(recs) <==> sig != "" && LastAt(recs, sig) > 0
      {
        LastAtOneBack(recs, sig);
      }
    }
  }

  lemma FirstIsMember(recs: seq<Rec>)
    requires recs != []
    ensures recs[0].sig in Named(recs[1..]) <==> recs[0].sig in RecentFirst(recs[1..])
  {
    hide Named;
  }

  lemma LastAtOneBack(recs: seq<Rec>, sig: string)
    requires recs != []
    ensures LastAt(recs, sig)
         == if LastAt(recs[1..], sig) > 0 then LastAt(recs[1..], sig) + 1 else if recs[0].sig == sig then 1 else 0
  {
    var n, m := LastAt(recs, sig), LastAt(recs[1..], sig);
    assert forall i | 1 <= i < |recs| :: recs[i] == recs[1..][i - 1];
  }

  // ---- The file ----------------------------------------------------------------------------------

  class MemoryFile {
    var bytes: Bytes
    var shown: seq<Rec>

    constructor ()
      ensures bytes == []
    {
      bytes, shown := [], [];
    }

    method TrimByBytes(maxBytes: int)
      modifies this`bytes
      ensures bytes == Trimmed(old(bytes), maxBytes)
    {
      hide FirstNewline;
      var size := |bytes|;
      if maxBytes > 0 && size > maxBytes {
        var raw := bytes[size - maxBytes..];
        var nl := FindNewline(raw);
        bytes := if nl >= 0 then raw[nl + 1..] else raw;
      }
    }

    method UpdateGlobalMemory(line: Bytes, digestMaxRecords: int, maxBytes: int, parse: Bytes -> Option<string>)
      modifies this
      ensures bytes == Trimmed(old(bytes) + (line + [NEWLINE]), maxBytes)
      ensures var tailBytes := Max(200_000, if maxBytes > 0 then maxBytes else 2_000_000);
              var recs := TailRecords(bytes, tailBytes, digestMaxRecords, parse);
              && Sigs(shown) == Take(RecentFirst(recs), Min(80, if digestMaxRecords > 0 then digestMaxRecords else 50))
              && forall r | r in shown :: IsNewestRecord(recs, r)
    {
      bytes := bytes + (line + [NEWLINE]);
      TrimByBytes(maxBytes);
      var tailBytes := if maxBytes > 0 then maxBytes else 2_000_000;
      var recs := TailRecords(bytes, Max(200_000, tailBytes), digestMaxRecords, parse);
      shown := RenderDigest(recs, Min(80, if digestMaxRecords > 0 then digestMaxRecords else 50));
    }
  }

  method FindNewline(raw: Bytes) returns (nl: int)
    ensures nl == if FirstNewline(raw) < |raw| then FirstNewline(raw) else -1
  {
    nl := 0;
    assert raw[0..] == raw;
    while nl < |raw| && raw[nl] != NEWLINE
      invariant 0 <= nl <= |raw| && FirstNewline(raw) == nl + FirstNewline(raw[nl..])
    {
      assert raw[nl..][1..] == raw[nl + 1..];
      nl := nl + 1;
    }
    if nl == |raw| {
      nl := -1;
    }
  }

  // ---- Whole lines survive -------------------------------------------------------------------------

  /** How many lines at the end fit, newlines included, within the budget. */
  function FitCount(lines: seq<Bytes>, budget: int): (n: nat)
    ensures n <= |lines|
  {
    if lines == [] || |lines[|lines| - 1]| + 1 > budget then 0
    else FitCount(lines[..|lines| - 1], budget - |lines[|lines| - 1]| - 1) + 1
  }

  /** The longest run of lines at the end whose total size is within the budget. */
  function Fitting(lines: seq<Bytes>, budget: int): (kept: seq<Bytes>)
    ensures IsSuffix(kept, lines)
  {
    lines[|lines| - FitCount(lines, budget)..]
  }

  predicate IsSuffix(s: seq<Bytes>, of_: seq<Bytes>) {
    |s| <= |of_| && s == of_[|of_| - |s|..]
  }

  lemma {:induction false} JoinConcat(a: seq<Bytes>, b: seq<Bytes>)
    ensures Join(a + b) == Join(a) + Join(b)
  {
    if b == [] {
      assert a + b == a;
    } else {
      assert (a + b)[..|a + b| - 1] == a + b[..|b| - 1];
      JoinConcat(a, b[..|b| - 1]);
    }
  }

  /** The last `n` lines are within the budget, and with the line before them they would not be. */
  predicate Maximal(lines: seq<Bytes>, n: nat, budget: int)
    requires n <= |lines|
  {
    var size := |Join(lines[|lines| - n..])|;
    size <= budget && (n < |lines| ==> |lines[|lines| - n - 1]| + 1 + size > budget)
  }

  lemma {:induction false} FittingIsMaximal(lines: seq<Bytes>, budget: int)
    requires budget >= 0
    ensures Maximal(lines, FitCount(lines, budget), budget)
  {
    if lines == [] || |lines[|lines| - 1]| + 1 > budget {
      assert lines[|lines|..] == [];
    } else {
      hide Join, Maximal;
      var front, last := lines[..|lines| - 1], lines[|lines| - 1];
      assert FitCount(lines, budget) == FitCount(front, budget - |last| - 1) + 1;
      hide FitCount;
      FittingIsMaximal(front, budget - |last| - 1);
      MaximalOneMore(front, FitCount(front, budget - |last| - 1), last, budget);
      assert front + [last] == lines;
    }
  }

  lemma MaximalOneMore(front: seq<Bytes>, n: nat, last: Bytes, budget: int)
    requires n <= |front| && Maximal(front, n, budget - |last| - 1)
    ensures Maximal(front + [last], n + 1, budget)
  {
    var lines := front + [last];
    assert lines[|lines| - n - 1..] == front[|front| - n..] + [last];
    JoinOne(front[|front| - n..], last);
  }

  lemma JoinOne(lines: seq<Bytes>, line: Bytes)
    ensures Join(lines + [line]) == Join(lines) + (line + [NEWLINE])
  {
    assert (lines + [line])[..|lines|] == lines;
  }

  lemma FirstNewlineAt(s: Bytes, n: nat)
    requires n < |s| && s[n] == NEWLINE && forall i | 0 <= i < n :: s[i] != NEWLINE
    ensures FirstNewline(s) == n
  {
    var m := FirstNewline(s);
    assert m <= n;
  }

  /** A cut inside the last line of `head`, or right before it, drops exactly the rest of `head`. */
  lemma CutInsideLine(head: Bytes, line: Bytes, rest: Bytes, maxBytes: int)
    requires IsLine(line) && |rest| < maxBytes <= |line| + 1 + |rest|
    requires |head| + |line| + 1 + |rest| > maxBytes
    ensures Trimmed(head + (line + [NEWLINE]) + rest, maxBytes) == rest
  {
    var file := head + (line + [NEWLINE]) + rest;
    var raw := file[|file| - maxBytes..];
    var t := |line| + 1 + |rest| - maxBytes;
    assert raw == line[t..] + [NEWLINE] + rest;
    FirstNewlineAt(raw, |line| - t);
  }

  /**
   * Trimming a file of whole lines keeps whole lines: everything if it fits, and otherwise the longest run of lines at
   * the end that is strictly smaller than the limit.
   */
  lemma TrimKeepsWholeLines(lines: seq<Bytes>, maxBytes: int)
    requires AreLines(lines) && maxBytes > 0
    ensures Trimmed(Join(lines), maxBytes)
         == Join(if |Join(lines)| <= maxBytes then lines else Fitting(lines, maxBytes - 1))
  {
    hide Join, Trimmed, FitCount;
    if |Join(lines)| > maxBytes {
      var kept := Fitting(lines, maxBytes - 1);
      var n := |lines| - |kept|;
      FittingIsMaximal(lines, maxBytes - 1);
      assert lines == lines[..n] + kept;
      JoinConcat(lines[..n], kept);
      assert n > 0;
      assert lines[..n] == lines[..n - 1] + [lines[n - 1]];
      JoinOne(lines[..n - 1], lines[n - 1]);
      CutInsideLine(Join(lines[..n - 1]), lines[n - 1], Join(kept), maxBytes);
    } else {
      TrimNothing(Join(lines), maxBytes);
    }
  }

  lemma TrimNothing(file: Bytes, maxBytes: int)
    requires maxBytes <= 0 || |file| <= maxBytes
    ensures Trimmed(file, maxBytes) == file
  {
  }

  // ---- Runs --------------------------------------------------------------------------------------

  /** One update of the log: the line it appends and the limit it trims to. */
  datatype Append = Append(line: Bytes, maxBytes: int)

  function FileAfter(run: seq<Append>): Bytes {
    if run == [] then []
    else Trimmed(FileAfter(run[..|run| - 1]) + (run[|run| - 1].line + [NEWLINE]), run[|run| - 1].maxBytes)
  }

  function Appended(run: seq<Append>): (lines: seq<Bytes>)
    ensures |lines| == |run| && forall i | 0 <= i < |run| :: lines[i] == run[i].line
  {
    seq(|run|, i requires 0 <= i < |run| => run[i].line)
  }

  /** What one trim leaves of a file of lines. */
  function KeptLines(lines: seq<Bytes>, maxBytes: int): seq<Bytes> {
    if maxBytes <= 0 || |Join(lines)| <= maxBytes then lines else Fitting(lines, maxBytes - 1)
  }

  lemma TrimKeepsSuffix(lines: seq<Bytes>, of_: seq<Bytes>, maxBytes: int)
    requires AreLines(lines) && IsSuffix(lines, of_)
    ensures var kept := KeptLines(lines, maxBytes);
            && Trimmed(Join(lines), maxBytes) == Join(kept)
            && IsSuffix(kept, of_) && AreLines(kept)
            && (maxBytes > 0 ==> |Join(kept)| <= maxBytes)
  {
    hide Join, Trimmed, FitCount;
    if maxBytes > 0 {
      TrimKeepsWholeLines(lines, maxBytes);
      FittingIsMaximal(lines, maxBytes - 1);
      SuffixOfSuffix(Fitting(lines, maxBytes - 1), lines, of_);
    } else {
      TrimNothing(Join(lines), maxBytes);
    }
  }

  /** The lines that survive a run, computed on whole lines. */
  function Surviving(run: seq<Append>): seq<Bytes> {
    if run == [] then []
    else
      var a := run[|run| - 1];
      KeptLines(Surviving(run[..|run| - 1]) + [a.line], a.maxBytes)
  }

  predicate LineRun(run: seq<Append>) {
    forall i | 0 <= i < |run| :: IsLine(run[i].line)
  }

  lemma SuffixOneMore(s: seq<Bytes>, of_: seq<Bytes>, line: Bytes)
    requires IsSuffix(s, of_) && AreLines(s) && IsLine(line)
    ensures IsSuffix(s + [line], of_ + [line]) && AreLines(s + [line])
  {
  }

  lemma SuffixOfSuffix(r: seq<Bytes>, s: seq<Bytes>, of_: seq<Bytes>)
    requires IsSuffix(r, s) && IsSuffix(s, of_) && AreLines(s)
    ensures IsSuffix(r, of_) && AreLines(r)
  {
  }

  lemma AppendedOneMore(run: seq<Append>)
    requires run != []
    ensures Appended(run) == Appended(run[..|run| - 1]) + [run[|run| - 1].line]
  {
  }

  /**
   * After any sequence of appends, each trimmed to its own limit: the file is a run of whole lines at the end of
   * everything ever appended, no larger than the last limit if that is positive.
   */
  lemma {:induction false} LogIsSuffixOfHistory(run: seq<Append>)
    requires LineRun(run)
    ensures FileAfter(run) == Join(Surviving(run))
    ensures IsSuffix(Surviving(run), Appended(run)) && AreLines(Surviving(run))
    ensures run != [] && run[|run| - 1].maxBytes > 0 ==> |FileAfter(run)| <= run[|run| - 1].maxBytes
  {
    if run != [] {
      hide Join, Trimmed, KeptLines, IsSuffix, AreLines, Appended;
      var front, a := run[..|run| - 1], run[|run| - 1];
      LogIsSuffixOfHistory(front);
      JoinOne(Surviving(front), a.line);
      AppendedOneMore(run);
      SuffixOneMore(Surviving(front), Appended(front), a.line);
      TrimKeepsSuffix(Surviving(front) + [a.line], Appended(run), a.maxBytes);
    }
  }

  /** When an update trims, the line it appended survives if and only if, with its newline, it is below the limit. */
  lemma NewestLineSurvivesIff(run: seq<Append>, a: Append)
    requires LineRun(run) && IsLine(a.line) && a.maxBytes > 0
    requires |FileAfter(run)| + |a.line| + 1 > a.maxBytes
    ensures var kept := Surviving(run + [a]);
            if |a.line| + 1 < a.maxBytes then kept != [] && kept[|kept| - 1] == a.line else kept == []
  {
    assert (run + [a])[..|run|] == run;
    LogIsSuffixOfHistory(run);
    JoinOne(Surviving(run), a.line);
    assert (Surviving(run) + [a.line])[..|Surviving(run)|] == Surviving(run);
  }

  // ---- Reading the lines back ----------------------------------------------------------------------

  /** What the tail read makes of one line of the file. */
  function Pieces(line: Bytes): seq<Bytes> {
    Split(line + [NEWLINE])
  }

  function AllPieces(lines: seq<Bytes>): seq<Bytes> {
    if lines == [] then [] else Pieces(lines[0]) + AllPieces(lines[1..])
  }

  /** A text that ends in a newline is searched for its first separator without looking beyond its end. */
  lemma SeparatorInFront(s: Bytes, rest: Bytes)
    requires s != [] && s[|s| - 1] == NEWLINE
    ensures SeparatorLength(s + rest) == SeparatorLength(s)
  {
  }

  lemma {:induction false} FirstSeparatorInFront(s: Bytes, rest: Bytes)
    requires s != [] && s[|s| - 1] == NEWLINE
    ensures FirstSeparator(s) < |s|
    ensures FirstSeparator(s + rest) == FirstSeparator(s)
  {
    SeparatorInFront(s, rest);
    if SeparatorLength(s) == 0 {
      assert |s| > 1 && (s + rest)[1..] == s[1..] + rest;
      hide SeparatorLength;
      FirstSeparatorInFront(s[1..], rest);
    }
  }

  lemma DropInFront(s: Bytes, rest: Bytes, n: nat)
    requires n <= |s|
    ensures (s + rest)[n..] == s[n..] + rest
    ensures s[n..] != [] ==> s[n..][|s[n..]| - 1] == s[|s| - 1]
  {
  }

  lemma BehindIs(s: Bytes, n: nat, m: nat)
    requires n < |s| && FirstSeparator(s) == n && SeparatorLength(s[n..]) == m
    ensures n + m <= |s| && Behind(s) == s[n + m..]
  {
  }

  lemma BehindInFront(s: Bytes, rest: Bytes)
    requires s != [] && s[|s| - 1] == NEWLINE
    ensures FirstSeparator(s) < |s| && FirstSeparator(s + rest) == FirstSeparator(s)
    ensures Behind(s + rest) == Behind(s) + rest
    ensures Behind(s) != [] ==> Behind(s)[|Behind(s)| - 1] == NEWLINE
  {
    hide SeparatorLength, FirstSeparator, Behind;
    FirstSeparatorInFront(s, rest);
    var n := FirstSeparator(s);
    var m := SeparatorLength(s[n..]);
    DropInFront(s, rest, n);
    SeparatorInFront(s[n..], rest);
    BehindIs(s, n, m);
    BehindIs(s + rest, n, m);
    DropInFront(s, rest, n + m);
  }

  lemma {:induction false} SplitInFront(s: Bytes, rest: Bytes)
    requires s != [] ==> s[|s| - 1] == NEWLINE
    ensures Split(s + rest) == Split(s) + Split(rest)
    decreases |s|
  {
    hide Behind, FirstSeparator;
    if s == [] {
      assert s + rest == rest;
    } else {
      BehindInFront(s, rest);
      var n := FirstSeparator(s);
      assert (s + rest)[..n] == s[..n];
      SplitInFront(Behind(s), rest);
    }
  }

  lemma {:induction false} SplitJoin(lines: seq<Bytes>)
    ensures Split(Join(lines)) == AllPieces(lines)
  {
    if lines != [] {
      var first, rest := lines[0], lines[1..];
      assert lines == [first] + rest;
      JoinConcat([first], rest);
      assert Join([first]) == first + [NEWLINE];
      SplitInFront(first + [NEWLINE], Join(rest));
      SplitJoin(rest);
    }
  }

  /** A text without separators does not hide the one that follows it. */
  lemma {:induction false} WholeBefore(s: Bytes, rest: Bytes)
    requires IsWhole(s) && SeparatorLength(rest) > 0
    ensures FirstSeparator(s + rest) == |s|
  {
    if s == [] {
      assert s + rest == rest;
    } else {
      assert IsWhole(s[1..]) && SeparatorLength(s) == 0;
      assert SeparatorLength(s + rest) == 0;
      assert (s + rest)[1..] == s[1..] + rest;
      hide SeparatorLength;
      WholeBefore(s[1..], rest);
    }
  }

  /** Before the first separator there is none. */
  lemma {:induction false} FirstPieceIsWhole(s: Bytes)
    ensures IsWhole(s[..FirstSeparator(s)])
  {
    var n := FirstSeparator(s);
    if n > 0 {
      FirstPieceIsWhole(s[1..]);
      assert s[..n][1..] == s[1..][..n - 1];
      assert SeparatorLength(s[..n]) == 0;
    }
  }

  lemma {:induction false} SplitIsWhole(s: Bytes)
    ensures forall piece | piece in Split(s) :: IsWhole(piece)
    decreases |s|
  {
    if s != [] {
      FirstPieceIsWhole(s);
      hide FirstSeparator, Behind;
      SplitIsWhole(Behind(s));
    }
  }

  /** A text cut at a separator that nothing before it hides. */
  lemma SplitAround(a: Bytes, sep: Bytes, rest: Bytes)
    requires IsWhole(a) && sep != []
    requires SeparatorLength(sep + rest) == |sep|
    ensures Split(a + sep + rest) == [a] + Split(rest)
  {
    var s := a + (sep + rest);
    assert s == a + sep + rest;
    WholeBefore(a, sep + rest);
    hide SeparatorLength, FirstSeparator;
    assert s[|a|..] == sep + rest && s[..|a|] == a;
    assert s[|a| + |sep|..] == rest;
  }

  /** A line is read back as it was written if and only if it holds no separator. */
  lemma PiecesOfWhole(line: Bytes)
    ensures Pieces(line) == [line] <==> IsWhole(line)
  {
    if IsWhole(line) {
      assert [NEWLINE] + [] == [NEWLINE] && line + [NEWLINE] + [] == line + [NEWLINE];
      SplitAround(line, [NEWLINE], []);
    } else {
      SplitIsWhole(line + [NEWLINE]);
      assert line !in Pieces(line);
    }
  }

  lemma {:induction false} PiecesMembers(lines: seq<Bytes>, line: Bytes)
    requires line in lines
    ensures line in AllPieces(lines) <==> IsWhole(line)
  {
    AllPiecesAreWhole(lines);
    PiecesOfWhole(line);
    if line == lines[0] {
      assert IsWhole(line) ==> line in Pieces(lines[0]);
    } else {
      PiecesMembers(lines[1..], line);
    }
  }

  lemma {:induction false} AllPiecesAreWhole(lines: seq<Bytes>)
    ensures forall piece | piece in AllPieces(lines) :: IsWhole(piece)
  {
    if lines != [] {
      SplitIsWhole(lines[0] + [NEWLINE]);
      AllPiecesAreWhole(lines[1..]);
    }
  }

  /** One of the ASCII separators, U+0085, U+2028 or U+2029 stands here. */
  predicate SeparatorAt(s: Bytes, i: nat)
    requires i < |s|
  {
    || 10 <= s[i] <= 13 || 28 <= s[i] <= 30
    || (i + 1 < |s| && s[i] == 0xC2 && s[i + 1] == 0x85)
    || (i + 2 < |s| && s[i] == 0xE2 && s[i + 1] == 0x80 && s[i + 2] in {0xA8, 0xA9})
  }

  lemma WholeOneMore(s: Bytes)
    requires s != []
    ensures IsWhole(s) <==> IsWhole(s[1..]) && !SeparatorAt(s, 0)
    ensures forall i | 0 <= i < |s| - 1 :: SeparatorAt(s[1..], i) == SeparatorAt(s, i + 1)
  {
  }

  /** A text is left whole exactly if no separator stands anywhere in it. */
  lemma {:induction false} IsWholeIff(s: Bytes)
    ensures IsWhole(s) <==> forall i | 0 <= i < |s| :: !SeparatorAt(s, i)
  {
    if s != [] {
      hide IsWhole, SeparatorAt;
      WholeOneMore(s);
      IsWholeIff(s[1..]);
      if IsWhole(s[1..]) {
        forall i | 0 < i < |s|
          ensures !SeparatorAt(s, i)
        {
          assert !SeparatorAt(s[1..], i - 1);
        }
      }
    }
  }

  /** Records come in the order of their lines, one for each line that parses. */
  lemma {:induction false} ParsedConcat(a: seq<Bytes>, b: seq<Bytes>, parse: Bytes -> Option<string>)
    ensures Parsed(a + b, parse) == Parsed(a, parse) + Parsed(b, parse)
    ensures |b| == 1 ==> Parsed(b, parse) == if parse(b[0]).Some? then [Rec(parse(b[0]).value, b[0])] else []
  {
    if b == [] {
      assert a + b == a;
    } else {
      assert (a + b)[..|a + b| - 1] == a + b[..|b| - 1];
      ParsedConcat(a, b[..|b| - 1], parse);
    }
  }

  predicate HasRecord(recs: seq<Rec>, line: Bytes) {
    exists i | 0 <= i < |recs| :: recs[i].line == line
  }

  lemma {:induction false} ParsedMembers(lines: seq<Bytes>, parse: Bytes -> Option<string>, line: Bytes)
    ensures HasRecord(Parsed(lines, parse), line) <==> line in lines && parse(line).Some?
  {
    if lines != [] {
      var front, last := lines[..|lines| - 1], lines[|lines| - 1];
      ParsedMembers(front, parse, line);
      assert lines == front + [last];
      var recs := Parsed(front, parse);
      if parse(last).Some? {
        assert (recs + [Rec(parse(last).value, last)])[|recs|].line == last;
        assert forall i | 0 <= i < |recs| :: (recs + [Rec(parse(last).value, last)])[i] == recs[i];
      }
    }
  }

  /**
   * So with a positive limit the digest is made from the last records that parse among the pieces of the surviving
   * lines, with nothing cut off by the bounded read; and a surviving line has a record among them if and only if it
   * parses and holds no separator.
   */
  lemma DigestSeesSurvivingLines(run: seq<Append>, maxRecords: int, parse: Bytes -> Option<string>)
    requires LineRun(run) && run != [] && run[|run| - 1].maxBytes > 0
    ensures TailRecords(FileAfter(run), Max(200_000, run[|run| - 1].maxBytes), maxRecords, parse)
         == Newest(Parsed(AllPieces(Surviving(run)), parse), maxRecords)
    ensures forall line | line in Surviving(run) ::
              HasRecord(Parsed(AllPieces(Surviving(run)), parse), line) <==> IsWhole(line) && parse(line).Some?
  {
    hide Surviving, AllPieces, Parsed, Split, IsWhole, HasRecord, TailRecords, LastRecs, Newest, IsSuffix;
    LogIsSuffixOfHistory(run);
    SplitJoin(Surviving(run));
    TailOfSmallFile(FileAfter(run), Max(200_000, run[|run| - 1].maxBytes), maxRecords, parse);
    LastRecsAreNewest(Parsed(AllPieces(Surviving(run)), parse), maxRecords);
    forall line | line in Surviving(run)
      ensures HasRecord(Parsed(AllPieces(Surviving(run)), parse), line) <==> IsWhole(line) && parse(line).Some?
    {
      PiecesMembers(Surviving(run), line);
      ParsedMembers(AllPieces(Surviving(run)), parse, line);
    }
  }

  /** The last `n` elements, or as many as there are. */
  function Newest(recs: seq<Rec>, n: int): (r: seq<Rec>)
    ensures |r| == Max(0, Min(n, |recs|))
    ensures r == recs[|recs| - |r|..]
  {
    recs[|recs| - Max(0, Min(n, |recs|))..]
  }

  lemma LastRecsAreNewest(recs: seq<Rec>, n: int)
    ensures LastRecs(recs, n) == Newest(recs, n)
  {
  }

  const LINE_SEPARATOR: Bytes := [0xE2, 0x80, 0xA8]

  /**
   * A record that holds U+2028 between two texts that do not parse by themselves is written, survives, and leaves no
   * trace in the digest, although it would parse.
   */
  lemma SeparatedRecordIsLost(a: Bytes, b: Bytes, maxBytes: int, maxRecords: int, parse: Bytes -> Option<string>)
    requires IsWhole(a) && IsWhole(b) && parse(a).None? && parse(b).None?
    requires maxBytes > |a| + |b| + 4
    ensures var line := a + LINE_SEPARATOR + b;
            var run := [Append(line, maxBytes)];
            && IsLine(line)
            && Surviving(run) == [line]
            && TailRecords(FileAfter(run), Max(200_000, maxBytes), maxRecords, parse) == []
  {
    hide IsWhole, IsLine, Split, TailRecords, FileAfter, Max, Newest, AllPieces, Parsed, Surviving, HasRecord;
    var line := a + LINE_SEPARATOR + b;
    var run := [Append(line, maxBytes)];
    SeparatedIsLine(a, b);
    OneLineSurvives(line, maxBytes);
    DigestSeesSurvivingLines(run, maxRecords, parse);
    NoRecordOfPieces(a, b, parse);
    NewestOfNothing(maxRecords);
  }

  lemma SeparatedIsLine(a: Bytes, b: Bytes)
    requires IsWhole(a) && IsWhole(b)
    ensures IsLine(a + LINE_SEPARATOR + b)
  {
    WholeIsLine(a);
    WholeIsLine(b);
  }

  lemma NoRecordOfPieces(a: Bytes, b: Bytes, parse: Bytes -> Option<string>)
    requires IsWhole(a) && IsWhole(b) && parse(a).None? && parse(b).None?
    ensures Parsed(AllPieces([a + LINE_SEPARATOR + b]), parse) == []
  {
    hide IsWhole, Pieces;
    var line := a + LINE_SEPARATOR + b;
    PiecesAround(a, b);
    assert AllPieces([line]) == Pieces(line) == [a, b];
    assert [a] + [b] == [a, b];
    ParsedConcat([a], [b], parse);
    ParsedConcat([b], [a], parse);
  }

  lemma NewestOfNothing(n: int)
    ensures Newest([], n) == []
  {
  }

  lemma OneLineSurvives(line: Bytes, maxBytes: int)
    requires |line| + 1 <= maxBytes
    ensures Surviving([Append(line, maxBytes)]) == [line]
  {
    var run := [Append(line, maxBytes)];
    assert run[..0] == [] && Surviving([]) + [line] == [line];
    JoinOne([], line);
  }

  lemma {:induction false} WholeIsLine(s: Bytes)
    requires IsWhole(s)
    ensures IsLine(s)
  {
    if s != [] {
      assert IsWhole(s[1..]) && SeparatorLength(s) == 0;
      WholeIsLine(s[1..]);
    }
  }

  lemma PiecesAround(a: Bytes, b: Bytes)
    requires IsWhole(a) && IsWhole(b)
    ensures Pieces(a + LINE_SEPARATOR + b) == [a, b]
  {
    assert a + LINE_SEPARATOR + b + [NEWLINE] == a + LINE_SEPARATOR + (b + [NEWLINE]);
    SplitAround(a, LINE_SEPARATOR, b + [NEWLINE]);
    PiecesOfWhole(b);
  }

  lemma TailOfSmallFile(file: Bytes, maxBytes: int, maxRecords: int, parse: Bytes -> Option<string>)
    requires |file| <= maxBytes && 0 < maxBytes
    ensures TailRecords(file, maxBytes, maxRecords, parse) == LastRecs(Parsed(Split(file), parse), maxRecords)
  {
    assert file[0..] == file;
  }
}
