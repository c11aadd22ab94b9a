/**
 * The persisted limiters for regenerate clicks and page refreshes (`_chatgpt_regenerate_reserve` and
 * `_chatgpt_wait_refresh_reserve` in `chatgpt_web_mcp/_tools_impl.py`). Time is a whole number of microseconds.
 */
module Limiter {
  import opened Wrappers
  import opened Text

  /** One conversation's entry; `lastAt` is 0 and the others `None` when the file does not have them. */
  datatype Entry = Entry(lastAt: int, windowStart: Option<int>, windowCount: Option<int>)

  const NO_ENTRY := Entry(0, None, None)

  type Table = map<string, Entry>

  /** The three settings, in seconds where they are times; the environment readers never return a negative one. */
  datatype Config = Config(minInterval: nat, windowSeconds: nat, maxPerWindow: nat) {
    function Interval(): int { minInterval * SECOND }
    function Window(): int { windowSeconds * SECOND }
    predicate Windowed() { maxPerWindow > 0 && windowSeconds > 0 }
  }

  datatype Variant = Regenerate | WaitRefresh

  datatype Decision = Decision(
    allowed: bool,
    lastAt: Option<int>,
    nextAllowedAt: Option<int>,
    windowCount: Option<int>,
    windowNextAllowedAt: Option<int>)

  const KEEP := 200
  const TOLERATED := 220

  function Aligned(now: int, window: int): int
    requires window > 0
  {
    now - now % window
  }

  function Abs(x: int): int { if x < 0 then -x else x }

  /** The window a call counts against: the stored one while it is within a second of the current one. */
  function ViewOf(e: Entry, c: Config, now: int): (view: (int, int)) {
    if !c.Windowed() then (0, 0)
    else
      var start := e.windowStart.GetOr(0);
      var current := Aligned(now, c.Window());
      if start <= 0 || Abs(start - current) > SECOND then (current, 0) else (start, e.windowCount.GetOr(0))
  }

  predicate IntervalOk(e: Entry, c: Config, now: int) {
    e.lastAt > 0 && c.minInterval > 0 ==> now >= e.lastAt + c.Interval()
  }

  predicate WindowOk(e: Entry, c: Config, now: int) {
    c.Windowed() ==> ViewOf(e, c, now).1 < c.maxPerWindow
  }

  predicate Allows(e: Entry, c: Config, now: int) {
    IntervalOk(e, c, now) && WindowOk(e, c, now)
  }

  function Granted(v: Variant, e: Entry, c: Config, now: int): Entry {
    var (start, count) := ViewOf(e, c, now);
    match v
    case Regenerate =>
      Entry(now, if c.maxPerWindow > 0 && start > 0 then Some(start) else None,
            if c.maxPerWindow > 0 then Some(count + 1) else None)
    case WaitRefresh =>
      if c.Windowed() then Entry(now, Some(if start > 0 then start else Aligned(now, c.Window())), Some(count + 1))
      else e.(lastAt := now)
  }

  function NextAllowedAt(e: Entry, c: Config): Option<int> {
    if e.lastAt > 0 && c.minInterval > 0 then Some(e.lastAt + c.Interval()) else None
  }

  function WindowNextAllowedAt(e: Entry, c: Config, now: int): Option<int> {
    if WindowOk(e, c, now) then None else Some(ViewOf(e, c, now).0 + c.Window())
  }

  function EntryOf(t: Table, cid: string): Entry {
    if cid in t then t[cid] else NO_ENTRY
  }

  /** The most recently granted `KEEP` entries, ties decided either way. */
  predicate KeepsNewest(before: Table, after: Table) {
    && after.Keys <= before.Keys && |after| == KEEP
    && (forall k | k in after :: after[k] == before[k])
    && (forall k, d | k in after && d in before && d !in after :: before[d].lastAt <= before[k].lastAt)
  }

  predicate Compacted(before: Table, after: Table) {
    if |before| > TOLERATED then KeepsNewest(before, after) else after == before
  }

  /** What one reservation may do to the table. */
  predicate Reserves(v: Variant, c: Config, before: Table, cid: string, now: int, after: Table, allowed: bool) {
    && allowed == Allows(EntryOf(before, cid), c, now)
    && if allowed then Compacted(before[cid := Granted(v, EntryOf(before, cid), c, now)], after) else after == before
  }

  const UNLIMITED := Decision(true, None, None, None, None)

  function LastAt(e: Entry): Option<int> {
    if e.lastAt > 0 then Some(e.lastAt) else None
  }

  /** The count a regenerate reports includes the reservation just made; the count a refresh reports does not. */
  predicate RegenerateAnswers(before: Table, cid: string, now: int, c: Config, d: Decision) {
    var e := EntryOf(before, cid);
    d == Decision(Allows(e, c, now), LastAt(e), NextAllowedAt(e, c),
                  if c.maxPerWindow == 0 then None else Some(ViewOf(e, c, now).1 + if Allows(e, c, now) then 1 else 0),
                  WindowNextAllowedAt(e, c, now))
  }

  predicate RefreshAnswers(before: Table, cid: string, now: int, c: Config, d: Decision) {
    var e := EntryOf(before, cid);
    d == Decision(Allows(e, c, now), LastAt(e), NextAllowedAt(e, c),
                  if c.maxPerWindow == 0 then None else Some(ViewOf(e, c, now).1),
                  WindowNextAllowedAt(e, c, now))
  }

  class LimiterFile {
    var convs: Table
    var updatedAt: int

    constructor ()
      ensures convs == map[]
    {
      convs, updatedAt := map[], 0;
    }

    /** `configured` is whether a state file is set; without one, or without a conversation, nothing is limited. */
    method ReserveRegenerate(configured: bool, conversationId: string, now: int, c: Config) returns (d: Decision)
      modifies this
      ensures var cid := Strip(conversationId);
              if !configured || cid == "" then d == UNLIMITED && convs == old(convs)
              else (&& RegenerateAnswers(old(convs), cid, now, c, d) && updatedAt == now
                    && Reserves(Regenerate, c, old(convs), cid, now, convs, d.allowed))
    {
      var cid := Strip(conversationId);
      if !configured || cid == "" {
        return UNLIMITED;
      }
      d := RegenerateFor(cid, now, c);
    }

    method RegenerateFor(cid: string, now: int, c: Config) returns (d: Decision)
      modifies this
      ensures RegenerateAnswers(old(convs), cid, now, c, d) && updatedAt == now
      ensures Reserves(Regenerate, c, old(convs), cid, now, convs, d.allowed)
    {
      hide Compacted, Aligned;
      var entry := if cid in convs then convs[cid] else NO_ENTRY;
      var lastAt := entry.lastAt;
      var nextAllowed := if lastAt > 0 && c.minInterval > 0 then lastAt + c.minInterval * SECOND else 0;
      var allowedByInterval := nextAllowed <= 0 || now >= nextAllowed;
      var windowStart, windowCount, windowNext, allowedByWindow := 0, 0, 0, true;
      if c.maxPerWindow > 0 && c.windowSeconds > 0 {
        windowStart, windowCount := CurrentWindow(entry, now, c);
        allowedByWindow := windowCount < c.maxPerWindow;
        windowNext := if !allowedByWindow then windowStart + c.windowSeconds * SECOND else 0;
      }
      var allowed := allowedByInterval && allowedByWindow;
      assert allowed == Allows(entry, c, now);
      var countAfter := if allowed && c.maxPerWindow > 0 then windowCount + 1 else windowCount;
      d := Decision(allowed, if lastAt > 0 then Some(lastAt) else None,
                    if nextAllowed > 0 then Some(nextAllowed) else None,
                    if c.maxPerWindow > 0 then Some(countAfter) else None,
                    if !allowedByWindow then Some(windowNext) else None);
      if allowed {
        convs := convs[cid := Entry(now, if c.maxPerWindow > 0 && windowStart > 0 then Some(windowStart) else None,
                                    if c.maxPerWindow > 0 then Some(countAfter) else None)];
        Compact();
      }
      updatedAt := now;
    }

    method ReserveRefresh(configured: bool, conversationId: string, now: int, c: Config) returns (d: Decision)
      modifies this
      ensures var cid := Strip(conversationId);
              if !configured || cid == "" then d == UNLIMITED && convs == old(convs)
              else (&& RefreshAnswers(old(convs), cid, now, c, d)
                    && updatedAt == (if d.allowed then now else old(updatedAt))
                    && Reserves(WaitRefresh, c, old(convs), cid, now, convs, d.allowed))
    {
      var cid := Strip(conversationId);
      if !configured || cid == "" {
        return UNLIMITED;
      }
      d := RefreshFor(cid, now, c);
    }

    method RefreshFor(cid: string, now: int, c: Config) returns (d: Decision)
      modifies this
      ensures RefreshAnswers(old(convs), cid, now, c, d) && updatedAt == (if d.allowed then now else old(updatedAt))
      ensures Reserves(WaitRefresh, c, old(convs), cid, now, convs, d.allowed)
    {
      hide Compacted, Aligned;
      var entry := if cid in convs then convs[cid] else NO_ENTRY;
      var lastAt := entry.lastAt;
      var allowedByInterval, nextAllowed := true, None;
      if c.minInterval > 0 && lastAt > 0 {
        nextAllowed := Some(lastAt + c.minInterval * SECOND);
        if now < nextAllowed.value {
          allowedByInterval := false;
        }
      }
      var windowStart, windowCount, allowedByWindow, windowNext := 0, 0, true, None;
      if c.maxPerWindow > 0 && c.windowSeconds > 0 {
        windowStart, windowCount := CurrentWindow(entry, now, c);
        if windowCount >= c.maxPerWindow {
          allowedByWindow := false;
          windowNext := Some(windowStart + c.windowSeconds * SECOND);
        }
      }
      var allowed := allowedByInterval && allowedByWindow;
      assert allowed == Allows(entry, c, now);
      d := Decision(allowed, if lastAt > 0 then Some(lastAt) else None, nextAllowed,
                    if c.maxPerWindow > 0 then Some(windowCount) else None, windowNext);
      if allowed {
        entry := entry.(lastAt := now);
        if c.maxPerWindow > 0 && c.windowSeconds > 0 {
          var start := if windowStart > 0 then windowStart else Aligned(now, c.windowSeconds * SECOND);
          entry := entry.(windowStart := Some(start), windowCount := Some(windowCount + 1));
        }
        convs := convs[cid := entry];
        Compact();
        updatedAt := now;
      }
    }

    method Compact()
      modifies this`convs
      ensures Compacted(old(convs), convs)
    {
      if |convs| > TOLERATED {
        convs := Newest(convs);
      }
    }
  }

  method CurrentWindow(entry: Entry, now: int, c: Config) returns (start: int, count: int)
    requires c.Windowed()
    ensures (start, count) == ViewOf(entry, c, now)
  {
    start, count := entry.windowStart.GetOr(0), entry.windowCount.GetOr(0);
    var current := now - now % (c.windowSeconds * SECOND);
    if start <= 0 || Abs(start - current) > SECOND {
      start, count := current, 0;
    }
  }

  // ---- Compaction --------------------------------------------------------------------------------

  predicate NewestFirst(t: Table, s: seq<string>)
    requires forall k | k in s :: k in t
  {
    forall i, j | 0 <= i < j < |s| :: t[s[i]].lastAt >= t[s[j]].lastAt
  }

  lemma {:induction false} DistinctSize(s: seq<string>)
    requires Distinct(s)
    ensures |set k | k in s| == |s|
  {
    if s != [] {
      var front, last := s[..|s| - 1], s[|s| - 1];
      DistinctSize(front);
      assert (set k | k in s) == (set k | k in front) + {last};
      assert last !in front;
    }
  }

  lemma InsertedMembers(s: seq<string>, k: string, i: nat)
    requires i <= |s|
    ensures forall x :: x in s[..i] + [k] + s[i..] <==> x in s || x == k
  {
    assert s == s[..i] + s[i..];
  }

  lemma InsertedOrder(t: Table, s: seq<string>, k: string, i: nat, r: seq<string>)
    requires k in t && k !in s && i <= |s| && |r| == |s| + 1
    requires (forall x | x in s :: x in t) && (forall x | x in r :: x in t)
    requires Distinct(s) && NewestFirst(t, s)
    requires forall j | 0 <= j < i :: t[s[j]].lastAt >= t[k].lastAt
    requires i < |s| ==> t[s[i]].lastAt <= t[k].lastAt
    requires r[i] == k && (forall j | 0 <= j < i :: r[j] == s[j]) && (forall j | i < j < |r| :: r[j] == s[j - 1])
    ensures Distinct(r) && NewestFirst(t, r)
  {
    forall a, b | 0 <= a < b < |r|
      ensures r[a] != r[b] && t[r[a]].lastAt >= t[r[b]].lastAt
    {
      if a == i {
        assert r[b] == s[b - 1] && t[s[i]].lastAt >= t[s[b - 1]].lastAt;
      }
    }
  }

  /** One step of an insertion sort. */
  method Inserted(t: Table, s: seq<string>, k: string) returns (r: seq<string>)
    requires k in t && k !in s && Distinct(s)
    requires (forall x | x in s :: x in t) && NewestFirst(t, s)
    ensures Distinct(r) && |r| == |s| + 1
    ensures forall x :: x in r <==> x in s || x == k
    ensures NewestFirst(t, r)
  {
    var i := 0;
    while i < |s| && t[s[i]].lastAt >= t[k].lastAt
      invariant 0 <= i <= |s|
      invariant forall j | 0 <= j < i :: t[s[j]].lastAt >= t[k].lastAt
    {
      i := i + 1;
    }
    r := s[..i] + [k] + s[i..];
    InsertedMembers(s, k, i);
    InsertedOrder(t, s, k, i, r);
  }

  /** The keys of a table sorted by time, newest first. */
  method SortedKeys(t: Table) returns (s: seq<string>)
    ensures Distinct(s) && (set k | k in s) == t.Keys
    ensures NewestFirst(t, s)
  {
    s := [];
    var rest := t.Keys;
    while rest != {}
      invariant rest <= t.Keys && Distinct(s)
      invariant forall k :: k in s <==> k in t.Keys && k !in rest
      invariant NewestFirst(t, s)
      decreases rest
    {
      var k :| k in rest;
      s := Inserted(t, s, k);
      rest := rest - {k};
    }
  }

  /** The first keys of a sorted enumeration are the newest entries. */
  lemma PrefixIsNewest(t: Table, items: seq<string>, kept: Table)
    requires |items| >= KEEP && Distinct(items) && (set k | k in items) == t.Keys && NewestFirst(t, items)
    requires kept.Keys == (set k | k in items[..KEEP]) && forall k | k in kept :: k in t && kept[k] == t[k]
    ensures KeepsNewest(t, kept)
  {
    DistinctSize(items[..KEEP]);
    forall k, d | k in kept && d in t && d !in kept
      ensures t[d].lastAt <= t[k].lastAt
    {
      var i := PositionOf(items[..KEEP], k);
      var j := PositionOf(items, d);
      assert forall x | 0 <= x < KEEP :: items[x] == items[..KEEP][x];
      assert j >= KEEP;
    }
  }

  lemma PositionOf(s: seq<string>, k: string) returns (i: nat)
    requires k in s
    ensures i < |s| && s[i] == k
  {
    i :| 0 <= i < |s| && s[i] == k;
  }

  method Newest(t: Table) returns (kept: Table)
    requires |t| > TOLERATED
    ensures KeepsNewest(t, kept)
  {
    hide KeepsNewest;
    var items := SortedKeys(t);
    DistinctSize(items);
    var keep := set k | k in items[..KEEP];
    kept := map k | k in t && k in keep :: t[k];
    assert keep <= t.Keys by {
      assert forall k | k in items[..KEEP] :: k in items;
    }
    PrefixIsNewest(t, items, kept);
  }
}
