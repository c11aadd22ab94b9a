/** Whole runs of one limiter file: how often one conversation can be granted, and what the file forgets. */
module LimiterRuns {
  import opened Wrappers
  import opened Limiter

  datatype Call = Call(cid: string, now: int)

  /** A run of reservations: the calls, what each was answered, and the tables before and after each. */
  datatype Run = Run(calls: seq<Call>, allowed: seq<bool>, tables: seq<Table>)

  /** Times past zero and, where windows count, past the first one. */
  predicate ClockOk(c: Config, now: int) {
    0 < now && (c.Windowed() ==> c.Window() <= now)
  }

  /** A run of either limiter from an empty file, on a clock that is past the first window and never runs back. */
  predicate IsRun(r: Run, v: Variant, c: Config) {
    && |r.allowed| == |r.calls| && |r.tables| == |r.calls| + 1
    && r.tables[0] == map[]
    && (forall i | 0 <= i < |r.calls| ::
          Reserves(v, c, r.tables[i], r.calls[i].cid, r.calls[i].now, r.tables[i + 1], r.allowed[i]))
    && (forall i | 0 <= i < |r.calls| :: ClockOk(c, r.calls[i].now))
    && (forall i, j | 0 <= i < j < |r.calls| :: r.calls[i].now <= r.calls[j].now)
  }

  /** Once in the file, the conversation stays there. */
  predicate NeverEvicted(r: Run, cid: string) {
    forall i, j | 0 <= i < j < |r.tables| :: cid in r.tables[i] ==> cid in r.tables[j]
  }

  /** The times at which the conversation was granted in the first `n` calls, in order. */
  function GrantsIn(r: Run, cid: string, n: nat): seq<int>
    requires n <= |r.calls| == |r.allowed|
  {
    if n == 0 then []
    else if r.allowed[n - 1] && r.calls[n - 1].cid == cid then GrantsIn(r, cid, n - 1) + [r.calls[n - 1].now]
    else GrantsIn(r, cid, n - 1)
  }

  function Grants(r: Run, cid: string): seq<int>
    requires |r.calls| == |r.allowed|
  {
    GrantsIn(r, cid, |r.calls|)
  }

  predicate IsGranted(r: Run, k: string, n: nat)
    requires n <= |r.calls| == |r.allowed|
  {
    GrantsIn(r, k, n) != []
  }

  /** The time of the latest of the first `n` calls that granted this conversation. */
  function LastGrant(r: Run, k: string, n: nat): int
    requires n <= |r.calls| == |r.allowed| && IsGranted(r, k, n)
  {
    GrantsIn(r, k, n)[|GrantsIn(r, k, n)| - 1]
  }

  lemma {:induction false} GrantsArePast(r: Run, v: Variant, c: Config, k: string, n: nat, m: nat)
    requires IsRun(r, v, c) && n <= m < |r.calls| && IsGranted(r, k, n)
    ensures LastGrant(r, k, n) <= r.calls[m].now
  {
    hide Reserves;
    if !(r.allowed[n - 1] && r.calls[n - 1].cid == k) {
      GrantsArePast(r, v, c, k, n - 1, m);
    }
  }

  /** How many of the times lie in the aligned window that starts at `start`. */
  function CountIn(g: seq<int>, start: int, window: int): nat
    requires window > 0
  {
    if g == [] then 0
    else CountIn(g[..|g| - 1], start, window) + (if Aligned(g[|g| - 1], window) == start then 1 else 0)
  }

  function CountBetween(g: seq<int>, from: int, to: int): nat {
    if g == [] then 0
    else CountBetween(g[..|g| - 1], from, to) + (if from <= g[|g| - 1] < to then 1 else 0)
  }

  lemma AlignedFacts(t: int, window: int)
    requires window > 0
    ensures Aligned(t, window) <= t < Aligned(t, window) + window
  {
  }

  lemma AlignedIsMultiple(t: int, window: int)
    requires window > 0
    ensures Aligned(t, window) == window * (t / window)
  {
  }

  lemma {:induction false} AtLeastOneWindow(window: int, d: int)
    requires window > 0 && d >= 1
    ensures window * d >= window
  {
    if d > 1 {
      AtLeastOneWindow(window, d - 1);
      assert window * d == window * (d - 1) + window;
    }
  }

  lemma MultiplesApart(window: int, a: int, b: int)
    requires window > 0 && a < b
    ensures window * a + window <= window * b
  {
    AtLeastOneWindow(window, b - a);
    assert window * (b - a) == window * b - window * a;
  }

  /** Two aligned starts are equal or at least a whole window apart. */
  lemma AlignedApart(t: int, u: int, window: int)
    requires window > 0 && Aligned(t, window) < Aligned(u, window)
    ensures Aligned(t, window) + window <= Aligned(u, window)
  {
    var a, b := t / window, u / window;
    AlignedIsMultiple(t, window);
    AlignedIsMultiple(u, window);
    hide Aligned;
    if b < a {
      MultiplesApart(window, b, a);
    }
    if a < b {
      MultiplesApart(window, a, b);
    }
  }

  /** Aligned starts keep the order of the times, and two that differ are a whole window apart. */
  lemma AlignedOrder(t: int, u: int, window: int)
    requires window > 0 && t <= u
    ensures Aligned(t, window) <= Aligned(u, window)
    ensures Aligned(t, window) != Aligned(u, window) ==> Aligned(t, window) + window <= Aligned(u, window)
  {
    AlignedFacts(t, window);
    AlignedFacts(u, window);
    if Aligned(u, window) < Aligned(t, window) {
      AlignedApart(u, t, window);
    } else if Aligned(t, window) < Aligned(u, window) {
      AlignedApart(t, u, window);
    }
  }

  lemma ShiftedByOne(t: int, window: int)
    requires window > 0
    ensures Aligned(t + window, window) == Aligned(t, window) + window
  {
    AlignedFacts(t, window);
    AlignedFacts(t + window, window);
    var a, b := t / window, (t + window) / window;
    AlignedIsMultiple(t, window);
    AlignedIsMultiple(t + window, window);
    hide Aligned;
    assert window * (a + 1) == window * a + window;
    if b < a + 1 {
      MultiplesApart(window, b, a + 1);
    } else if a + 1 < b {
      MultiplesApart(window, a + 1, b);
    }
  }

  /** Times no later than `last` do not count in a window that starts after the one of `last`. */
  lemma {:induction false} NothingAhead(g: seq<int>, last: int, start: int, window: int)
    requires window > 0 && Aligned(last, window) < start
    requires forall i | 0 <= i < |g| :: g[i] <= last
    ensures CountIn(g, start, window) == 0
  {
    hide Aligned;
    if g != [] {
      AlignedOrder(g[|g| - 1], last, window);
      NothingAhead(g[..|g| - 1], last, start, window);
    }
  }

  /** Grants so far: in order, spaced by the interval, and at most the maximum in every aligned window. */
  ghost predicate WithinLimits(g: seq<int>, c: Config) {
    && (forall i, j | 0 <= i < j < |g| :: g[j] - g[i] >= c.Interval() && g[i] <= g[j])
    && (c.Windowed() ==> forall start: int :: CountIn(g, start, c.Window()) <= c.maxPerWindow)
  }

  /**
   * What the entry knows about the grants: the latest one, and a count that is never below the number of grants in
   * the window of the latest one. The stored window may lag behind that window by the one second of tolerance.
   */
  predicate EntryCovers(e: Entry, g: seq<int>, c: Config) {
    && g != [] && e.lastAt == g[|g| - 1] && e.lastAt > 0
    && (c.Windowed() ==>
          && e.windowStart.Some? && e.windowCount.Some?
          && 0 < e.windowStart.value <= Aligned(e.lastAt, c.Window()) <= e.windowStart.value + SECOND
          && CountIn(g, Aligned(e.lastAt, c.Window()), c.Window()) <= e.windowCount.value <= c.maxPerWindow)
  }

  ghost predicate Covered(t: Table, cid: string, g: seq<int>, c: Config) {
    && WithinLimits(g, c)
    && (if cid in t then EntryCovers(t[cid], g, c) else g == [])
  }

  lemma CountAfter(g: seq<int>, t: int, start: int, window: int)
    requires window > 0
    ensures CountIn(g + [t], start, window) == CountIn(g, start, window) + if Aligned(t, window) == start then 1 else 0
  {
    assert (g + [t])[..|g|] == g;
  }

  lemma PositiveStart(now: int, window: int)
    requires 0 < window <= now
    ensures 0 < Aligned(now, window)
  {
    hide Aligned;
    AlignedFacts(now, window);
  }

  /** The window half of a grant: the count still covers, and the window of this call is not overfull. */
  lemma GrantKeepsCount(v: Variant, e: Entry, c: Config, g: seq<int>, now: int)
    requires c.Windowed() && c.Window() <= now
    requires if g == [] then e == NO_ENTRY else EntryCovers(e, g, c) && e.lastAt <= now
    requires forall i | 0 <= i < |g| :: g[i] <= e.lastAt
    requires WindowOk(e, c, now)
    ensures EntryCovers(Granted(v, e, c, now), g + [now], c)
    ensures CountIn(g + [now], Aligned(now, c.Window()), c.Window()) <= c.maxPerWindow
  {
    hide Aligned;
    var w := c.Window();
    PositiveStart(now, w);
    CountAfter(g, now, Aligned(now, w), w);
    assert (g + [now])[|g|] == now;
    if g != [] {
      AlignedOrder(e.lastAt, now, w);
      if Aligned(e.lastAt, w) < Aligned(now, w) {
        NothingAhead(g, e.lastAt, Aligned(now, w), w);
      }
    }
  }

  lemma GrantKeepsLimits(v: Variant, e: Entry, c: Config, g: seq<int>, now: int)
    requires ClockOk(c, now)
    requires WithinLimits(g, c) && Allows(e, c, now)
    requires if g == [] then e == NO_ENTRY else EntryCovers(e, g, c) && e.lastAt <= now
    ensures WithinLimits(g + [now], c) && EntryCovers(Granted(v, e, c, now), g + [now], c)
  {
    hide Aligned;
    var h := g + [now];
    assert forall i | 0 <= i < |g| :: h[i] == g[i];
    if c.Windowed() {
      GrantKeepsCount(v, e, c, g, now);
      forall start: int
        ensures CountIn(h, start, c.Window()) <= c.maxPerWindow
      {
        CountAfter(g, now, start, c.Window());
      }
    }
    assert h[|h| - 1] == now;
  }

  lemma StepCovers(v: Variant, c: Config, before: Table, call: Call, after: Table, allowed: bool, cid: string,
                   g: seq<int>)
    requires Reserves(v, c, before, call.cid, call.now, after, allowed)
    requires ClockOk(c, call.now)
    requires Covered(before, cid, g, c) && (g != [] ==> g[|g| - 1] <= call.now)
    requires cid in before ==> cid in after
    requires allowed && call.cid == cid ==> cid in after
    ensures Covered(after, cid, if allowed && call.cid == cid then g + [call.now] else g, c)
  {
    if allowed && call.cid == cid {
      GrantKeepsLimits(v, EntryOf(before, cid), c, g, call.now);
    }
  }

  predicate GrantsSurvive(r: Run, cid: string)
    requires |r.allowed| == |r.calls| && |r.tables| == |r.calls| + 1
  {
    forall i | 0 <= i < |r.calls| && r.allowed[i] && r.calls[i].cid == cid :: cid in r.tables[i + 1]
  }

  lemma {:induction false} RunCovers(r: Run, v: Variant, c: Config, cid: string, n: nat)
    requires IsRun(r, v, c) && NeverEvicted(r, cid) && GrantsSurvive(r, cid) && n <= |r.calls|
    ensures Covered(r.tables[n], cid, GrantsIn(r, cid, n), c)
  {
    if n == 0 {
      assert WithinLimits([], c);
    } else {
      RunCovers(r, v, c, cid, n - 1);
      if GrantsIn(r, cid, n - 1) != [] {
        GrantsArePast(r, v, c, cid, n - 1, n - 1);
      }
      hide Covered, Reserves;
      StepCovers(v, c, r.tables[n - 1], r.calls[n - 1], r.tables[n], r.allowed[n - 1], cid, GrantsIn(r, cid, n - 1));
    }
  }

  /** Every time inside an interval of one window's length lies in one of two aligned windows. */
  lemma {:induction false} IntervalMeetsTwoWindows(g: seq<int>, from: int, window: int)
    requires window > 0
    ensures CountBetween(g, from, from + window)
         <= CountIn(g, Aligned(from, window), window) + CountIn(g, Aligned(from, window) + window, window)
  {
    hide Aligned;
    if g != [] {
      var t := g[|g| - 1];
      IntervalMeetsTwoWindows(g[..|g| - 1], from, window);
      if from <= t < from + window {
        AlignedFacts(t, window);
        AlignedFacts(from, window);
        AlignedOrder(from, t, window);
        AlignedFacts(from + window, window);
        if Aligned(from, window) < Aligned(t, window) {
          AlignedOrder(t, from + window, window);
          ShiftedByOne(from, window);
        }
      }
    }
  }

  predicate BurstsBounded(g: seq<int>, from: int, c: Config) {
    CountBetween(g, from, from + c.Window()) <= 2 * c.maxPerWindow
  }

  lemma LimitsBoundBursts(g: seq<int>, c: Config)
    requires WithinLimits(g, c) && c.Windowed()
    ensures forall from: int :: BurstsBounded(g, from, c)
  {
    hide Aligned;
    forall from: int
      ensures BurstsBounded(g, from, c)
    {
      IntervalMeetsTwoWindows(g, from, c.Window());
    }
  }

  /**
   * For a conversation that is not evicted, over any run of either limiter: grants are at least the interval apart,
   * at most the maximum fall in any aligned window, and so at most twice the maximum in any stretch of that length.
   */
  lemma LimiterSafety(r: Run, v: Variant, c: Config, cid: string)
    requires IsRun(r, v, c) && NeverEvicted(r, cid) && GrantsSurvive(r, cid)
    ensures var g := Grants(r, cid);
            && (forall i, j | 0 <= i < j < |g| :: g[j] - g[i] >= c.Interval())
            && (c.Windowed() ==>
                  && (forall start: int :: CountIn(g, start, c.Window()) <= c.maxPerWindow)
                  && (forall from: int :: BurstsBounded(g, from, c)))
  {
    RunCovers(r, v, c, cid, |r.calls|);
    assert WithinLimits(Grants(r, cid), c);
    if c.Windowed() {
      LimitsBoundBursts(Grants(r, cid), c);
    }
  }

  // ---- Forgetting --------------------------------------------------------------------------------

  /** One granted reservation: what compaction may drop, and that it changes nothing else. */
  lemma GrantForgets(v: Variant, c: Config, before: Table, cid: string, now: int, after: Table)
    requires Reserves(v, c, before, cid, now, after, true)
    ensures |after| <= TOLERATED
    ensures forall k | k in before && k != cid && k !in after ::
              |after| == KEEP && forall other | other in after :: before[k].lastAt <= after[other].lastAt
    ensures cid !in after ==> |after| == KEEP && forall other | other in after :: now <= after[other].lastAt
    ensures forall other | other in after && other != cid :: other in before && after[other] == before[other]
    ensures cid in after ==> after[cid].lastAt == now
  {
  }

  /** Each of these other conversations has been granted, and last no earlier than this one. */
  predicate Outranks(r: Run, s: set<string>, k: string, n: nat)
    requires n <= |r.calls| == |r.allowed| && IsGranted(r, k, n)
  {
    k !in s && forall o | o in s :: IsGranted(r, o, n) && LastGrant(r, k, n) <= LastGrant(r, o, n)
  }

  /** The table holds the latest grant of every conversation in it. */
  predicate Remembers(r: Run, n: nat)
    requires n <= |r.calls| == |r.allowed| && |r.tables| == |r.calls| + 1
  {
    forall k | k in r.tables[n] :: IsGranted(r, k, n) && r.tables[n][k].lastAt == LastGrant(r, k, n)
  }

  lemma OneMoreGrant(r: Run, k: string, n: nat)
    requires 0 < n <= |r.calls| == |r.allowed|
    ensures var granted := r.allowed[n - 1] && r.calls[n - 1].cid == k;
            && (IsGranted(r, k, n) <==> granted || IsGranted(r, k, n - 1))
            && (IsGranted(r, k, n) ==>
                  LastGrant(r, k, n) == if granted then r.calls[n - 1].now else LastGrant(r, k, n - 1))
  {
  }

  lemma {:induction false} TableRemembers(r: Run, v: Variant, c: Config, n: nat)
    requires IsRun(r, v, c) && n <= |r.calls|
    ensures Remembers(r, n) && |r.tables[n]| <= TOLERATED
  {
    if n > 0 {
      TableRemembers(r, v, c, n - 1);
      var call := r.calls[n - 1];
      assert Reserves(v, c, r.tables[n - 1], call.cid, call.now, r.tables[n], r.allowed[n - 1]);
      if r.allowed[n - 1] {
        GrantForgets(v, c, r.tables[n - 1], call.cid, call.now, r.tables[n]);
      }
      hide Reserves, IsGranted, LastGrant;
      forall k | k in r.tables[n]
        ensures IsGranted(r, k, n) && r.tables[n][k].lastAt == LastGrant(r, k, n)
      {
        OneMoreGrant(r, k, n);
      }
    }
  }

  /** A conversation dropped by the `n`-th call: all that remain were granted no earlier. */
  lemma DroppedNow(r: Run, v: Variant, c: Config, k: string, n: nat)
    requires IsRun(r, v, c) && 0 < n <= |r.calls| && IsGranted(r, k, n) && k !in r.tables[n]
    requires k in r.tables[n - 1] || (r.allowed[n - 1] && r.calls[n - 1].cid == k)
    ensures |r.tables[n]| == KEEP && Outranks(r, r.tables[n].Keys, k, n)
  {
    hide IsGranted, LastGrant;
    TableRemembers(r, v, c, n - 1);
    TableRemembers(r, v, c, n);
    OneMoreGrant(r, k, n);
    var call := r.calls[n - 1];
    assert Reserves(v, c, r.tables[n - 1], call.cid, call.now, r.tables[n], r.allowed[n - 1]);
    GrantForgets(v, c, r.tables[n - 1], call.cid, call.now, r.tables[n]);
  }

  /** Conversations that outranked one that is not granted again still do. */
  lemma StillOutranks(r: Run, v: Variant, c: Config, s: set<string>, k: string, n: nat)
    requires IsRun(r, v, c) && 0 < n <= |r.calls|
    requires IsGranted(r, k, n - 1) && Outranks(r, s, k, n - 1)
    requires !(r.allowed[n - 1] && r.calls[n - 1].cid == k)
    ensures IsGranted(r, k, n) && Outranks(r, s, k, n)
  {
    OneMoreGrant(r, k, n);
    GrantsArePast(r, v, c, k, n - 1, n - 1);
    hide Reserves, IsGranted, LastGrant;
    forall o | o in s
      ensures IsGranted(r, o, n) && LastGrant(r, k, n) <= LastGrant(r, o, n)
    {
      OneMoreGrant(r, o, n);
    }
  }

  /**
   * Over any run: the file has at most 220 entries, each with the time of its conversation's latest grant, and a
   * conversation that was granted and is not in the file has been outranked by at least 200 others.
   */
  lemma {:induction false} ForgetsOnlyTheOldest(r: Run, v: Variant, c: Config, k: string, n: nat)
    requires IsRun(r, v, c) && n <= |r.calls|
    ensures |r.tables[n]| <= TOLERATED && Remembers(r, n)
    ensures IsGranted(r, k, n) && k !in r.tables[n] ==> exists s: set<string> :: |s| >= KEEP && Outranks(r, s, k, n)
  {
    hide Reserves, Remembers, Outranks, LastGrant;
    TableRemembers(r, v, c, n);
    if n > 0 && IsGranted(r, k, n) && k !in r.tables[n] {
      OneMoreGrant(r, k, n);
      hide IsGranted;
      if k in r.tables[n - 1] || (r.allowed[n - 1] && r.calls[n - 1].cid == k) {
        DroppedNow(r, v, c, k, n);
        assert |r.tables[n].Keys| >= KEEP;
      } else {
        ForgetsOnlyTheOldest(r, v, c, k, n - 1);
        var s: set<string> :| |s| >= KEEP && Outranks(r, s, k, n - 1);
        StillOutranks(r, v, c, s, k, n);
      }
    }
  }

  /** The other conversations that the run grants at all. */
  function OthersGranted(r: Run, k: string): set<string>
    requires |r.calls| == |r.allowed|
  {
    set i | 0 <= i < |r.calls| && r.allowed[i] && r.calls[i].cid != k :: r.calls[i].cid
  }

  lemma {:induction false} GrantedByACall(r: Run, o: string, k: string, n: nat)
    requires n <= |r.calls| == |r.allowed| && o != k && IsGranted(r, o, n)
    ensures o in OthersGranted(r, k)
  {
    if !(r.allowed[n - 1] && r.calls[n - 1].cid == o) {
      GrantedByACall(r, o, k, n - 1);
    }
  }

  lemma {:induction false} SubsetSize(s: set<string>, t: set<string>)
    requires s <= t
    ensures |s| <= |t|
  {
    if s != {} {
      var x :| x in s;
      SubsetSize(s - {x}, t - {x});
    }
  }

  lemma {:induction false} GrantedStays(r: Run, k: string, i: nat, j: nat)
    requires i <= j <= |r.calls| == |r.allowed| && IsGranted(r, k, i)
    ensures IsGranted(r, k, j)
  {
    if i < j {
      GrantedStays(r, k, i, j - 1);
    }
  }

  /** The file never holds more than the conversations that were granted. */
  lemma TableWithinGranted(r: Run, v: Variant, c: Config, k: string, n: nat)
    requires IsRun(r, v, c) && n <= |r.calls|
    ensures r.tables[n].Keys <= OthersGranted(r, k) + {k}
  {
    hide Reserves;
    TableRemembers(r, v, c, n);
    forall o | o in r.tables[n] && o != k
      ensures o in OthersGranted(r, k)
    {
      GrantedByACall(r, o, k, n);
    }
  }

  lemma {:induction false} PresentOnceGranted(r: Run, v: Variant, c: Config, k: string, n: nat)
    requires IsRun(r, v, c) && n <= |r.calls| && |OthersGranted(r, k)| < TOLERATED && IsGranted(r, k, n)
    ensures k in r.tables[n]
  {
    var call, before := r.calls[n - 1], r.tables[n - 1];
    assert Reserves(v, c, before, call.cid, call.now, r.tables[n], r.allowed[n - 1]);
    if !(r.allowed[n - 1] && call.cid == k) {
      PresentOnceGranted(r, v, c, k, n - 1);
    }
    if r.allowed[n - 1] {
      var granted := before[call.cid := Granted(v, EntryOf(before, call.cid), c, call.now)];
      TableWithinGranted(r, v, c, k, n - 1);
      assert call.cid != k ==> call.cid in OthersGranted(r, k);
      SubsetSize(granted.Keys, OthersGranted(r, k) + {k});
      assert |granted| == |granted.Keys| <= TOLERATED;
    }
  }

  /** In a run that grants fewer than 220 other conversations, a granted conversation is never forgotten. */
  lemma FewOthersNeverEvict(r: Run, v: Variant, c: Config, k: string)
    requires IsRun(r, v, c) && |OthersGranted(r, k)| < TOLERATED
    ensures NeverEvicted(r, k) && GrantsSurvive(r, k)
  {
    hide Reserves;
    forall i, j | 0 <= i < j < |r.tables| && k in r.tables[i]
      ensures k in r.tables[j]
    {
      TableRemembers(r, v, c, i);
      GrantedStays(r, k, i, j);
      PresentOnceGranted(r, v, c, k, j);
    }
    forall i | 0 <= i < |r.calls| && r.allowed[i] && r.calls[i].cid == k
      ensures k in r.tables[i + 1]
    {
      PresentOnceGranted(r, v, c, k, i + 1);
    }
  }

  /** So the limits hold for every conversation of every run that grants fewer than 220 others. */
  lemma LimiterSafetyFromCalls(r: Run, v: Variant, c: Config, cid: string)
    requires IsRun(r, v, c) && |OthersGranted(r, cid)| < TOLERATED
    ensures var g := Grants(r, cid);
            && (forall i, j | 0 <= i < j < |g| :: g[j] - g[i] >= c.Interval())
            && (c.Windowed() ==>
                  && (forall start: int :: CountIn(g, start, c.Window()) <= c.maxPerWindow)
                  && (forall from: int :: BurstsBounded(g, from, c)))
  {
    FewOthersNeverEvict(r, v, c, cid);
    hide IsRun, NeverEvicted, GrantsSurvive;
    LimiterSafety(r, v, c, cid);
  }

  predicate StrictClock(r: Run) {
    forall i, j | 0 <= i < j < |r.calls| :: r.calls[i].now < r.calls[j].now
  }

  /** On a clock that moves between calls, every entry is older than the call that follows. */
  lemma {:induction false} EntriesAreOlder(r: Run, v: Variant, c: Config, n: nat, later: int)
    requires IsRun(r, v, c) && StrictClock(r) && n <= |r.calls|
    requires forall i | 0 <= i < n :: r.calls[i].now < later
    ensures forall k | k in r.tables[n] :: r.tables[n][k].lastAt < later
  {
    if n > 0 {
      EntriesAreOlder(r, v, c, n - 1, later);
      var _ := Reserves(v, c, r.tables[n - 1], r.calls[n - 1].cid, r.calls[n - 1].now, r.tables[n], r.allowed[n - 1]);
      if r.allowed[n - 1] {
        GrantForgets(v, c, r.tables[n - 1], r.calls[n - 1].cid, r.calls[n - 1].now, r.tables[n]);
      }
    }
  }

  lemma GrantSurvives(v: Variant, c: Config, before: Table, cid: string, now: int, after: Table)
    requires Reserves(v, c, before, cid, now, after, true)
    requires forall k | k in before :: before[k].lastAt < now
    ensures cid in after
  {
    GrantForgets(v, c, before, cid, now, after);
    assert after != map[] ==> exists other :: other in after.Keys;
  }

  /** So the conversation just granted is never the one that compaction drops. */
  lemma JustGrantedIsRemembered(r: Run, v: Variant, c: Config, cid: string)
    requires IsRun(r, v, c) && StrictClock(r)
    ensures GrantsSurvive(r, cid)
  {
    forall i | 0 <= i < |r.calls| && r.allowed[i] && r.calls[i].cid == cid
      ensures cid in r.tables[i + 1]
    {
      EntriesAreOlder(r, v, c, i, r.calls[i].now);
      GrantSurvives(v, c, r.tables[i], cid, r.calls[i].now, r.tables[i + 1]);
    }
  }

  // ---- Never too early, never too late -------------------------------------------------------------

  /** Windows that the one second of tolerance cannot confuse. */
  predicate WideWindows(c: Config) {
    c.Windowed() ==> c.windowSeconds >= 2
  }

  /** The entry counts the grants of the window of the latest grant, no more and no less. */
  predicate EntryIsExact(e: Entry, g: seq<int>, c: Config) {
    c.Windowed() ==>
      && e.windowStart == Some(Aligned(e.lastAt, c.Window()))
      && e.windowCount == Some(CountIn(g, Aligned(e.lastAt, c.Window()), c.Window()))
  }

  /** What a conversation's entry knows of its grants. */
  predicate KnowsGrants(e: Entry, g: seq<int>, c: Config) {
    if g == [] then e == NO_ENTRY
    else
      && EntryIsExact(e, g, c) && e.lastAt == g[|g| - 1] && ClockOk(c, e.lastAt)
      && forall i | 0 <= i < |g| :: g[i] <= e.lastAt
  }

  lemma ViewIsExact(e: Entry, g: seq<int>, c: Config, now: int)
    requires c.Windowed() && WideWindows(c) && ClockOk(c, now)
    requires KnowsGrants(e, g, c) && e.lastAt <= now
    ensures ViewOf(e, c, now) == (Aligned(now, c.Window()), CountIn(g, Aligned(now, c.Window()), c.Window()))
  {
    hide Aligned;
    var w := c.Window();
    if g != [] {
      PositiveStart(e.lastAt, w);
      AlignedOrder(e.lastAt, now, w);
      if Aligned(e.lastAt, w) < Aligned(now, w) {
        NothingAhead(g, e.lastAt, Aligned(now, w), w);
      }
    }
  }

  lemma GrantIsExact(v: Variant, e: Entry, g: seq<int>, c: Config, now: int)
    requires WideWindows(c) && ClockOk(c, now) && KnowsGrants(e, g, c) && e.lastAt <= now
    ensures KnowsGrants(Granted(v, e, c, now), g + [now], c)
  {
    hide Aligned;
    if c.Windowed() {
      ViewIsExact(e, g, c, now);
      PositiveStart(now, c.Window());
      CountAfter(g, now, Aligned(now, c.Window()), c.Window());
    }
  }

  lemma {:induction false} RunKnowsGrants(r: Run, v: Variant, c: Config, cid: string, n: nat)
    requires IsRun(r, v, c) && WideWindows(c) && NeverEvicted(r, cid) && GrantsSurvive(r, cid) && n <= |r.calls|
    ensures KnowsGrants(EntryOf(r.tables[n], cid), GrantsIn(r, cid, n), c)
    ensures n < |r.calls| ==> EntryOf(r.tables[n], cid).lastAt <= r.calls[n].now
  {
    hide KnowsGrants, Granted;
    if n == 0 {
      NothingKnown(c);
    } else {
      var before, call := r.tables[n - 1], r.calls[n - 1];
      RunKnowsGrants(r, v, c, cid, n - 1);
      GrantIsExact(v, EntryOf(before, cid), GrantsIn(r, cid, n - 1), c, call.now);
      assert Reserves(v, c, before, call.cid, call.now, r.tables[n], r.allowed[n - 1]);
    }
    KnownIsPast(r, v, c, cid, n);
  }

  lemma NothingKnown(c: Config)
    ensures KnowsGrants(NO_ENTRY, [], c)
  {
  }

  lemma KnownIsPast(r: Run, v: Variant, c: Config, cid: string, n: nat)
    requires IsRun(r, v, c) && n <= |r.calls|
    requires KnowsGrants(EntryOf(r.tables[n], cid), GrantsIn(r, cid, n), c)
    ensures n < |r.calls| ==> EntryOf(r.tables[n], cid).lastAt <= r.calls[n].now
  {
    hide Reserves;
    if n < |r.calls| && IsGranted(r, cid, n) {
      GrantsArePast(r, v, c, cid, n, n);
    }
  }

  /** The interval has passed since the latest grant, if there is one, and there is room in the window of this time. */
  predicate HasRoom(g: seq<int>, c: Config, now: int) {
    && (g != [] ==> now - g[|g| - 1] >= c.Interval())
    && (c.Windowed() ==> CountIn(g, Aligned(now, c.Window()), c.Window()) < c.maxPerWindow)
  }

  /**
   * Over every run, for a conversation that is not evicted and windows of at least two seconds: a call is allowed if
   * and only if the interval has passed since the latest grant and fewer than the maximum were granted in the aligned
   * window of the call. A limiter that is too strict is as wrong as one that is too lax.
   */
  lemma AllowedIff(r: Run, v: Variant, c: Config, n: nat)
    requires IsRun(r, v, c) && WideWindows(c) && n < |r.calls|
    requires NeverEvicted(r, r.calls[n].cid) && GrantsSurvive(r, r.calls[n].cid)
    ensures r.allowed[n] <==> HasRoom(GrantsIn(r, r.calls[n].cid, n), c, r.calls[n].now)
  {
    var call := r.calls[n];
    var e, g := EntryOf(r.tables[n], call.cid), GrantsIn(r, call.cid, n);
    RunKnowsGrants(r, v, c, call.cid, n);
    assert Reserves(v, c, r.tables[n], call.cid, call.now, r.tables[n + 1], r.allowed[n]);
    AllowsIff(e, g, c, call.now);
    hide KnowsGrants, HasRoom, Allows, EntryOf;
  }

  lemma AllowsIff(e: Entry, g: seq<int>, c: Config, now: int)
    requires WideWindows(c) && ClockOk(c, now) && KnowsGrants(e, g, c) && e.lastAt <= now
    ensures Allows(e, c, now) <==> HasRoom(g, c, now)
  {
    if c.Windowed() {
      ViewIsExact(e, g, c, now);
    }
    hide ViewOf, Aligned;
  }

  /** The same from the calls alone: in runs that grant fewer than 220 other conversations. */
  lemma AllowedIffFromCalls(r: Run, v: Variant, c: Config, n: nat)
    requires IsRun(r, v, c) && WideWindows(c) && n < |r.calls|
    requires |OthersGranted(r, r.calls[n].cid)| < TOLERATED
    ensures r.allowed[n] <==> HasRoom(GrantsIn(r, r.calls[n].cid, n), c, r.calls[n].now)
  {
    FewOthersNeverEvict(r, v, c, r.calls[n].cid);
    hide IsRun, NeverEvicted, GrantsSurvive, HasRoom;
    AllowedIff(r, v, c, n);
  }

  /**
   * While windows do not count, a grant of the refresh limiter leaves the stored window as it is, for settings that
   * count it again later; a grant of the regenerate limiter forgets it.
   */
  lemma GrantWithoutWindows(v: Variant, e: Entry, c: Config, now: int)
    requires !c.Windowed()
    ensures var after := Granted(v, e, c, now);
            && after.lastAt == now
            && (v.WaitRefresh? ==> after.windowStart == e.windowStart && after.windowCount == e.windowCount)
            && (v.Regenerate? ==>
                  after.windowStart.None? && after.windowCount == if c.maxPerWindow > 0 then Some(1) else None)
  {
  }

  /** What the answers report is the history: the latest grant, and how many fell in the window of the call. */
  lemma ReportsTheHistory(r: Run, v: Variant, c: Config, n: nat, d: Decision)
    requires IsRun(r, v, c) && WideWindows(c) && c.Windowed() && n < |r.calls|
    requires NeverEvicted(r, r.calls[n].cid) && GrantsSurvive(r, r.calls[n].cid)
    requires match v
             case Regenerate => RegenerateAnswers(r.tables[n], r.calls[n].cid, r.calls[n].now, c, d)
             case WaitRefresh => RefreshAnswers(r.tables[n], r.calls[n].cid, r.calls[n].now, c, d)
    ensures var cid, now := r.calls[n].cid, r.calls[n].now;
            var g := GrantsIn(r, cid, n);
            && d.allowed == r.allowed[n]
            && d.lastAt == (if g == [] then None else Some(g[|g| - 1]))
            && var counted := if v.Regenerate? then GrantsIn(r, cid, n + 1) else g;
            d.windowCount == Some(CountIn(counted, Aligned(now, c.Window()), c.Window()))
  {
    hide Aligned, NeverEvicted, GrantsSurvive;
    var call := r.calls[n];
    var e, g := EntryOf(r.tables[n], call.cid), GrantsIn(r, call.cid, n);
    RunKnowsGrants(r, v, c, call.cid, n);
    ViewIsExact(e, g, c, call.now);
    assert Reserves(v, c, r.tables[n], call.cid, call.now, r.tables[n + 1], r.allowed[n]);
    CountAfter(g, call.now, Aligned(call.now, c.Window()), c.Window());
    hide IsRun, Reserves, ViewOf, Allows;
  }

  const ONE_SECOND := Config(0, 1, 1)

  const FIRST_GRANT := Entry(1_500_000, Some(1_000_000), Some(1))

  /** A conversation is granted at 1.5 seconds and refused at 2 seconds. */
  function EarlyRefusal(cid: string): Run {
    Run([Call(cid, 1_500_000), Call(cid, 2_000_000)], [true, false],
        [map[], map[cid := FIRST_GRANT], map[cid := FIRST_GRANT]])
  }

  lemma FirstIsGranted(v: Variant, cid: string)
    ensures Reserves(v, ONE_SECOND, map[], cid, 1_500_000, map[cid := FIRST_GRANT], true)
  {
    assert Granted(v, NO_ENTRY, ONE_SECOND, 1_500_000) == FIRST_GRANT;
    var t: Table := map[][cid := FIRST_GRANT];
    assert t == map[cid := FIRST_GRANT] && |t| == 1;
  }

  lemma SecondIsRefused(v: Variant, cid: string)
    ensures Reserves(v, ONE_SECOND, map[cid := FIRST_GRANT], cid, 2_000_000, map[cid := FIRST_GRANT], false)
  {
    assert !Allows(FIRST_GRANT, ONE_SECOND, 2_000_000);
  }

  lemma OneGrantBefore(cid: string)
    ensures GrantsIn(EarlyRefusal(cid), cid, 1) == [1_500_000]
  {
    hide HasRoom;
    assert GrantsIn(EarlyRefusal(cid), cid, 0) == [];
  }

  lemma WholeSeconds()
    ensures Aligned(1_500_000, SECOND) == 1_000_000 && Aligned(2_000_000, SECOND) == 2_000_000
    ensures ONE_SECOND.Window() == SECOND
  {
  }

  lemma RoomInSecondWindow()
    ensures HasRoom([1_500_000], ONE_SECOND, 2_000_000)
  {
    hide Aligned;
    WholeSeconds();
    CountAfter([], 1_500_000, 2_000_000, SECOND);
    assert CountIn([], 2_000_000, SECOND) == 0 && [] + [1_500_000] == [1_500_000];
    hide CountIn;
  }

  /**
   * With windows of one second the tolerance joins two of them: the second call is refused although nothing was granted
   * in its window and no interval is set.
   */
  lemma OneSecondWindowsRefuseEarly(v: Variant, cid: string)
    ensures var r := EarlyRefusal(cid);
            && IsRun(r, v, ONE_SECOND) && NeverEvicted(r, cid) && GrantsSurvive(r, cid)
            && !r.allowed[1] && HasRoom(GrantsIn(r, cid, 1), ONE_SECOND, r.calls[1].now)
  {
    hide Reserves, HasRoom, GrantsIn;
    FirstIsGranted(v, cid);
    SecondIsRefused(v, cid);
    OneGrantBefore(cid);
    RoomInSecondWindow();
  }

  // ---- The advertised retry time -----------------------------------------------------------------

  /**
   * A refused reservation names times to wait for. Waiting for both is enough for any window of at least two
   * seconds, whatever the entry, as long as its window is aligned and not ahead of the clock.
   */
  lemma AdvertisedRetryIsGranted(e: Entry, c: Config, now: int, later: int)
    requires now <= later && !Allows(e, c, now)
    requires c.windowSeconds >= 2
    requires e.windowStart.Some? ==> Aligned(e.windowStart.value, c.Window()) == e.windowStart.value <= now
    requires NextAllowedAt(e, c).Some? ==> NextAllowedAt(e, c).value <= later
    requires WindowNextAllowedAt(e, c, now).Some? ==> WindowNextAllowedAt(e, c, now).value <= later
    ensures Allows(e, c, later)
  {
    hide Aligned;
    if c.Windowed() {
      var w := c.Window();
      var start := e.windowStart.GetOr(0);
      AlignedOrder(now, later, w);
      if start > 0 {
        AlignedOrder(start, now, w);
        if !WindowOk(e, c, now) {
          ShiftedByOne(start, w);
          AlignedOrder(start + w, later, w);
        }
      }
    }
  }

  /** Every stored window is an aligned one. */
  predicate AlignedEntry(e: Entry, c: Config) {
    c.Windowed() && e.windowStart.Some? ==> Aligned(e.windowStart.value, c.Window()) == e.windowStart.value > 0
  }

  lemma AlignedTwice(t: int, window: int)
    requires window > 0
    ensures Aligned(Aligned(t, window), window) == Aligned(t, window)
  {
    AlignedFacts(t, window);
    if Aligned(t, window) < t {
      AlignedOrder(Aligned(t, window), t, window);
      AlignedFacts(Aligned(t, window), window);
    }
  }

  lemma GrantedIsAligned(v: Variant, e: Entry, c: Config, now: int)
    requires AlignedEntry(e, c) && ClockOk(c, now)
    ensures AlignedEntry(Granted(v, e, c, now), c)
  {
    hide Aligned;
    if c.Windowed() {
      AlignedTwice(now, c.Window());
      PositiveStart(now, c.Window());
    }
  }

  lemma {:induction false} StoredWindowsAreAligned(r: Run, v: Variant, c: Config, n: nat, cid: string)
    requires IsRun(r, v, c) && n <= |r.calls|
    ensures AlignedEntry(EntryOf(r.tables[n], cid), c)
  {
    if n > 0 {
      var before, call := r.tables[n - 1], r.calls[n - 1];
      StoredWindowsAreAligned(r, v, c, n - 1, cid);
      GrantedIsAligned(v, EntryOf(before, cid), c, call.now);
      assert Reserves(v, c, before, call.cid, call.now, r.tables[n], r.allowed[n - 1]);
      hide AlignedEntry, Granted;
    }
  }

  /**
   * Whenever a full window refuses a call, whatever the time and the entry, the window is open again at the
   * advertised time if and only if it is longer than a second: with one-second windows the tolerance still takes the
   * old window for the current one.
   */
  lemma WindowOpensOnTimeIff(e: Entry, c: Config, now: int)
    requires AlignedEntry(e, c) && ClockOk(c, now) && !WindowOk(e, c, now)
    ensures var retry := WindowNextAllowedAt(e, c, now).value;
            WindowOk(e, c, retry) <==> c.windowSeconds >= 2
  {
    hide Aligned;
    ShiftedByOne(ViewOf(e, c, now).0, c.Window());
  }

  /** Neither time is advertised too late: until the interval's the interval refuses, until the window's the window. */
  lemma AdvertisedTimesAreNotTooLate(e: Entry, c: Config, now: int, t: int)
    requires AlignedEntry(e, c) && ClockOk(c, now) && now <= t
    ensures IntervalOk(e, c, t) <==> NextAllowedAt(e, c).None? || NextAllowedAt(e, c).value <= t
    ensures !WindowOk(e, c, now) && t < WindowNextAllowedAt(e, c, now).value ==> !WindowOk(e, c, t)
  {
    hide Aligned;
    if !WindowOk(e, c, now) && t < WindowNextAllowedAt(e, c, now).value {
      StillInWindow(ViewOf(e, c, now).0, now, t, c.Window());
    }
  }

  /** Until a window's end the aligned start stays within a second of the window's. */
  lemma StillInWindow(start: int, now: int, t: int, window: int)
    requires window > 0 && Aligned(start, window) == start && start - SECOND <= Aligned(now, window)
    requires now <= t < start + window
    ensures start - SECOND <= Aligned(t, window) <= start
  {
    AlignedOrder(now, t, window);
    AlignedFacts(t, window);
    if start < Aligned(t, window) {
      AlignedApart(start, t, window);
    }
    hide Aligned;
  }

  /**
   * At every point of every run: a call refused by its window that comes back at the advertised time of the window is
   * granted if and only if windows are longer than a second and the interval has passed by then.
   */
  lemma RetryOnTimeIff(r: Run, v: Variant, c: Config, n: nat, cid: string, now: int)
    requires IsRun(r, v, c) && n <= |r.calls| && ClockOk(c, now)
    requires !WindowOk(EntryOf(r.tables[n], cid), c, now)
    ensures var e := EntryOf(r.tables[n], cid);
            var retry := WindowNextAllowedAt(e, c, now).value;
            Allows(e, c, retry) <==>
              && c.windowSeconds >= 2
              && (NextAllowedAt(e, c).Some? ==> NextAllowedAt(e, c).value <= retry)
  {
    StoredWindowsAreAligned(r, v, c, n, cid);
    WindowOpensOnTimeIff(EntryOf(r.tables[n], cid), c, now);
    hide IsRun, ViewOf, WindowOk, WindowNextAllowedAt;
  }
}
