/**
 * The source score ledger (`_update_source_score_ledger` and `_source_quality_score` in `chatgptrest/finbot.py`).
 * Ids are the ones the code computes from a row: the source id and the citation id derived from it.
 */
module SourceScores {
  import opened Wrappers

  datatype Edge = Edge(citation: string, claim: string, loadBearing: bool)

  /** One row of the scorecard of a package. */
  datatype Card = Card(name: string, source: string, citation: string, role: string, accepted: int, validated: int)

  datatype Source = Source(
    packagesSeen: int,
    supported: int,
    anchor: int,
    loadBearing: int,
    lead: int,
    contradicted: int,
    accepted: int,
    validated: int,
    themes: set<string>)

  const UNKNOWN := Source(0, 0, 0, 0, 0, 0, 0, 0, {})

  type Sources = map<string, Source>

  /** What one package brings: its scorecard, its edges, its themes, and the claims it has retired. */
  datatype Package = Package(cards: seq<Card>, edges: seq<Edge>, themes: set<string>, retired: set<string>)

  function CountIf(edges: seq<Edge>, p: Edge -> bool): (n: nat)
    ensures n <= |edges|
  {
    if edges == [] then 0 else CountIf(edges[..|edges| - 1], p) + (if p(edges[|edges| - 1]) then 1 else 0)
  }

  function Supporting(c: string): Edge -> bool {
    (e: Edge) => e.citation == c && c != ""
  }

  function Bearing(c: string): Edge -> bool {
    (e: Edge) => e.citation == c && c != "" && e.loadBearing
  }

  function Contradicting(c: string, retired: set<string>): Edge -> bool {
    (e: Edge) => e.citation == c && c != "" && e.claim in retired
  }

  function Merged(prev: Source, card: Card, p: Package): Source {
    var supported := CountIf(p.edges, Supporting(card.citation));
    var anchors := card.role == "anchor";
    Source(
      prev.packagesSeen + 1,
      prev.supported + supported,
      prev.anchor + (if anchors then supported else 0),
      prev.loadBearing + CountIf(p.edges, Bearing(card.citation)),
      prev.lead + (if anchors && prev.packagesSeen == 0 && supported > 0 then 1 else 0),
      prev.contradicted + CountIf(p.edges, Contradicting(card.citation, p.retired)),
      Max(prev.accepted, card.accepted),
      Max(prev.validated, card.validated),
      prev.themes + p.themes)
  }

  function Known(sources: Sources, id: string): Source {
    if id in sources then sources[id] else UNKNOWN
  }

  function AfterCards(sources: Sources, p: Package, n: nat): Sources
    requires n <= |p.cards|
  {
    if n == 0 then sources
    else
      var before, card := AfterCards(sources, p, n - 1), p.cards[n - 1];
      if card.name == "" then before else before[card.source := Merged(Known(before, card.source), card, p)]
  }

  class ScoreLedger {
    var sources: Sources

    constructor ()
      ensures sources == map[]
    {
      sources := map[];
    }

    method Update(p: Package)
      modifies this
      ensures sources == AfterCards(old(sources), p, |p.cards|)
    {
      hide Merged;
      var supportedBy, bearingBy := CountByCitation(p.edges);
      for i := 0 to |p.cards|
        invariant sources == AfterCards(old(sources), p, i)
      {
        var card := p.cards[i];
        if card.name != "" {
          var supported := if card.citation in supportedBy then supportedBy[card.citation] else 0;
          var bearing := if card.citation in bearingBy then bearingBy[card.citation] else 0;
          assert CountsFor(supportedBy, card.citation, supported) && CountsFor(bearingBy, card.citation, bearing);
          var prev := if card.source in sources then sources[card.source] else UNKNOWN;
          var merged := Merge(prev, card, p, supported, bearing);
          sources := sources[card.source := merged];
        }
      }
    }

    static method Merge(prev: Source, card: Card, p: Package, supported: nat, bearing: nat) returns (merged: Source)
      requires supported == CountIf(p.edges, Supporting(card.citation))
      requires bearing == CountIf(p.edges, Bearing(card.citation))
      ensures merged == Merged(prev, card, p)
    {
      var anchors := card.role == "anchor";
      var lead := if anchors && prev.packagesSeen == 0 && supported > 0 then 1 else 0;
      var contradicted := 0;
      if p.retired != {} && supported > 0 {
        contradicted := CountContradicted(p.edges, card.citation, p.retired);
      } else {
        NothingContradicted(p.edges, card.citation, p.retired);
      }
      merged := Source(
        prev.packagesSeen + 1, prev.supported + supported, prev.anchor + (if anchors then supported else 0),
        prev.loadBearing + bearing, prev.lead + lead, prev.contradicted + contradicted,
        Max(prev.accepted, card.accepted), Max(prev.validated, card.validated), prev.themes + p.themes);
    }
  }

  predicate CountsFor(m: map<string, nat>, c: string, n: nat) {
    (if c in m then m[c] else 0) == n
  }

  method CountByCitation(edges: seq<Edge>) returns (supported: map<string, nat>, bearing: map<string, nat>)
    ensures forall c: string :: CountsFor(supported, c, CountIf(edges, Supporting(c)))
    ensures forall c: string :: CountsFor(bearing, c, CountIf(edges, Bearing(c)))
  {
    supported, bearing := map[], map[];
    for i := 0 to |edges|
      invariant forall c: string :: CountsFor(supported, c, CountIf(edges[..i], Supporting(c)))
      invariant forall c: string :: CountsFor(bearing, c, CountIf(edges[..i], Bearing(c)))
    {
      assert edges[..i + 1][..i] == edges[..i];
      var e := edges[i];
      if e.citation != "" {
        var n := if e.citation in supported then supported[e.citation] else 0;
        assert CountsFor(supported, e.citation, n);
        supported := supported[e.citation := n + 1];
        if e.loadBearing {
          var m := if e.citation in bearing then bearing[e.citation] else 0;
          assert CountsFor(bearing, e.citation, m);
          bearing := bearing[e.citation := m + 1];
        }
      }
    }
    assert edges[..|edges|] == edges;
  }

  method CountContradicted(edges: seq<Edge>, citation: string, retired: set<string>) returns (n: nat)
    ensures n == CountIf(edges, Contradicting(citation, retired))
  {
    n := 0;
    for i := 0 to |edges|
      invariant n == CountIf(edges[..i], Contradicting(citation, retired))
    {
      assert edges[..i + 1][..i] == edges[..i];
      if edges[i].citation == citation && citation != "" && edges[i].claim in retired {
        n := n + 1;
      }
    }
    assert edges[..|edges|] == edges;
  }

  lemma {:induction false} CountMonotone(edges: seq<Edge>, p: Edge -> bool, q: Edge -> bool)
    requires forall e | e in edges && p(e) :: q(e)
    ensures CountIf(edges, p) <= CountIf(edges, q)
  {
    if edges != [] {
      var front := edges[..|edges| - 1];
      assert forall e | e in front :: e in edges;
      CountMonotone(front, p, q);
    }
  }

  lemma NothingContradicted(edges: seq<Edge>, citation: string, retired: set<string>)
    requires retired == {} || CountIf(edges, Supporting(citation)) == 0
    ensures CountIf(edges, Contradicting(citation, retired)) == 0
  {
    CountMonotone(edges, Contradicting(citation, retired), Supporting(citation));
    CountNone(edges, Contradicting(citation, retired));
  }

  lemma {:induction false} CountNone(edges: seq<Edge>, p: Edge -> bool)
    ensures (forall e | e in edges :: !p(e)) ==> CountIf(edges, p) == 0
  {
    if edges != [] {
      var front := edges[..|edges| - 1];
      assert forall e | e in front :: e in edges;
      CountNone(front, p);
    }
  }

  // ---- What one row adds ---------------------------------------------------------------------------

  function Positions(edges: seq<Edge>, p: Edge -> bool): set<nat> {
    set i: nat | i < |edges| && p(edges[i])
  }

  lemma OneMorePosition(edges: seq<Edge>, p: Edge -> bool)
    requires edges != []
    ensures var n := |edges| - 1;
            && n !in Positions(edges[..n], p)
            && Positions(edges, p) == Positions(edges[..n], p) + (if p(edges[n]) then {n} else {})
  {
  }

  lemma {:induction false} CountIsSize(edges: seq<Edge>, p: Edge -> bool)
    ensures CountIf(edges, p) == |Positions(edges, p)|
  {
    if edges == [] {
      assert Positions(edges, p) == {};
    } else {
      hide Positions;
      OneMorePosition(edges, p);
      CountIsSize(edges[..|edges| - 1], p);
    }
  }

  /** The positions of the edges that cite this citation. */
  function Citing(edges: seq<Edge>, citation: string): set<nat> {
    set i: nat | i < |edges| && citation != "" && edges[i].citation == citation
  }

  /**
   * What one row adds to its source, counted over the edges that cite it: a supported claim each, a load-bearing one
   * where the edge is, a contradicted one where the claim was retired; for an anchor also an anchor claim each, and one
   * lead if the source was never seen before.
   */
  lemma RowAdds(prev: Source, card: Card, p: Package)
    ensures var after, citing := Merged(prev, card, p), Citing(p.edges, card.citation);
            && after.packagesSeen == prev.packagesSeen + 1
            && after.supported == prev.supported + |citing|
            && after.loadBearing == prev.loadBearing + |set i | i in citing && p.edges[i].loadBearing|
            && after.contradicted == prev.contradicted + |set i | i in citing && p.edges[i].claim in p.retired|
            && after.anchor == prev.anchor + (if card.role == "anchor" then |citing| else 0)
            && after.lead
               == prev.lead + (if card.role == "anchor" && prev.packagesSeen == 0 && citing != {} then 1 else 0)
            && after.accepted in {prev.accepted, card.accepted}
            && after.accepted >= prev.accepted && after.accepted >= card.accepted
            && after.validated in {prev.validated, card.validated}
            && after.validated >= prev.validated && after.validated >= card.validated
            && (forall theme :: theme in after.themes <==> theme in prev.themes || theme in p.themes)
  {
    var c, citing := card.citation, Citing(p.edges, card.citation);
    CountIsSize(p.edges, Supporting(c));
    CountIsSize(p.edges, Bearing(c));
    CountIsSize(p.edges, Contradicting(c, p.retired));
    assert citing == Positions(p.edges, Supporting(c));
    assert (set i | i in citing && p.edges[i].loadBearing) == Positions(p.edges, Bearing(c));
    assert (set i | i in citing && p.edges[i].claim in p.retired)
        == Positions(p.edges, Contradicting(c, p.retired));
    hide CountIf;
  }

  predicate IsNamed(p: Package, id: string) {
    exists i | 0 <= i < |p.cards| :: p.cards[i].name != "" && p.cards[i].source == id
  }

  /** A source that no named row mentions stays as it was. */
  lemma {:induction false} UnnamedSourcesStay(sources: Sources, p: Package, id: string, n: nat)
    requires n <= |p.cards| && forall i | 0 <= i < n && p.cards[i].name != "" :: p.cards[i].source != id
    ensures Known(AfterCards(sources, p, n), id) == Known(sources, id)
    ensures id in AfterCards(sources, p, n) <==> id in sources
  {
    if n > 0 {
      UnnamedSourcesStay(sources, p, id, n - 1);
    }
  }

  lemma {:induction false} LaterRowsLeaveIt(sources: Sources, p: Package, i: nat, n: nat)
    requires i < n <= |p.cards| && DistinctSources(p) && p.cards[i].name != ""
    ensures p.cards[i].source in AfterCards(sources, p, n)
    ensures AfterCards(sources, p, n)[p.cards[i].source] == Merged(Known(sources, p.cards[i].source), p.cards[i], p)
  {
    hide Merged;
    if i < n - 1 {
      LaterRowsLeaveIt(sources, p, i, n - 1);
    } else {
      UnnamedSourcesStay(sources, p, p.cards[i].source, i);
    }
  }

  /** With distinct sources, one update merges every named row into its source, and touches no other source. */
  lemma UpdateMergesEachRow(sources: Sources, p: Package)
    requires DistinctSources(p)
    ensures var after := AfterCards(sources, p, |p.cards|);
            && (forall i | 0 <= i < |p.cards| && p.cards[i].name != "" ::
                  && p.cards[i].source in after
                  && after[p.cards[i].source] == Merged(Known(sources, p.cards[i].source), p.cards[i], p))
            && (forall id: string | !IsNamed(p, id) :: Lookup(after, id) == Lookup(sources, id))
  {
    hide Merged;
    forall i | 0 <= i < |p.cards| && p.cards[i].name != ""
      ensures p.cards[i].source in AfterCards(sources, p, |p.cards|)
      ensures AfterCards(sources, p, |p.cards|)[p.cards[i].source]
           == Merged(Known(sources, p.cards[i].source), p.cards[i], p)
    {
      LaterRowsLeaveIt(sources, p, i, |p.cards|);
    }
    forall id: string | !IsNamed(p, id)
      ensures Lookup(AfterCards(sources, p, |p.cards|), id) == Lookup(sources, id)
    {
      UnnamedSourcesStay(sources, p, id, |p.cards|);
    }
  }

  function Lookup(sources: Sources, id: string): Option<Source> {
    if id in sources then Some(sources[id]) else None
  }

  // ---- Scores ------------------------------------------------------------------------------------

  function Share(n: int, cap: nat): real
    requires cap > 0
  {
    Min(n, cap) as real / cap as real
  }

  /** The quality score before it is rounded for display. */
  function Score(s: Source): real {
    0.15 * Share(s.accepted, 20) + 0.15 * Share(s.validated, 10) + 0.20 * Share(s.supported, 24)
    + 0.18 * Share(s.anchor, 12) + 0.17 * Share(s.loadBearing, 12) + 0.10 * Share(s.lead, 8)
    + 0.10 * Share(|s.themes|, 8) - 0.05 * Share(s.contradicted, 10)
  }

  predicate NonNegative(s: Source) {
    && 0 <= s.packagesSeen && 0 <= s.supported && 0 <= s.anchor && 0 <= s.loadBearing && 0 <= s.lead
    && 0 <= s.contradicted && 0 <= s.accepted && 0 <= s.validated
  }

  /** What every source in a ledger that grew from nothing satisfies. */
  predicate Reachable(s: Source) {
    && NonNegative(s)
    && s.anchor <= s.supported && s.loadBearing <= s.supported && s.contradicted <= s.supported
    && s.lead <= 1 && s.lead <= s.packagesSeen
  }

  lemma MergedReachable(prev: Source, card: Card, p: Package)
    requires Reachable(prev)
    ensures Reachable(Merged(prev, card, p))
  {
    CountMonotone(p.edges, Bearing(card.citation), Supporting(card.citation));
    CountMonotone(p.edges, Contradicting(card.citation, p.retired), Supporting(card.citation));
  }

  lemma {:induction false} CardsReachable(sources: Sources, p: Package, n: nat)
    requires n <= |p.cards|
    requires forall id | id in sources :: Reachable(sources[id])
    ensures forall id | id in AfterCards(sources, p, n) :: Reachable(AfterCards(sources, p, n)[id])
  {
    if n > 0 {
      CardsReachable(sources, p, n - 1);
      MergedReachable(Known(AfterCards(sources, p, n - 1), p.cards[n - 1].source), p.cards[n - 1], p);
    }
  }

  function After(packages: seq<Package>): Sources {
    if packages == [] then map[]
    else
      var p := packages[|packages| - 1];
      AfterCards(After(packages[..|packages| - 1]), p, |p.cards|)
  }

  lemma {:induction false} LedgerReachable(packages: seq<Package>)
    ensures forall id | id in After(packages) :: Reachable(After(packages)[id])
  {
    if packages != [] {
      LedgerReachable(packages[..|packages| - 1]);
      var p := packages[|packages| - 1];
      CardsReachable(After(packages[..|packages| - 1]), p, |p.cards|);
    }
  }

  lemma ShareBounds(n: int, cap: nat)
    requires cap > 0 && n >= 0
    ensures 0.0 <= Share(n, cap) <= 1.0
    ensures n >= cap ==> Share(n, cap) == 1.0
    ensures n == 0 ==> Share(n, cap) == 0.0
  {
  }

  /** A source known for one kind of signal only. */
  function Alone(accepted: int, validated: int, supported: int, anchor: int): Source {
    Source(0, supported, anchor, 0, 0, 0, accepted, validated, {})
  }

  function AloneToo(loadBearing: int, lead: int, contradicted: int): Source {
    Source(0, 0, 0, loadBearing, lead, contradicted, 0, 0, {})
  }

  /** The weight and the cap of each signal: what it is worth alone. */
  lemma EachSignalAlone(n: nat, themes: set<string>)
    ensures n <= 20 ==> Score(Alone(n, 0, 0, 0)) == 0.0075 * n as real
    ensures n <= 10 ==> Score(Alone(0, n, 0, 0)) == 0.015 * n as real
    ensures n <= 24 ==> 24.0 * Score(Alone(0, 0, n, 0)) == 0.2 * n as real
    ensures n <= 12 ==> Score(Alone(0, 0, 0, n)) == 0.015 * n as real
    ensures n <= 12 ==> 12.0 * Score(AloneToo(n, 0, 0)) == 0.17 * n as real
    ensures n <= 8 ==> Score(AloneToo(0, n, 0)) == 0.0125 * n as real
    ensures n <= 10 ==> Score(AloneToo(0, 0, n)) == -0.005 * n as real
    ensures |themes| <= 8 ==> Score(UNKNOWN.(themes := themes)) == 0.0125 * |themes| as real
  {
  }

  /** A score is the sum of what its signals are worth alone, and none is worth more than at its cap. */
  lemma SignalsAdd(s: Source)
    requires NonNegative(s)
    ensures Score(s) == Score(Alone(Min(s.accepted, 20), 0, 0, 0)) + Score(Alone(0, Min(s.validated, 10), 0, 0))
                      + Score(Alone(0, 0, Min(s.supported, 24), 0)) + Score(Alone(0, 0, 0, Min(s.anchor, 12)))
                      + Score(AloneToo(Min(s.loadBearing, 12), 0, 0)) + Score(AloneToo(0, Min(s.lead, 8), 0))
                      + Score(AloneToo(0, 0, Min(s.contradicted, 10)))
                      + 0.0125 * Min(|s.themes|, 8) as real
  {
    ShareOfMin(s.accepted, 20);
    ShareOfMin(s.validated, 10);
    ShareOfMin(s.supported, 24);
    ShareOfMin(s.anchor, 12);
    ShareOfMin(s.loadBearing, 12);
    ShareOfMin(s.lead, 8);
    ShareOfMin(s.contradicted, 10);
    assert 0.10 * Share(|s.themes|, 8) == 0.0125 * Min(|s.themes|, 8) as real;
  }

  lemma ShareOfMin(n: int, cap: nat)
    requires n >= 0 && cap > 0
    ensures Share(Min(n, cap), cap) == Share(n, cap) && Share(0, cap) == 0.0
  {
  }

  /** The formula alone, on any counters, only bounds the score by -0.05 and 1.05; both ends are taken. */
  lemma FormulaBounds(s: Source)
    requires NonNegative(s)
    ensures -0.05 <= Score(s) <= 1.05
  {
    ShareBounds(s.accepted, 20);
    ShareBounds(s.validated, 10);
    ShareBounds(s.supported, 24);
    ShareBounds(s.anchor, 12);
    ShareBounds(s.loadBearing, 12);
    ShareBounds(s.lead, 8);
    ShareBounds(|s.themes|, 8);
    ShareBounds(s.contradicted, 10);
    hide Share;
  }

  lemma FormulaBoundsAreTight(themes: set<string>)
    requires |themes| >= 8
    ensures Score(Source(0, 0, 0, 0, 0, 10, 0, 0, {})) == -0.05
    ensures Score(Source(0, 24, 12, 12, 8, 0, 20, 10, themes)) == 1.05
  {
  }

  /** With every contradiction paid for by a supported claim the penalty cannot outweigh the support. */
  lemma PenaltyIsCovered(supported: int, contradicted: int)
    requires 0 <= contradicted <= supported
    ensures 0.05 * Share(contradicted, 10) <= 0.20 * Share(supported, 24)
  {
  }

  /**
   * Every score a ledger can reach by any sequence of packages lies between 0 and 0.9625: contradictions never exceed
   * supported claims, and a source leads at most once.
   */
  lemma ReachableScores(packages: seq<Package>, id: string)
    requires id in After(packages)
    ensures 0.0 <= Score(After(packages)[id]) <= 0.9625
  {
    LedgerReachable(packages);
    var s := After(packages)[id];
    hide After, Share;
    ReachableBounds(s);
  }

  lemma ReachableBounds(s: Source)
    requires Reachable(s)
    ensures 0.0 <= Score(s) <= 0.9625
  {
    ShareBounds(s.accepted, 20);
    ShareBounds(s.validated, 10);
    ShareBounds(s.supported, 24);
    ShareBounds(s.anchor, 12);
    ShareBounds(s.loadBearing, 12);
    ShareBounds(s.contradicted, 10);
    ShareBounds(|s.themes|, 8);
    PenaltyIsCovered(s.supported, s.contradicted);
    assert 0.0 <= Share(s.lead, 8) <= 0.125;
    hide Share;
  }

  function EdgesTo(citation: string, claims: seq<string>): (edges: seq<Edge>)
    ensures |edges| == |claims|
    ensures forall i | 0 <= i < |claims| :: edges[i] == Edge(citation, claims[i], true)
  {
    seq(|claims|, i requires 0 <= i < |claims| => Edge(citation, claims[i], true))
  }

  /** One package is enough to reach the top: an anchor source that supports 24 different load-bearing claims. */
  lemma TopScoreIsReached(card: Card, claims: seq<string>, themes: set<string>)
    requires card.name != "" && card.citation != "" && card.role == "anchor"
    requires card.accepted == 20 && card.validated == 10 && |themes| == 8
    requires |claims| == 24 && Distinct(claims) && "" !in claims
    ensures var p := Package([card], EdgesTo(card.citation, claims), themes, {});
            card.source in After([p]) && Score(After([p])[card.source]) == 0.9625
  {
    var edges := EdgesTo(card.citation, claims);
    var p := Package([card], edges, themes, {});
    CountAll(edges, Supporting(card.citation));
    CountAll(edges, Bearing(card.citation));
    NothingContradicted(edges, card.citation, {});
    assert [p][..0] == [];
    assert After([p]) == AfterCards(After([]), p, 1) == map[card.source := Merged(UNKNOWN, card, p)];
    assert {} + themes == themes;
    assert Merged(UNKNOWN, card, p) == Source(1, 24, 24, 24, 1, 0, 20, 10, themes);
  }

  lemma {:induction false} CountAll(edges: seq<Edge>, p: Edge -> bool)
    requires forall e | e in edges :: p(e)
    ensures CountIf(edges, p) == |edges|
  {
    if edges != [] {
      var front := edges[..|edges| - 1];
      assert forall e | e in front :: e in edges;
      CountAll(front, p);
    }
  }

  // ---- Where the edges go ------------------------------------------------------------------------

  /** The edges counted for the named rows of one source. */
  function EdgesFor(p: Package, id: string, n: nat): nat
    requires n <= |p.cards|
  {
    if n == 0 then 0
    else EdgesFor(p, id, n - 1)
         + (if p.cards[n - 1].name != "" && p.cards[n - 1].source == id
            then CountIf(p.edges, Supporting(p.cards[n - 1].citation)) else 0)
  }

  /** A source's supported count grows by exactly the edges of its own rows, one row at a time. */
  lemma {:induction false} SupportGrowsByOwnEdges(sources: Sources, p: Package, id: string, n: nat)
    requires n <= |p.cards|
    ensures Known(AfterCards(sources, p, n), id).supported == Known(sources, id).supported + EdgesFor(p, id, n)
  {
    if n > 0 {
      SupportGrowsByOwnEdges(sources, p, id, n - 1);
    }
  }

  function TotalCounted(p: Package, n: nat): nat
    requires n <= |p.cards|
  {
    if n == 0 then 0
    else TotalCounted(p, n - 1)
         + (if p.cards[n - 1].name != "" then CountIf(p.edges, Supporting(p.cards[n - 1].citation)) else 0)
  }

  predicate CitedByFirst(p: Package, n: nat, e: Edge)
    requires n <= |p.cards|
  {
    exists i | 0 <= i < n :: p.cards[i].name != "" && p.cards[i].citation == e.citation
  }

  predicate DistinctCitations(p: Package) {
    && (forall i | 0 <= i < |p.cards| && p.cards[i].name != "" :: p.cards[i].citation != "")
    && (forall i, j | 0 <= i < j < |p.cards| && p.cards[i].name != "" && p.cards[j].name != "" ::
          p.cards[i].citation != p.cards[j].citation)
  }

  lemma {:induction false} CountDisjoint(edges: seq<Edge>, p: Edge -> bool, q: Edge -> bool, either: Edge -> bool)
    requires forall e | e in edges :: !(p(e) && q(e)) && (either(e) <==> p(e) || q(e))
    ensures CountIf(edges, p) + CountIf(edges, q) == CountIf(edges, either)
  {
    if edges != [] {
      var front := edges[..|edges| - 1];
      assert forall e | e in front :: e in edges;
      CountDisjoint(front, p, q, either);
    }
  }

  /**
   * No edge is counted twice and none is lost: with distinct citations, what the rows add up to is the number of
   * edges whose citation some row of the scorecard has.
   */
  lemma {:induction false} EdgesAreConserved(p: Package, n: nat)
    requires n <= |p.cards| && DistinctCitations(p)
    ensures TotalCounted(p, n) == CountIf(p.edges, (e: Edge) => CitedByFirst(p, n, e))
  {
    if n == 0 {
      CountNone(p.edges, (e: Edge) => CitedByFirst(p, 0, e));
    } else {
      EdgesAreConserved(p, n - 1);
      var card := p.cards[n - 1];
      var q := if card.name != "" then Supporting(card.citation) else (e: Edge) => false;
      CountNone(p.edges, (e: Edge) => false);
      forall e | e in p.edges
        ensures !(CitedByFirst(p, n - 1, e) && q(e)) && (CitedByFirst(p, n, e) <==> CitedByFirst(p, n - 1, e) || q(e))
      {
      }
      CountDisjoint(p.edges, (e: Edge) => CitedByFirst(p, n - 1, e), q, (e: Edge) => CitedByFirst(p, n, e));
    }
  }

  predicate DistinctSources(p: Package) {
    forall i, j | 0 <= i < j < |p.cards| && p.cards[i].name != "" && p.cards[j].name != "" ::
      p.cards[i].source != p.cards[j].source
  }

  lemma {:induction false} OnlyOwnRow(p: Package, i: nat, n: nat)
    requires i < |p.cards| && n <= |p.cards| && DistinctSources(p) && p.cards[i].name != ""
    ensures EdgesFor(p, p.cards[i].source, n) == if i < n then CountIf(p.edges, Supporting(p.cards[i].citation)) else 0
  {
    if n > 0 {
      OnlyOwnRow(p, i, n - 1);
    }
  }

  /** How much the supported counts of the scorecard's sources differ between two ledgers, row by row. */
  function Growth(before: Sources, after: Sources, p: Package, n: nat): int
    requires n <= |p.cards|
  {
    if n == 0 then 0
    else
      var id := p.cards[n - 1].source;
      Growth(before, after, p, n - 1)
      + (if p.cards[n - 1].name != "" then Known(after, id).supported - Known(before, id).supported else 0)
  }

  lemma {:induction false} GrowthIsCounted(sources: Sources, p: Package, n: nat)
    requires n <= |p.cards| && DistinctSources(p)
    ensures Growth(sources, AfterCards(sources, p, |p.cards|), p, n) == TotalCounted(p, n)
  {
    if n > 0 {
      GrowthIsCounted(sources, p, n - 1);
      SupportGrowsByOwnEdges(sources, p, p.cards[n - 1].source, |p.cards|);
      if p.cards[n - 1].name != "" {
        OnlyOwnRow(p, n - 1, |p.cards|);
      }
    }
  }

  /**
   * With distinct sources and citations, and every edge citing a row of the scorecard, one update adds to the
   * supported counts of those sources exactly as many claims as there are edges, whatever the ledger held before.
   */
  lemma IncrementsSumToEdges(sources: Sources, p: Package)
    requires DistinctSources(p) && DistinctCitations(p)
    requires forall e | e in p.edges :: CitedByFirst(p, |p.cards|, e)
    ensures Growth(sources, AfterCards(sources, p, |p.cards|), p, |p.cards|) == |p.edges|
  {
    GrowthIsCounted(sources, p, |p.cards|);
    EdgesAreConserved(p, |p.cards|);
    CountAll(p.edges, (e: Edge) => CitedByFirst(p, |p.cards|, e));
  }
}
