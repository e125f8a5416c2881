/** The metro map built at the bottom of `python_graphs/main.py`: seven
    stations, eight links with their travel times, and the route asked for
    from "Sretensky Bulvar" (1) to "Kitay-Gorod 1" (6). */
module MetroMap {

  import opened GraphPaths
  import opened LinkedGraphs

  const L12 := Link(1, 2, 1)
  const L23 := Link(2, 3, 1)
  const L13 := Link(1, 3, 1)
  const L45 := Link(4, 5, 1)
  const L67 := Link(6, 7, 1)
  const L27 := Link(2, 7, 5)
  const L34 := Link(3, 4, 3)
  const L56 := Link(5, 6, 3)

  /** The links in the order they are added. */
  const METRO: seq<Link> := [L12, L23, L13, L45, L67, L27, L34, L56]

  /** The travel time from each station to station 6. */
  const TO_SIX: map<Vertex, Dist> := map[1 := Fin(7), 2 := Fin(6), 3 := Fin(7), 4 := Fin(4), 5 := Fin(3), 6 := Fin(0), 7 := Fin(1)]

  lemma ToSixFeasible()
    ensures Feasible(METRO, TO_SIX, 6)
  {
  }

  /** Along a walk that weighs exactly its start's estimate, the first link
      uses up exactly the drop in the estimate, and the rest of the walk is
      again exact. */
  lemma TightHead(links: seq<Link>, pot: map<Vertex, Dist>, stop: Vertex, p: seq<Vertex>, es: seq<Link>)
    requires Feasible(links, pot, stop) && Positive(links)
    requires IsWalk(links, p, es) && p[|p| - 1] == stop
    requires p[0] in pot && pot[p[0]] == Fin(Weight(es))
    ensures Weight(es) == 0 ==> es == [] && p == [stop]
    ensures es != [] ==>
      && IsWalk(links, p[1..], es[1..]) && p[1] in pot && pot[p[1]] == Fin(Weight(es[1..]))
      && Joins(es[0], p[0], p[1]) && es[0] in links && es[0].dist == Weight(es) - Weight(es[1..])
  {
    WeightPositive(links, es);
    if es != [] {
      WalkSuffix(links, p, es);
      WalkBound(links, pot, stop, p[1..], es[1..]);
      var i :| 0 <= i < |links| && links[i] == es[0];
      assert Le(pot[p[0]], Plus(pot[p[1]], es[0].dist));
    }
  }

  /** The links of the map that leave `u`, with the station they lead to. */
  lemma LinkFrom(l: Link, u: Vertex, v: Vertex)
    requires l in METRO && Joins(l, u, v)
    ensures u == 1 ==> (l, v) in {(L12, 2), (L13, 3)}
    ensures u == 2 ==> (l, v) in {(L12, 1), (L23, 3), (L27, 7)}
    ensures u == 7 ==> (l, v) in {(L67, 6), (L27, 2)}
  {
  }

  /** Every walk of the map to station 6 takes at least the time listed for its start. */
  lemma MetroBound(p: seq<Vertex>, es: seq<Link>)
    requires IsWalk(METRO, p, es) && p[|p| - 1] == 6
    ensures p[0] in TO_SIX && Le(TO_SIX[p[0]], Fin(Weight(es)))
  {
    ToSixFeasible();
    WalkBound(METRO, TO_SIX, 6, p, es);
  }

  /** `TightHead` on the map. */
  lemma MetroTight(p: seq<Vertex>, es: seq<Link>)
    requires IsWalk(METRO, p, es) && p[|p| - 1] == 6
    requires p[0] in TO_SIX && TO_SIX[p[0]] == Fin(Weight(es))
    ensures Weight(es) == 0 ==> es == [] && p == [6]
    ensures es != [] ==>
      && IsWalk(METRO, p[1..], es[1..]) && p[1] in TO_SIX && TO_SIX[p[1]] == Fin(Weight(es[1..]))
      && Joins(es[0], p[0], p[1]) && es[0] in METRO && es[0].dist == Weight(es) - Weight(es[1..])
  {
    ToSixFeasible();
    TightHead(METRO, TO_SIX, 6, p, es);
  }

  lemma TightFrom7(p: seq<Vertex>, es: seq<Link>)
    requires IsWalk(METRO, p, es) && p[0] == 7 && p[|p| - 1] == 6 && Weight(es) == 1
    ensures p == [7, 6] && es == [L67]
  {
    MetroTight(p, es);
    LinkFrom(es[0], 7, p[1]);
    assert es[0] == L67 && p[1] == 6;
    MetroTight(p[1..], es[1..]);
    assert p == [p[0]] + p[1..];
    assert es == [es[0]] + es[1..];
  }

  lemma TightFrom2(p: seq<Vertex>, es: seq<Link>)
    requires IsWalk(METRO, p, es) && p[0] == 2 && p[|p| - 1] == 6 && Weight(es) == 6
    ensures p == [2, 7, 6] && es == [L27, L67]
  {
    MetroTight(p, es);
    LinkFrom(es[0], 2, p[1]);
    assert es[0] == L27 && p[1] == 7;
    TightFrom7(p[1..], es[1..]);
    assert p == [p[0]] + p[1..];
    assert es == [es[0]] + es[1..];
  }

  /** The only walk from station 1 to station 6 of travel time 7 or less. */
  lemma TightFrom1(p: seq<Vertex>, es: seq<Link>)
    requires IsWalk(METRO, p, es) && p[0] == 1 && p[|p| - 1] == 6 && Weight(es) <= 7
    ensures p == [1, 2, 7, 6] && es == [L12, L27, L67]
  {
    MetroBound(p, es);
    assert Weight(es) == 7;
    MetroTight(p, es);
    LinkFrom(es[0], 1, p[1]);
    assert es[0] == L12 && p[1] == 2;
    TightFrom2(p[1..], es[1..]);
    assert p == [p[0]] + p[1..];
    assert es == [es[0]] + es[1..];
  }

  /** No link of the map joins the same two stations as an earlier one. */
  lemma MetroPairsNew(k: nat)
    requires k < |METRO|
    ensures NewPair(METRO[..k], METRO[k])
  {
    forall i | 0 <= i < k
      ensures !SamePair(METRO[..k][i], METRO[k])
    {
      SamePairIff(METRO[i], METRO[k]);
    }
  }

  /** The station list after the first `k` links. */
  const LISTED: seq<seq<Vertex>> := [[], [1, 2], [1, 2, 3], [1, 2, 3], [1, 2, 3, 4, 5],
                                     [1, 2, 3, 4, 5, 6, 7], [1, 2, 3, 4, 5, 6, 7],
                                     [1, 2, 3, 4, 5, 6, 7], [1, 2, 3, 4, 5, 6, 7]]

  lemma ListedStep(k: nat)
    requires k < |METRO|
    ensures LISTED[k + 1] == WithVertex(WithVertex(LISTED[k], METRO[k].v1), METRO[k].v2)
  {
    match k
    case 0 => case 1 => case 2 => case 3 => case 4 => case 5 => case 6 => case 7 =>
  }

  /** `map_metro.add_link(...)` of the next link of the map: it is always taken. */
  method AddMetroLink(g: LinkedGraph, k: nat)
    requires k < |METRO| && g.Valid() && g.links == METRO[..k] && g.vertex == LISTED[k]
    modifies g
    ensures g.Valid() && g.links == METRO[..k + 1] && g.vertex == LISTED[k + 1]
  {
    MetroPairsNew(k);
    ListedStep(k);
    g.AddLink(METRO[k]);
    assert METRO[..k + 1] == METRO[..k] + [METRO[k]];
  }

  /** The eight `add_link` calls: every link is kept and the seven
      stations are listed in the order they first appear. */
  method BuildMetro() returns (g: LinkedGraph)
    ensures fresh(g) && g.Valid() && g.links == METRO && g.vertex == [1, 2, 3, 4, 5, 6, 7]
  {
    g := new LinkedGraph();
    AddMetroLink(g, 0);
    AddMetroLink(g, 1);
    AddMetroLink(g, 2);
    AddMetroLink(g, 3);
    AddMetroLink(g, 4);
    AddMetroLink(g, 5);
    AddMetroLink(g, 6);
    AddMetroLink(g, 7);
    assert METRO[..8] == METRO;
  }

  lemma RouteWeight()
    ensures IsWalk(METRO, [1, 2, 7, 6], [L12, L27, L67]) && Weight([L12, L27, L67]) == 7
  {
    assert [L12, L27, L67][1..] == [L27, L67];
    assert [L27, L67][1..] == [L67];
    assert [L67][1..] == [];
    assert Weight([L67]) == 1;
    assert Weight([L27, L67]) == 6;
  }

  /** The script: build the map, then ask for the route from 1 to 6.  It
      finds the stations 1, 2, 7, 6 over three links of total time 7. */
  method MetroExample() returns (linkCount: nat, vertexCount: nat, route: seq<Vertex>, routeLinks: seq<Link>)
    ensures linkCount == 8 && vertexCount == 7
    ensures route == [1, 2, 7, 6] && routeLinks == [L12, L27, L67] && Weight(routeLinks) == 7
  {
    var mapMetro := BuildMetro();
    linkCount, vertexCount := |mapMetro.links|, |mapMetro.vertex|;
    RouteWeight();
    route, routeLinks := mapMetro.FindPath(1, 6);
    TightFrom1(route, routeLinks);
  }
}
