/** Walks over the undirected weighted links of `python_graphs/main.py`,
    their weights, the extended distances `find_path` stores (a number or
    `float('inf')`), and the potential argument behind Dijkstra's bound. */
module GraphPaths {

  /** A vertex is known by its identity only. */
  type Vertex = nat

  /** `Link(v1, v2)` has weight 1; `LinkMetro(v1, v2, dist)` sets the weight. */
  datatype Link = Link(v1: Vertex, v2: Vertex, dist: int)

  /** `Link(v1, v2)`: a link of the default weight 1. */
  function DefaultLink(v1: Vertex, v2: Vertex): (l: Link)
    ensures l.v1 == v1 && l.v2 == v2 && l.dist == 1
  {
    Link(v1, v2, 1)
  }

  /** `{i.v1, i.v2} == {link.v1, link.v2}`: the same unordered pair of ends. */
  predicate SamePair(a: Link, b: Link)
  {
    {a.v1, a.v2} == {b.v1, b.v2}
  }

  lemma SamePairIff(a: Link, b: Link)
    ensures SamePair(a, b) <==> (a.v1 == b.v1 && a.v2 == b.v2) || (a.v1 == b.v2 && a.v2 == b.v1)
  {
    if SamePair(a, b) {
      assert a.v1 in {b.v1, b.v2} && a.v2 in {b.v1, b.v2};
      assert b.v1 in {a.v1, a.v2} && b.v2 in {a.v1, a.v2};
    }
  }

  /** Link `l` runs between `a` and `b`, in either direction. */
  predicate Joins(l: Link, a: Vertex, b: Vertex)
  {
    (l.v1 == a && l.v2 == b) || (l.v1 == b && l.v2 == a)
  }

  /** `link.v1 if link.v1 != min_vertex else link.v2`. */
  function Other(l: Link, u: Vertex): Vertex
  {
    if l.v1 != u then l.v1 else l.v2
  }

  lemma OtherJoins(l: Link, u: Vertex)
    requires l.v1 == u || l.v2 == u
    ensures Joins(l, u, Other(l, u))
  {
  }

  /** `p` visits vertices joined one after the other by the links `es`, all of `links`. */
  predicate IsWalk(links: seq<Link>, p: seq<Vertex>, es: seq<Link>)
  {
    |p| == |es| + 1 && forall i :: 0 <= i < |es| ==> es[i] in links && Joins(es[i], p[i], p[i + 1])
  }

  /** Some walk over `links` leads from `a` to `b`. */
  ghost predicate Connected(links: seq<Link>, a: Vertex, b: Vertex)
  {
    exists p, es :: IsWalk(links, p, es) && p[0] == a && p[|p| - 1] == b
  }

  /** `sum([x.dist for x in links])`. */
  function Weight(es: seq<Link>): int
  {
    if es == [] then 0 else es[0].dist + Weight(es[1..])
  }

  lemma {:induction false} WeightSnoc(es: seq<Link>, l: Link)
    ensures Weight(es + [l]) == Weight(es) + l.dist
  {
    if es != [] {
      assert (es + [l])[1..] == es[1..] + [l];
      WeightSnoc(es[1..], l);
    }
  }

  predicate Positive(links: seq<Link>)
  {
    forall i :: 0 <= i < |links| ==> links[i].dist > 0
  }

  lemma {:induction false} WeightPositive(links: seq<Link>, es: seq<Link>)
    requires Positive(links) && forall i :: 0 <= i < |es| ==> es[i] in links
    ensures Weight(es) >= |es|
  {
    if es != [] {
      WeightPositive(links, es[1..]);
    }
  }

  /** Every link of `links` was made by `Link(v1, v2)` and kept weight 1. */
  predicate AllDefault(links: seq<Link>)
  {
    forall i :: 0 <= i < |links| ==> links[i] == DefaultLink(links[i].v1, links[i].v2)
  }

  /** Over links of the default weight the weights are positive and a walk
      weighs its number of links. */
  lemma {:induction false} DefaultWeightIsLength(links: seq<Link>, es: seq<Link>)
    requires AllDefault(links) && forall i :: 0 <= i < |es| ==> es[i] in links
    ensures Positive(links) && Weight(es) == |es|
  {
    if es != [] {
      DefaultWeightIsLength(links, es[1..]);
    }
  }

  /** In a graph of default links, a walk no heavier than another has no
      more links: the lightest path `find_path` returns is a shortest one. */
  lemma LightestIsShortest(links: seq<Link>, p: seq<Vertex>, es: seq<Link>, q: seq<Vertex>, fs: seq<Link>)
    requires AllDefault(links) && IsWalk(links, p, es) && IsWalk(links, q, fs)
    requires Weight(es) <= Weight(fs)
    ensures |es| <= |fs|
  {
    DefaultWeightIsLength(links, es);
    DefaultWeightIsLength(links, fs);
  }

  lemma WalkSuffix(links: seq<Link>, p: seq<Vertex>, es: seq<Link>)
    requires IsWalk(links, p, es) && es != []
    ensures IsWalk(links, p[1..], es[1..])
  {
    forall i | 0 <= i < |es| - 1
      ensures es[1..][i] in links && Joins(es[1..][i], p[1..][i], p[1..][i + 1])
    {
      assert es[1..][i] == es[i + 1];
    }
  }

  lemma WalkSnoc(links: seq<Link>, p: seq<Vertex>, es: seq<Link>, l: Link, v: Vertex)
    requires IsWalk(links, p, es) && l in links && Joins(l, p[|p| - 1], v)
    ensures IsWalk(links, p + [v], es + [l])
  {
  }

  // ---------------------------------------------------------------------
  // Extended distances
  // ---------------------------------------------------------------------

  /** A distance of `find_path`: a number, or `float('inf')` for "not reached". */
  datatype Dist = Fin(n: int) | Inf

  /** Python's `<` between two such values. */
  predicate Less(a: Dist, b: Dist)
  {
    match (a, b)
    case (Fin(x), Fin(y)) => x < y
    case (Fin(_), Inf) => true
    case (Inf, _) => false
  }

  predicate Le(a: Dist, b: Dist)
  {
    !Less(b, a)
  }

  /** `d[min_vertex][0] + link.dist`: infinity absorbs any weight. */
  function Plus(a: Dist, w: int): Dist
  {
    match a
    case Fin(x) => Fin(x + w)
    case Inf => Inf
  }

  lemma LeTrans(a: Dist, b: Dist, c: Dist)
    requires Le(a, b) && Le(b, c)
    ensures Le(a, c)
  {
  }

  lemma PlusMono(a: Dist, b: Dist, w: int)
    requires Le(a, b)
    ensures Le(Plus(a, w), Plus(b, w))
  {
  }

  // ---------------------------------------------------------------------
  // Potentials
  // ---------------------------------------------------------------------

  /** A distance estimate that is zero at `stop` and that no link can
      improve: across every link, the two ends differ by at most its weight. */
  ghost predicate Feasible(links: seq<Link>, pot: map<Vertex, Dist>, stop: Vertex)
  {
    && stop in pot && pot[stop] == Fin(0)
    && forall i :: 0 <= i < |links| ==>
         && links[i].v1 in pot && links[i].v2 in pot
         && Le(pot[links[i].v1], Plus(pot[links[i].v2], links[i].dist))
         && Le(pot[links[i].v2], Plus(pot[links[i].v1], links[i].dist))
  }

  /** Under a feasible estimate, every walk to `stop` weighs at least the
      estimate at its first vertex; in particular that estimate is finite. */
  lemma {:induction false} WalkBound(links: seq<Link>, pot: map<Vertex, Dist>, stop: Vertex, p: seq<Vertex>, es: seq<Link>)
    requires Feasible(links, pot, stop) && IsWalk(links, p, es) && p[|p| - 1] == stop
    ensures p[0] in pot && Le(pot[p[0]], Fin(Weight(es)))
    decreases |es|
  {
    if es != [] {
      WalkSuffix(links, p, es);
      WalkBound(links, pot, stop, p[1..], es[1..]);
      var i :| 0 <= i < |links| && links[i] == es[0];
      assert Joins(es[0], p[0], p[1]);
      assert Le(pot[p[0]], Plus(pot[p[1]], es[0].dist));
      PlusMono(pot[p[1]], Fin(Weight(es[1..])), es[0].dist);
      LeTrans(pot[p[0]], Plus(pot[p[1]], es[0].dist), Fin(Weight(es)));
    }
  }
}
