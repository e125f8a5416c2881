/** `LinkedGraph` of `python_graphs/main.py`: vertices and undirected
    weighted links added one at a time, with no two links between the same
    pair of vertices, and `find_path`, Dijkstra's algorithm rooted at the
    destination followed by a walk back along the recorded predecessors. */
module LinkedGraphs {

  import opened Wrappers
  import opened GraphPaths

  predicate NoDup<T(==)>(s: seq<T>)
  {
    forall i, j :: 0 <= i < j < |s| ==> s[i] != s[j]
  }

  lemma {:induction false} NoDupCount<T>(s: seq<T>, x: T)
    requires NoDup(s) && x in s
    ensures multiset(s)[x] == 1
  {
    assert s == [s[0]] + s[1..];
    if s[0] == x {
      assert x !in s[1..] by {
        forall k | 1 <= k < |s|
          ensures s[k] != x
        {
          assert s[0] != s[k];
        }
      }
    } else {
      NoDupCount(s[1..], x);
    }
  }

  // ---------------------------------------------------------------------
  // The per-vertex link lists
  // ---------------------------------------------------------------------

  /** What `add_link` appends to the list of vertex `v` for link `l`:
      `link.v1.links.append(link)`, then `link.v2.links.append(link)`. */
  function Ends(l: Link, v: Vertex): seq<Link>
  {
    (if l.v1 == v then [l] else []) + (if l.v2 == v then [l] else [])
  }

  /** The list of vertex `v` after the links `links` were added in order. */
  function IncidentOf(links: seq<Link>, v: Vertex): seq<Link>
    decreases |links|
  {
    if links == [] then [] else IncidentOf(links[..|links| - 1], v) + Ends(links[|links| - 1], v)
  }

  lemma IncidentSnoc(links: seq<Link>, l: Link, v: Vertex)
    ensures IncidentOf(links + [l], v) == IncidentOf(links, v) + Ends(l, v)
  {
    assert (links + [l])[..|links|] == links;
  }

  /** A vertex's list holds exactly the graph's links that end at it. */
  lemma {:induction false} IncidentIff(links: seq<Link>, v: Vertex, l: Link)
    ensures l in IncidentOf(links, v) <==> l in links && (l.v1 == v || l.v2 == v)
    decreases |links|
  {
    if links != [] {
      var init, last := links[..|links| - 1], links[|links| - 1];
      assert links == init + [last];
      IncidentIff(init, v, l);
    }
  }

  // ---------------------------------------------------------------------
  // The state of `find_path`
  // ---------------------------------------------------------------------

  /** `d[v]`: the tentative distance to the destination, the link that
      gave it and the vertex at its other end. */
  datatype Entry = Entry(dist: Dist, link: Option<Link>, from: Option<Vertex>)

  type Table = map<Vertex, Entry>

  /** `plan_to_visit.remove(x)`: the list without its first `x`. */
  function RemoveFirst(s: seq<Vertex>, x: Vertex): (r: seq<Vertex>)
    ensures x in s ==> |r| == |s| - 1
    ensures forall v :: v in r ==> v in s
  {
    if s == [] then []
    else if s[0] == x then s[1..]
    else [s[0]] + RemoveFirst(s[1..], x)
  }

  lemma NoDupTail(s: seq<Vertex>)
    requires NoDup(s) && s != []
    ensures NoDup(s[1..]) && s[0] !in s[1..]
  {
    forall k | 1 <= k < |s|
      ensures s[k] != s[0]
    {
      assert s[0] != s[k];
    }
  }

  /** On a list without repetitions, `remove` takes away exactly `x`. */
  lemma {:induction false} RemoveFirstNoDup(s: seq<Vertex>, x: Vertex)
    requires NoDup(s)
    ensures NoDup(RemoveFirst(s, x)) && forall v :: v in RemoveFirst(s, x) <==> v in s && v != x
  {
    if s != [] {
      NoDupTail(s);
      if s[0] != x {
        RemoveFirstNoDup(s[1..], x);
        var r := RemoveFirst(s[1..], x);
        assert RemoveFirst(s, x) == [s[0]] + r;
        forall i, j | 0 <= i < j < |[s[0]] + r|
          ensures ([s[0]] + r)[i] != ([s[0]] + r)[j]
        {
          if i == 0 {
            assert r[j - 1] in r;
          } else {
            assert r[i - 1] != r[j - 1];
          }
        }
      }
    }
  }

  /** A vertex already taken off `plan_to_visit`. */
  predicate Visited(d: Table, plan: seq<Vertex>, u: Vertex)
  {
    u in d && u !in plan
  }

  function Dists(d: Table): map<Vertex, Dist>
  {
    map v | v in d :: d[v].dist
  }

  ghost predicate Keyed(links: seq<Link>, d: Table, plan: seq<Vertex>)
  {
    && (forall v :: v in plan ==> v in d)
    && forall i :: 0 <= i < |links| ==> links[i].v1 in d && links[i].v2 in d
  }

  /** The destination is at distance 0 and is the only vertex there;
      every finite distance is non-negative. */
  ghost predicate Rooted(stop: Vertex, d: Table)
  {
    && (stop in d ==> d[stop].dist == Fin(0))
    && forall v :: v in d && d[v].dist.Fin? ==> d[v].dist.n >= 0 && (d[v].dist.n == 0 ==> v == stop)
  }

  /** Vertex `v` got its distance over its recorded link from a vertex
      already visited, whose distance is smaller by that link's weight. */
  ghost predicate HasPred(links: seq<Link>, d: Table, plan: seq<Vertex>, v: Vertex)
    requires v in d && d[v].dist.Fin?
  {
    && d[v].link.Some? && d[v].from.Some?
    && Visited(d, plan, d[v].from.value)
    && d[v].link.value in links && Joins(d[v].link.value, d[v].from.value, v)
    && d[d[v].from.value].dist == Fin(d[v].dist.n - d[v].link.value.dist)
  }

  ghost predicate Traced(links: seq<Link>, stop: Vertex, d: Table, plan: seq<Vertex>)
  {
    forall v :: v in d && d[v].dist.Fin? && v != stop ==> HasPred(links, d, plan, v)
  }

  /** No link out of a visited vertex can still shorten a distance. */
  ghost predicate Relaxed(links: seq<Link>, d: Table, plan: seq<Vertex>)
    requires Keyed(links, d, plan)
  {
    forall u, i :: Visited(d, plan, u) && 0 <= i < |links| && (links[i].v1 == u || links[i].v2 == u) ==>
      Le(d[Other(links[i], u)].dist, Plus(d[u].dist, links[i].dist))
  }

  /** Vertices leave the plan in order of distance. */
  ghost predicate Ordered(d: Table, plan: seq<Vertex>)
    requires forall v :: v in plan ==> v in d
  {
    forall u, w :: Visited(d, plan, u) && w in plan ==> Le(d[u].dist, d[w].dist)
  }

  ghost predicate Inv(links: seq<Link>, stop: Vertex, d: Table, plan: seq<Vertex>)
  {
    && Keyed(links, d, plan) && Rooted(stop, d) && Traced(links, stop, d, plan)
    && Relaxed(links, d, plan) && Ordered(d, plan) && NoDup(plan)
  }

  /** `d[v]` was lowered by relaxing a link of `es` out of `m`. */
  ghost predicate Improved(d: Table, d': Table, m: Vertex, es: seq<Link>, v: Vertex)
    requires m in d && v in d && v in d'
  {
    && Less(d'[v].dist, d[v].dist)
    && d'[v].from == Some(m) && d'[v].link.Some? && d'[v].link.value in es
    && v == Other(d'[v].link.value, m)
    && d'[v].dist == Plus(d[m].dist, d'[v].link.value.dist)
  }

  /** What relaxing the links `es` of `m` against the vertices still in `plan` leaves. */
  ghost predicate RelaxedFrom(d: Table, d': Table, plan: seq<Vertex>, m: Vertex, es: seq<Link>)
    requires m in d && forall v :: v in plan ==> v in d
  {
    && d'.Keys == d.Keys
    && (forall v :: v in d && v !in plan ==> d'[v] == d[v])
    && (forall v :: v in plan ==> Le(d'[v].dist, d[v].dist) && (d'[v] == d[v] || Improved(d, d', m, es, v)))
    && (forall i :: 0 <= i < |es| && Other(es[i], m) in plan ==>
          Le(d'[Other(es[i], m)].dist, Plus(d[m].dist, es[i].dist)))
  }

  /** The inner `for min_vertex is None or d[i][0] < d[min_vertex][0]` loop:
      the first vertex of the plan with the least distance. */
  method SelectMin(plan: seq<Vertex>, d: Table) returns (m: Vertex, ghost at: nat)
    requires plan != [] && forall v :: v in plan ==> v in d
    ensures at < |plan| && m == plan[at]
    ensures forall j :: 0 <= j < at ==> Less(d[m].dist, d[plan[j]].dist)
    ensures forall j :: 0 <= j < |plan| ==> Le(d[m].dist, d[plan[j]].dist)
  {
    var minVertex: Option<Vertex> := None;
    at := 0;
    for k := 0 to |plan|
      invariant minVertex.None? <==> k == 0
      invariant minVertex.Some? ==> at < k && minVertex.value == plan[at]
      invariant minVertex.Some? ==> forall j :: 0 <= j < at ==> Less(d[plan[at]].dist, d[plan[j]].dist)
      invariant minVertex.Some? ==> forall j :: 0 <= j < k ==> Le(d[plan[at]].dist, d[plan[j]].dist)
    {
      var i := plan[k];
      if minVertex.None? || Less(d[i].dist, d[minVertex.value].dist) {
        minVertex := Some(i);
        at := k;
      }
    }
    m := minVertex.value;
  }

  /** The `for link in min_vertex.links` loop: each link to a vertex still
      planned offers that vertex the distance of `m` plus the link's
      weight, taken when strictly smaller. */
  method Relax(d: Table, plan: seq<Vertex>, m: Vertex, es: seq<Link>) returns (d': Table)
    requires m in d && m !in plan && forall v :: v in plan ==> v in d
    ensures RelaxedFrom(d, d', plan, m, es)
  {
    d' := d;
    for k := 0 to |es|
      invariant d'.Keys == d.Keys
      invariant forall v :: v in d && v !in plan ==> d'[v] == d[v]
      invariant forall v :: v in plan ==> Le(d'[v].dist, d[v].dist) && (d'[v] == d[v] || Improved(d, d', m, es, v))
      invariant forall i :: 0 <= i < k && Other(es[i], m) in plan ==>
        Le(d'[Other(es[i], m)].dist, Plus(d[m].dist, es[i].dist))
    {
      var link := es[k];
      var next := Other(link, m);
      if next !in plan {
        continue;
      }
      var dist := Plus(d'[m].dist, link.dist);
      if Less(dist, d'[next].dist) {
        d' := d'[next := Entry(dist, Some(link), Some(m))];
      }
    }
  }

  // ---------------------------------------------------------------------
  // One round of the main loop keeps the invariant
  // ---------------------------------------------------------------------

  ghost predicate StepPre(links: seq<Link>, stop: Vertex, d: Table, plan: seq<Vertex>, m: Vertex, d': Table, plan': seq<Vertex>)
  {
    && Positive(links) && Inv(links, stop, d, plan)
    && m in plan && (forall w :: w in plan ==> Le(d[m].dist, d[w].dist))
    && plan' == RemoveFirst(plan, m)
    && RelaxedFrom(d, d', plan', m, IncidentOf(links, m))
  }

  lemma StepFacts(links: seq<Link>, stop: Vertex, d: Table, plan: seq<Vertex>, m: Vertex, d': Table, plan': seq<Vertex>)
    requires StepPre(links, stop, d, plan, m, d', plan')
    ensures NoDup(plan') && forall v :: v in plan' <==> v in plan && v != m
    ensures Keyed(links, d', plan')
    ensures forall v :: Visited(d', plan', v) <==> Visited(d, plan, v) || v == m
    ensures forall v :: v in d && (v == m || Visited(d, plan, v)) ==> d'[v] == d[v]
    ensures forall v :: v in d ==> Le(d'[v].dist, d[v].dist)
  {
    RemoveFirstNoDup(plan, m);
  }

  /** An improved distance is larger than the distance of `m`. */
  lemma ImprovedAbove(links: seq<Link>, d: Table, m: Vertex, d': Table, v: Vertex)
    requires Positive(links) && m in d && v in d && v in d'
    requires Improved(d, d', m, IncidentOf(links, m), v)
    ensures d[m].dist.Fin? && d'[v].dist.Fin? && d'[v].dist.n > d[m].dist.n
    ensures d'[v].link.value in links && Joins(d'[v].link.value, m, v)
  {
    var l := d'[v].link.value;
    IncidentIff(links, m, l);
    var i :| 0 <= i < |links| && links[i] == l;
    OtherJoins(l, m);
  }

  lemma StepRooted(links: seq<Link>, stop: Vertex, d: Table, plan: seq<Vertex>, m: Vertex, d': Table, plan': seq<Vertex>)
    requires StepPre(links, stop, d, plan, m, d', plan')
    ensures Rooted(stop, d')
  {
    StepFacts(links, stop, d, plan, m, d', plan');
    forall v | v in d' && d'[v].dist.Fin?
      ensures d'[v].dist.n >= 0 && (d'[v].dist.n == 0 ==> v == stop)
    {
      if v in plan' && d'[v] != d[v] {
        ImprovedAbove(links, d, m, d', v);
      }
    }
    if stop in d' && stop in plan' && d'[stop] != d[stop] {
      ImprovedAbove(links, d, m, d', stop);
    }
  }

  lemma StepTraced(links: seq<Link>, stop: Vertex, d: Table, plan: seq<Vertex>, m: Vertex, d': Table, plan': seq<Vertex>)
    requires StepPre(links, stop, d, plan, m, d', plan')
    ensures Traced(links, stop, d', plan')
  {
    StepFacts(links, stop, d, plan, m, d', plan');
    forall v | v in d' && d'[v].dist.Fin? && v != stop
      ensures HasPred(links, d', plan', v)
    {
      if v in plan' && d'[v] != d[v] {
        ImprovedAbove(links, d, m, d', v);
      } else {
        assert d'[v] == d[v];
        assert HasPred(links, d, plan, v);
        var u := d[v].from.value;
        assert d'[u] == d[u];
      }
    }
  }

  lemma StepRelaxed(links: seq<Link>, stop: Vertex, d: Table, plan: seq<Vertex>, m: Vertex, d': Table, plan': seq<Vertex>)
    requires StepPre(links, stop, d, plan, m, d', plan')
    ensures Keyed(links, d', plan') && Relaxed(links, d', plan')
  {
    StepFacts(links, stop, d, plan, m, d', plan');
    forall u, i | Visited(d', plan', u) && 0 <= i < |links| && (links[i].v1 == u || links[i].v2 == u)
      ensures Le(d'[Other(links[i], u)].dist, Plus(d'[u].dist, links[i].dist))
    {
      var l, w := links[i], Other(links[i], u);
      assert l.dist > 0;
      if u == m {
        if w in plan' {
          IncidentIff(links, m, l);
          var j :| 0 <= j < |IncidentOf(links, m)| && IncidentOf(links, m)[j] == l;
        } else if w != m {
          assert Le(d[w].dist, d[m].dist);
        }
      } else {
        assert Le(d[w].dist, Plus(d[u].dist, l.dist));
        LeTrans(d'[w].dist, d[w].dist, Plus(d[u].dist, l.dist));
      }
    }
  }

  lemma StepOrdered(links: seq<Link>, stop: Vertex, d: Table, plan: seq<Vertex>, m: Vertex, d': Table, plan': seq<Vertex>)
    requires StepPre(links, stop, d, plan, m, d', plan')
    ensures Ordered(d', plan')
  {
    StepFacts(links, stop, d, plan, m, d', plan');
    forall u, w | Visited(d', plan', u) && w in plan'
      ensures Le(d'[u].dist, d'[w].dist)
    {
      assert Le(d[u].dist, d[m].dist);
      if d'[w] != d[w] {
        ImprovedAbove(links, d, m, d', w);
      } else {
        assert Le(d[m].dist, d[w].dist);
      }
    }
  }

  lemma StepKeepsInv(links: seq<Link>, stop: Vertex, d: Table, plan: seq<Vertex>, m: Vertex, d': Table, plan': seq<Vertex>)
    requires StepPre(links, stop, d, plan, m, d', plan')
    ensures Inv(links, stop, d', plan')
  {
    StepFacts(links, stop, d, plan, m, d', plan');
    StepRooted(links, stop, d, plan, m, d', plan');
    StepTraced(links, stop, d, plan, m, d', plan');
    StepRelaxed(links, stop, d, plan, m, d', plan');
    StepOrdered(links, stop, d, plan, m, d', plan');
  }

  /** Before the main loop: every vertex planned, only `stop` at a finite distance. */
  lemma StartInv(links: seq<Link>, vertex: seq<Vertex>, stop: Vertex, d: Table)
    requires NoDup(vertex) && forall i :: 0 <= i < |links| ==> links[i].v1 in vertex && links[i].v2 in vertex
    requires forall v :: v in d <==> v in vertex
    requires forall v :: v in d ==> d[v] == Entry(if v == stop then Fin(0) else Inf, None, None)
    ensures Inv(links, stop, d, vertex)
  {
  }

  /** Once every vertex is visited, the distances are a feasible potential. */
  lemma DoneFeasible(links: seq<Link>, stop: Vertex, d: Table)
    requires Inv(links, stop, d, []) && stop in d
    ensures Feasible(links, Dists(d), stop)
  {
    var pot := Dists(d);
    forall i | 0 <= i < |links|
      ensures Le(pot[links[i].v1], Plus(pot[links[i].v2], links[i].dist))
      ensures Le(pot[links[i].v2], Plus(pot[links[i].v1], links[i].dist))
    {
      var l := links[i];
      assert Visited(d, [], l.v1) && Visited(d, [], l.v2);
      assert Other(l, l.v1) == l.v2;
      assert Other(l, l.v2) == l.v1;
    }
  }

  /** A walk from a vertex of the graph to `stop` over its links ends at a vertex of the graph. */
  lemma ConnectedEnds(links: seq<Link>, d: Table, start: Vertex, stop: Vertex)
    requires Keyed(links, d, []) && start in d && Connected(links, start, stop)
    ensures stop in d
  {
    var p, es :| IsWalk(links, p, es) && p[0] == start && p[|p| - 1] == stop;
    if es != [] {
      var l := es[|es| - 1];
      assert l in links && Joins(l, p[|p| - 2], p[|p| - 1]);
      var i :| 0 <= i < |links| && links[i] == l;
    }
  }

  // ---------------------------------------------------------------------
  // The graph
  // ---------------------------------------------------------------------

  /** `all({i.v1, i.v2} != {link.v1, link.v2} for i in self._links)`. */
  predicate NewPair(links: seq<Link>, link: Link)
  {
    forall i :: 0 <= i < |links| ==> !SamePair(links[i], link)
  }

  /** The vertex list after `add_vertex(v)`. */
  function WithVertex(vertex: seq<Vertex>, v: Vertex): seq<Vertex>
  {
    if v in vertex then vertex else vertex + [v]
  }

  /** `add_vertex` lists `v` once and keeps the list free of repetitions. */
  lemma WithVertexFacts(vertex: seq<Vertex>, v: Vertex)
    ensures forall u :: u in WithVertex(vertex, v) <==> u in vertex || u == v
    ensures NoDup(vertex) ==> NoDup(WithVertex(vertex, v))
  {
  }

  /** `add_vertex` on a well-formed graph leaves it well formed. */
  lemma WithVertexKeepsWellFormed(links: seq<Link>, vertex: seq<Vertex>, incident: map<Vertex, seq<Link>>, v: Vertex)
    requires WellFormed(links, vertex, incident)
    ensures WellFormed(links, WithVertex(vertex, v), incident)
  {
    WithVertexFacts(vertex, v);
  }

  /** The list kept for `v`: empty when nothing was appended to it. */
  function ListOf(incident: map<Vertex, seq<Link>>, v: Vertex): seq<Link>
  {
    if v in incident then incident[v] else []
  }

  /** Each vertex listed once, every link between listed vertices, no two
      links between the same pair, and every vertex's list in step with
      the links added. */
  ghost predicate WellFormed(links: seq<Link>, vertex: seq<Vertex>, incident: map<Vertex, seq<Link>>)
  {
    && NoDup(vertex)
    && (forall i :: 0 <= i < |links| ==> links[i].v1 in vertex && links[i].v2 in vertex)
    && (forall i, j :: 0 <= i < j < |links| ==> !SamePair(links[i], links[j]))
    && (forall v :: ListOf(incident, v) == IncidentOf(links, v))
  }

  /** `v.links.append(link)`. */
  function AppendAt(incident: map<Vertex, seq<Link>>, v: Vertex, link: Link): map<Vertex, seq<Link>>
  {
    incident[v := ListOf(incident, v) + [link]]
  }

  /** `link.v1.links.append(link)` then `link.v2.links.append(link)`: each
      list grows by the link once per end it is. */
  lemma AppendBoth(incident: map<Vertex, seq<Link>>, link: Link, v: Vertex)
    ensures ListOf(AppendAt(AppendAt(incident, link.v1, link), link.v2, link), v) == ListOf(incident, v) + Ends(link, v)
  {
    var once := AppendAt(incident, link.v1, link);
    assert ListOf(once, v) == ListOf(incident, v) + (if v == link.v1 then [link] else []);
  }

  lemma AppendKeepsLists(links: seq<Link>, incident: map<Vertex, seq<Link>>, link: Link, incident': map<Vertex, seq<Link>>)
    requires forall v :: ListOf(incident, v) == IncidentOf(links, v)
    requires incident' == AppendAt(AppendAt(incident, link.v1, link), link.v2, link)
    ensures forall v :: ListOf(incident', v) == ListOf(incident, v) + Ends(link, v)
    ensures forall v :: ListOf(incident', v) == IncidentOf(links + [link], v)
  {
    forall v
      ensures ListOf(incident', v) == ListOf(incident, v) + Ends(link, v)
      ensures ListOf(incident', v) == IncidentOf(links + [link], v)
    {
      AppendBoth(incident, link, v);
      IncidentSnoc(links, link, v);
    }
  }

  lemma AppendKeepsVertices(links: seq<Link>, vertex: seq<Vertex>, link: Link, vertex': seq<Vertex>)
    requires NoDup(vertex') && forall i :: 0 <= i < |links| ==> links[i].v1 in vertex && links[i].v2 in vertex
    requires forall v :: v in vertex' <==> v in vertex || v == link.v1 || v == link.v2
    ensures forall i :: 0 <= i < |links + [link]| ==> (links + [link])[i].v1 in vertex' && (links + [link])[i].v2 in vertex'
    ensures multiset(vertex')[link.v1] == 1 && multiset(vertex')[link.v2] == 1
  {
    NoDupCount(vertex', link.v1);
    NoDupCount(vertex', link.v2);
  }

  lemma AppendKeepsPairs(links: seq<Link>, link: Link)
    requires forall i, j :: 0 <= i < j < |links| ==> !SamePair(links[i], links[j])
    requires forall i :: 0 <= i < |links| ==> !SamePair(links[i], link)
    ensures forall i, j :: 0 <= i < j < |links + [link]| ==> !SamePair((links + [link])[i], (links + [link])[j])
  {
  }

  /** `add_link` when no link joins the same pair yet keeps the graph well formed. */
  lemma AppendKeepsWellFormed(links: seq<Link>, vertex: seq<Vertex>, incident: map<Vertex, seq<Link>>, link: Link,
                              vertex': seq<Vertex>, incident': map<Vertex, seq<Link>>)
    requires WellFormed(links, vertex, incident)
    requires NewPair(links, link)
    requires vertex' == WithVertex(WithVertex(vertex, link.v1), link.v2)
    requires incident' == AppendAt(AppendAt(incident, link.v1, link), link.v2, link)
    ensures WellFormed(links + [link], vertex', incident')
    ensures forall v :: v in vertex' <==> v in vertex || v == link.v1 || v == link.v2
    ensures multiset(vertex')[link.v1] == 1 && multiset(vertex')[link.v2] == 1
    ensures forall v :: ListOf(incident', v) == ListOf(incident, v) + Ends(link, v)
  {
    WithVertexFacts(vertex, link.v1);
    WithVertexFacts(WithVertex(vertex, link.v1), link.v2);
    AppendKeepsLists(links, incident, link, incident');
    AppendKeepsVertices(links, vertex, link, vertex');
    AppendKeepsPairs(links, link);
  }

  class LinkedGraph {
    var links: seq<Link>
    var vertex: seq<Vertex>
    /** The `links` list of every vertex, keyed by vertex identity. */
    var incident: map<Vertex, seq<Link>>

    /** `v.links`: empty for a vertex no link of this graph was added at. */
    function LinksOf(v: Vertex): seq<Link>
      reads this`incident
    {
      ListOf(incident, v)
    }

    /** Each vertex listed once, every link between listed vertices, no two
        links between the same pair, and every vertex's list in step with
        the links added. */
    ghost predicate Valid()
      reads this
    {
      WellFormed(links, vertex, incident)
    }

    /** `LinkedGraph()`: no links, no vertices. */
    constructor ()
      ensures Valid() && links == [] && vertex == []
    {
      links := [];
      vertex := [];
      incident := map[];
    }

    /** A vertex's list holds exactly the links of the graph that end at it. */
    lemma ListedLinks(l: Link, v: Vertex)
      requires Valid()
      ensures l in LinksOf(v) <==> l in links && (l.v1 == v || l.v2 == v)
    {
      IncidentIff(links, v, l);
    }

    /** `add_vertex(v)`: appended unless already listed; a well-formed graph
        stays well formed.  `add_link` calls it after appending the link,
        when the graph is not yet well formed, so it does not demand it. */
    method AddVertex(v: Vertex)
      modifies this`vertex
      ensures vertex == WithVertex(old(vertex), v)
      ensures old(Valid()) ==> Valid()
    {
      if Valid() {
        WithVertexKeepsWellFormed(links, vertex, incident, v);
      }
      if v !in vertex {
        vertex := vertex + [v];
      }
    }

    /** `add_link(link)`: refused when a link between the same two vertices
        is already there; otherwise appended, its ends listed, and the link
        appended to the list of each end. */
    method AddLink(link: Link)
      requires Valid()
      modifies this
      ensures Valid()
      ensures !NewPair(old(links), link) ==>
        links == old(links) && vertex == old(vertex) && incident == old(incident)
      ensures NewPair(old(links), link) ==>
        && links == old(links) + [link]
        && vertex == WithVertex(WithVertex(old(vertex), link.v1), link.v2)
        && (forall v :: v in vertex <==> v in old(vertex) || v == link.v1 || v == link.v2)
        && multiset(vertex)[link.v1] == 1 && multiset(vertex)[link.v2] == 1
        && forall v :: LinksOf(v) == old(LinksOf(v)) + Ends(link, v)
    {
      if NewPair(links, link) {
        ghost var links0, vertex0, incident0 := links, vertex, incident;
        links := links + [link];
        AddVertex(link.v1);
        AddVertex(link.v2);
        incident := AppendAt(incident, link.v1, link);
        incident := AppendAt(incident, link.v2, link);
        AppendKeepsWellFormed(links0, vertex0, incident0, link, vertex, incident);
      }
    }

    /** `find_path(start_v, stop_v)`: a walk from `start_v` to `stop_v` over
        the graph's links, no heavier than any other such walk.  The source
        needs positive weights and a reachable `stop_v`; without them the
        walk back along the predecessors stops early or fails. */
    method FindPath(start: Vertex, stop: Vertex) returns (vertexs: seq<Vertex>, pathLinks: seq<Link>)
      requires Valid() && Positive(links)
      requires start in vertex && Connected(links, start, stop)
      ensures IsWalk(links, vertexs, pathLinks) && vertexs[0] == start && vertexs[|vertexs| - 1] == stop
      ensures forall p, es :: IsWalk(links, p, es) && p[0] == start && p[|p| - 1] == stop ==>
        Weight(pathLinks) <= Weight(es)
      ensures start == stop ==> vertexs == [start] && pathLinks == []
    {
      var d := Distances(stop);
      ConnectedEnds(links, d, start, stop);
      DoneFeasible(links, stop, d);
      var p0, es0 :| IsWalk(links, p0, es0) && p0[0] == start && p0[|p0| - 1] == stop;
      WalkBound(links, Dists(d), stop, p0, es0);
      vertexs, pathLinks := WalkBack(d, start, stop);
      forall p, es | IsWalk(links, p, es) && p[0] == start && p[|p| - 1] == stop
        ensures Weight(pathLinks) <= Weight(es)
      {
        WalkBound(links, Dists(d), stop, p, es);
      }
      if start == stop {
        WeightPositive(links, pathLinks);
      }
    }

    /** The first half of `find_path`: the distance of every vertex to
        `stop`, with the link and vertex it was reached over. */
    method Distances(stop: Vertex) returns (d: Table)
      requires Valid() && Positive(links)
      ensures Inv(links, stop, d, [])
      ensures forall v :: v in d <==> v in vertex
    {
      var plan: seq<Vertex> := [];
      d := map[];
      for i := 0 to |vertex|
        invariant plan == vertex[..i]
        invariant forall v :: v in d <==> v in plan
        invariant forall v :: v in d ==> d[v] == Entry(if v == stop then Fin(0) else Inf, None, None)
      {
        var v := vertex[i];
        d := d[v := Entry(if v == stop then Fin(0) else Inf, None, None)];
        plan := plan + [v];
      }
      assert plan == vertex;
      StartInv(links, vertex, stop, d);
      ghost var keys := d.Keys;
      while plan != []
        invariant Inv(links, stop, d, plan) && d.Keys == keys
        decreases |plan|
      {
        var m, at := SelectMin(plan, d);
        ghost var before := plan;
        plan := RemoveFirst(plan, m);
        RemoveFirstNoDup(before, m);
        assert LinksOf(m) == IncidentOf(links, m);
        var relaxed := Relax(d, plan, m, LinksOf(m));
        StepKeepsInv(links, stop, d, before, m, relaxed, plan);
        d := relaxed;
      }
    }

    /** The second half of `find_path`: from `start`, follow the recorded
        link and vertex until the distance is 0. */
    method WalkBack(d: Table, start: Vertex, stop: Vertex) returns (vertexs: seq<Vertex>, pathLinks: seq<Link>)
      requires Positive(links) && Inv(links, stop, d, [])
      requires start in d && d[start].dist.Fin?
      ensures IsWalk(links, vertexs, pathLinks) && vertexs[0] == start && vertexs[|vertexs| - 1] == stop
      ensures Weight(pathLinks) == d[start].dist.n
    {
      vertexs := [start];
      pathLinks := [];
      var last := d[start];
      while last.dist != Fin(0)
        invariant IsWalk(links, vertexs, pathLinks) && vertexs[0] == start
        invariant vertexs[|vertexs| - 1] in d && last == d[vertexs[|vertexs| - 1]] && last.dist.Fin?
        invariant Weight(pathLinks) + last.dist.n == d[start].dist.n
        decreases last.dist.n
      {
        var cur := vertexs[|vertexs| - 1];
        assert HasPred(links, d, [], cur);
        var i :| 0 <= i < |links| && links[i] == last.link.value;
        WeightSnoc(pathLinks, last.link.value);
        WalkSnoc(links, vertexs, pathLinks, last.link.value, last.from.value);
        pathLinks := pathLinks + [last.link.value];
        vertexs := vertexs + [last.from.value];
        last := d[last.from.value];
      }
    }
  }
}
