/** Reachability on a grid by fixed steps, and the breadth-first flood
    fill the generators use to find connected regions: `blocks`,
    `areas`, `is_path_between` and the land count of the river checks.
    The cells a step may enter are given as the set `open`, which the
    callers build from the in-bounds cells of their grids. */
module Reach {
  import opened Geometry

  /** `b` is one step from `a`: a delta away, and open. */
  predicate Step(open: set<Coord>, deltas: seq<Coord>, a: Coord, b: Coord) {
    b in open && b.Sub(a) in deltas
  }

  /** A walk of single steps; its first cell need not be open. */
  ghost predicate IsPath(open: set<Coord>, deltas: seq<Coord>, p: seq<Coord>)
    decreases |p|
  {
    |p| >= 1 && (|p| == 1 || (Step(open, deltas, p[0], p[1]) && IsPath(open, deltas, p[1..])))
  }

  ghost predicate Reachable(open: set<Coord>, deltas: seq<Coord>, a: Coord, b: Coord) {
    exists p :: IsPath(open, deltas, p) && p[0] == a && p[|p| - 1] == b
  }

  /** No step leads out of `S`. */
  ghost predicate Closed(open: set<Coord>, deltas: seq<Coord>, S: set<Coord>) {
    forall a, d :: a in S && d in deltas && a.Add(d) in open ==> a.Add(d) in S
  }

  lemma ReachRefl(open: set<Coord>, deltas: seq<Coord>, a: Coord)
    ensures Reachable(open, deltas, a, a)
  {
    assert IsPath(open, deltas, [a]);
  }

  lemma {:induction false} PathSnoc(open: set<Coord>, deltas: seq<Coord>, p: seq<Coord>, c: Coord)
    requires IsPath(open, deltas, p) && Step(open, deltas, p[|p| - 1], c)
    ensures IsPath(open, deltas, p + [c])
    decreases |p|
  {
    if |p| > 1 {
      PathSnoc(open, deltas, p[1..], c);
      assert (p + [c])[1..] == p[1..] + [c];
    }
  }

  lemma ReachStep(open: set<Coord>, deltas: seq<Coord>, a: Coord, b: Coord, c: Coord)
    requires Reachable(open, deltas, a, b) && Step(open, deltas, b, c)
    ensures Reachable(open, deltas, a, c)
  {
    var p: seq<Coord> :| IsPath(open, deltas, p) && p[0] == a && p[|p| - 1] == b;
    PathSnoc(open, deltas, p, c);
    var q := p + [c];
    assert q[0] == a && q[|q| - 1] == c;
  }

  /** Everything reachable from a member of a closed set is in it. */
  lemma ClosedContainsReachable(open: set<Coord>, deltas: seq<Coord>, S: set<Coord>, a: Coord, b: Coord)
    requires Closed(open, deltas, S) && a in S
    requires Reachable(open, deltas, a, b)
    ensures b in S
  {
    var p: seq<Coord> :| IsPath(open, deltas, p) && p[0] == a && p[|p| - 1] == b;
    PathStaysIn(open, deltas, S, p);
  }

  lemma {:induction false} PathStaysIn(open: set<Coord>, deltas: seq<Coord>, S: set<Coord>, p: seq<Coord>)
    requires Closed(open, deltas, S) && IsPath(open, deltas, p) && p[0] in S
    ensures p[|p| - 1] in S
    decreases |p|
  {
    if |p| > 1 {
      var d := p[1].Sub(p[0]);
      assert p[0].Add(d) == p[1];
      PathStaysIn(open, deltas, S, p[1..]);
    }
  }

  /** Every cell of a walk after the first is open. */
  lemma {:induction false} PathOpen(open: set<Coord>, deltas: seq<Coord>, p: seq<Coord>)
    requires IsPath(open, deltas, p)
    ensures |p| > 1 ==> p[|p| - 1] in open
    decreases |p|
  {
    if |p| > 2 {
      PathOpen(open, deltas, p[1..]);
    }
  }

  /** The delta set contains the reverse of each of its deltas. */
  predicate Symmetric(deltas: seq<Coord>) {
    forall d :: d in deltas ==> Coord(-d.x, -d.y) in deltas
  }

  lemma KingMovesSymmetric()
    ensures Symmetric(ALL_DELTAS)
  {
  }

  lemma CardinalMovesSymmetric()
    ensures Symmetric(CARDINAL_DELTAS)
  {
  }

  /** From an open cell, reachability runs both ways. */
  lemma ReachReverse(open: set<Coord>, deltas: seq<Coord>, a: Coord, b: Coord)
    requires Symmetric(deltas) && a in open
    requires Reachable(open, deltas, a, b)
    ensures Reachable(open, deltas, b, a)
  {
    var p: seq<Coord> :| IsPath(open, deltas, p) && p[0] == a && p[|p| - 1] == b;
    PathReverse(open, deltas, p);
  }

  lemma {:induction false} PathReverse(open: set<Coord>, deltas: seq<Coord>, p: seq<Coord>)
    requires Symmetric(deltas) && IsPath(open, deltas, p) && p[0] in open
    ensures Reachable(open, deltas, p[|p| - 1], p[0])
    decreases |p|
  {
    if |p| == 1 {
      ReachRefl(open, deltas, p[0]);
    } else {
      PathReverse(open, deltas, p[1..]);
      var d := p[1].Sub(p[0]);
      assert p[0].Sub(p[1]) == Coord(-d.x, -d.y);
      ReachStep(open, deltas, p[|p| - 1], p[1], p[0]);
    }
  }

  /** Reachability is transitive. */
  lemma ReachTrans(open: set<Coord>, deltas: seq<Coord>, a: Coord, b: Coord, c: Coord)
    requires Reachable(open, deltas, a, b) && Reachable(open, deltas, b, c)
    ensures Reachable(open, deltas, a, c)
  {
    var q: seq<Coord> :| IsPath(open, deltas, q) && q[0] == b && q[|q| - 1] == c;
    PathExtends(open, deltas, a, q);
  }

  lemma {:induction false} PathExtends(open: set<Coord>, deltas: seq<Coord>, a: Coord, q: seq<Coord>)
    requires IsPath(open, deltas, q) && Reachable(open, deltas, a, q[0])
    ensures Reachable(open, deltas, a, q[|q| - 1])
    decreases |q|
  {
    if |q| > 1 {
      ReachStep(open, deltas, a, q[0], q[1]);
      PathExtends(open, deltas, a, q[1..]);
    }
  }

  /** Two cells reaching a common cell reach each other, when the steps
      can be reversed and the first is open. */
  lemma ReachMeet(open: set<Coord>, deltas: seq<Coord>, s: Coord, t: Coord, c: Coord)
    requires Symmetric(deltas) && s in open
    requires Reachable(open, deltas, s, c) && Reachable(open, deltas, t, c)
    ensures Reachable(open, deltas, t, s)
  {
    ReachReverse(open, deltas, s, c);
    ReachTrans(open, deltas, t, c, s);
  }

  /** `S` is the connected component of one of its open cells. */
  ghost predicate IsComponent(open: set<Coord>, deltas: seq<Coord>, S: set<Coord>) {
    exists s :: s in open && forall c :: c in S <==> Reachable(open, deltas, s, c)
  }

  /** Every cell the flood fill has seen is reachable from `start`. */
  ghost predicate SeenReachable(open: set<Coord>, deltas: seq<Coord>, start: Coord, seen: set<Coord>) {
    forall c {:trigger Reachable(open, deltas, start, c)} :: c in seen ==> Reachable(open, deltas, start, c)
  }

  /** Every neighbour of `a` one step away has been seen. */
  ghost predicate Expanded(open: set<Coord>, deltas: seq<Coord>, a: Coord, seen: set<Coord>) {
    forall d :: d in deltas && a.Add(d) in open ==> a.Add(d) in seen
  }

  lemma SeeStep(open: set<Coord>, deltas: seq<Coord>, start: Coord, c: Coord, n: Coord, seen: set<Coord>)
    requires SeenReachable(open, deltas, start, seen) && c in seen
    requires Step(open, deltas, c, n)
    ensures SeenReachable(open, deltas, start, seen + {n})
  {
    ReachStep(open, deltas, start, c, n);
  }

  lemma UnseenShrinks(open: set<Coord>, seen: set<Coord>, n: Coord)
    requires n in open && n !in seen
    ensures |open - (seen + {n})| == |open - seen| - 1
  {
    assert open - (seen + {n}) == (open - seen) - {n};
  }

  /** One round of the flood fill: every unseen neighbour of `c` is seen
      and queued at the front. */
  method Expand(open: set<Coord>, deltas: seq<Coord>, start: Coord, c: Coord,
                seen0: set<Coord>, queue0: seq<Coord>) returns (seen: set<Coord>, queue: seq<Coord>)
    requires SeenReachable(open, deltas, start, seen0) && c in seen0
    ensures SeenReachable(open, deltas, start, seen) && seen0 <= seen <= seen0 + open
    ensures Expanded(open, deltas, c, seen)
    ensures forall x :: x in seen ==> x in seen0 || x in queue
    ensures forall x :: x in queue ==> x in queue0 || x in seen
    ensures forall x :: x in queue0 ==> x in queue
    ensures |open - seen| + |queue| == |open - seen0| + |queue0|
  {
    seen, queue := seen0, queue0;
    var k := 0;
    while k < |deltas|
      invariant 0 <= k <= |deltas|
      invariant SeenReachable(open, deltas, start, seen) && c in seen
      invariant seen0 <= seen <= seen0 + open
      invariant forall x :: x in seen ==> x in seen0 || x in queue
      invariant forall x :: x in queue ==> x in queue0 || x in seen
      invariant forall x :: x in queue0 ==> x in queue
      invariant forall j :: 0 <= j < k && c.Add(deltas[j]) in open ==> c.Add(deltas[j]) in seen
      invariant |open - seen| + |queue| == |open - seen0| + |queue0|
    {
      var n := c.Add(deltas[k]);
      if n in open && n !in seen {
        assert n.Sub(c) == deltas[k];
        SeeStep(open, deltas, start, c, n, seen);
        UnseenShrinks(open, seen, n);
        seen := seen + {n};
        queue := [n] + queue;
      }
      k := k + 1;
    }
    forall d | d in deltas && c.Add(d) in open
      ensures c.Add(d) in seen
    {
      var j :| 0 <= j < |deltas| && deltas[j] == d;
    }
  }

  /** Breadth-first flood fill from `start`: the cells reachable from it,
      `start` included whether or not it is open. */
  method Flood(open: set<Coord>, deltas: seq<Coord>, start: Coord) returns (comp: set<Coord>)
    ensures forall c :: c in comp <==> Reachable(open, deltas, start, c)
    ensures start in comp && comp <= open + {start}
    ensures Closed(open, deltas, comp)
  {
    var seen := {start};
    var queue := [start];
    ghost var done: set<Coord> := {};
    ReachRefl(open, deltas, start);
    while |queue| > 0
      invariant start in seen && done <= seen <= open + {start}
      invariant SeenReachable(open, deltas, start, seen)
      invariant forall c :: c in queue ==> c in seen
      invariant forall c :: c in seen ==> c in done || c in queue
      invariant forall a :: a in done ==> Expanded(open, deltas, a, seen)
      decreases |open - seen| + |queue|
    {
      var c := queue[|queue| - 1];
      queue := queue[..|queue| - 1];
      seen, queue := Expand(open, deltas, start, c, seen, queue);
      done := done + {c};
    }
    comp := seen;
    forall c | Reachable(open, deltas, start, c)
      ensures c in comp
    {
      ClosedContainsReachable(open, deltas, comp, start, c);
    }
  }

  /** The cells of all the sets. */
  ghost function Union(ss: seq<set<Coord>>): set<Coord> {
    if ss == [] then {} else Union(ss[..|ss| - 1]) + ss[|ss| - 1]
  }

  lemma {:induction false} UnionMember(ss: seq<set<Coord>>, c: Coord)
    ensures c in Union(ss) <==> exists i :: 0 <= i < |ss| && c in ss[i]
  {
    if ss != [] {
      var init := ss[..|ss| - 1];
      UnionMember(init, c);
      if c in Union(init) {
        var i :| 0 <= i < |init| && c in init[i];
        assert ss[i] == init[i];
      }
      if exists i :: 0 <= i < |ss| && c in ss[i] {
        var i :| 0 <= i < |ss| && c in ss[i];
        if i < |ss| - 1 {
          assert ss[i] == init[i];
        }
      }
    }
  }

  predicate PairwiseDisjoint(ss: seq<set<Coord>>) {
    forall i, j :: 0 <= i < j < |ss| ==> ss[i] !! ss[j]
  }

  /** A new component, from an open cell outside an old one, shares no
      cell with it. */
  lemma NewComponentDisjoint(open: set<Coord>, deltas: seq<Coord>, S: set<Coord>, comp: set<Coord>, s: Coord)
    requires Symmetric(deltas)
    requires IsComponent(open, deltas, S) && s in open && s !in S
    requires forall c :: c in comp <==> Reachable(open, deltas, s, c)
    ensures S !! comp
  {
    var t :| t in open && forall c :: c in S <==> Reachable(open, deltas, t, c);
    forall c | c in S && c in comp
      ensures false
    {
      ReachMeet(open, deltas, s, t, c);
    }
  }

  /** The open cells grouped into their components. */
  ghost predicate Partitioned(open: set<Coord>, deltas: seq<Coord>, comps: seq<set<Coord>>) {
    && (forall i :: 0 <= i < |comps| ==> IsComponent(open, deltas, comps[i]))
    && PairwiseDisjoint(comps)
    && Union(comps) == open
  }

  /** Every open cell of a grid of size `s`, in row-major order, that no
      earlier component holds starts a flood fill whose cells make the
      next component: the scan `blocks`, `areas` and the land count of the
      river check share. */
  method Components(open: set<Coord>, deltas: seq<Coord>, s: Size) returns (comps: seq<set<Coord>>)
    requires Symmetric(deltas) && forall c :: c in open ==> IsValid(c, s)
    ensures Partitioned(open, deltas, comps)
  {
    var seen: set<Coord> := {};
    comps := [];
    var y := 0;
    while y < s.height
      invariant 0 <= y <= s.height
      invariant seen == Union(comps) && seen <= open
      invariant forall i :: 0 <= i < |comps| ==> IsComponent(open, deltas, comps[i])
      invariant PairwiseDisjoint(comps)
      invariant forall c :: c in open && c.y < y ==> c in seen
    {
      seen, comps := ScanRow(open, deltas, s, y, seen, comps);
      y := y + 1;
    }
  }

  /** One row of the scan. */
  method ScanRow(open: set<Coord>, deltas: seq<Coord>, s: Size, y: int, seen0: set<Coord>, comps0: seq<set<Coord>>)
    returns (seen: set<Coord>, comps: seq<set<Coord>>)
    requires Symmetric(deltas) && forall c :: c in open ==> IsValid(c, s)
    requires seen0 == Union(comps0) && seen0 <= open
    requires forall i :: 0 <= i < |comps0| ==> IsComponent(open, deltas, comps0[i])
    requires PairwiseDisjoint(comps0)
    requires forall c :: c in open && c.y < y ==> c in seen0
    ensures seen == Union(comps) && seen <= open
    ensures forall i :: 0 <= i < |comps| ==> IsComponent(open, deltas, comps[i])
    ensures PairwiseDisjoint(comps)
    ensures forall c :: c in open && c.y <= y ==> c in seen
  {
    seen, comps := seen0, comps0;
    var x := 0;
    while x < s.width
      invariant 0 <= x <= s.width
      invariant seen == Union(comps) && seen <= open
      invariant forall i :: 0 <= i < |comps| ==> IsComponent(open, deltas, comps[i])
      invariant PairwiseDisjoint(comps)
      invariant forall c :: c in open && (c.y < y || (c.y == y && c.x < x)) ==> c in seen
    {
      seen, comps := ScanCell(open, deltas, seen, comps, Coord(x, y));
      x := x + 1;
    }
  }

  /** One cell of the scan: an open cell no component holds yet starts a
      new one. */
  method ScanCell(open: set<Coord>, deltas: seq<Coord>, seen0: set<Coord>, comps0: seq<set<Coord>>, c: Coord)
    returns (seen: set<Coord>, comps: seq<set<Coord>>)
    requires Symmetric(deltas)
    requires seen0 == Union(comps0) && seen0 <= open
    requires forall i :: 0 <= i < |comps0| ==> IsComponent(open, deltas, comps0[i])
    requires PairwiseDisjoint(comps0)
    ensures seen == Union(comps) && seen <= open
    ensures forall i :: 0 <= i < |comps| ==> IsComponent(open, deltas, comps[i])
    ensures PairwiseDisjoint(comps)
    ensures seen0 <= seen && (c in open ==> c in seen)
  {
    seen, comps := seen0, comps0;
    if c in open && c !in seen {
      seen, comps := AddComponent(open, deltas, seen, comps, c);
    }
  }

  /** Flood-fills the component of the unseen open cell `s` and adds it. */
  method AddComponent(open: set<Coord>, deltas: seq<Coord>, seen: set<Coord>, comps: seq<set<Coord>>, s: Coord)
    returns (seen': set<Coord>, comps': seq<set<Coord>>)
    requires Symmetric(deltas) && s in open && s !in seen
    requires seen == Union(comps) && seen <= open
    requires forall i :: 0 <= i < |comps| ==> IsComponent(open, deltas, comps[i])
    requires PairwiseDisjoint(comps)
    ensures seen' == Union(comps') && seen' <= open && seen <= seen' && s in seen'
    ensures forall i :: 0 <= i < |comps'| ==> IsComponent(open, deltas, comps'[i])
    ensures PairwiseDisjoint(comps')
  {
    var comp := Flood(open, deltas, s);
    forall i | 0 <= i < |comps|
      ensures comps[i] !! comp
    {
      UnionMember(comps, s);
      NewComponentDisjoint(open, deltas, comps[i], comp, s);
    }
    comps' := comps + [comp];
    assert comps'[..|comps'| - 1] == comps;
    seen' := seen + comp;
  }

  /** Opening more cells keeps every walk a walk. */
  lemma {:induction false} PathMono(open: set<Coord>, open': set<Coord>, deltas: seq<Coord>, p: seq<Coord>)
    requires open <= open' && IsPath(open, deltas, p)
    ensures IsPath(open', deltas, p)
    decreases |p|
  {
    if |p| > 1 {
      PathMono(open, open', deltas, p[1..]);
    }
  }

  lemma ReachMono(open: set<Coord>, open': set<Coord>, deltas: seq<Coord>, a: Coord, b: Coord)
    requires open <= open' && Reachable(open, deltas, a, b)
    ensures Reachable(open', deltas, a, b)
  {
    var p: seq<Coord> :| IsPath(open, deltas, p) && p[0] == a && p[|p| - 1] == b;
    PathMono(open, open', deltas, p);
  }

  /** The cells of a component are open and reach each other. */
  lemma ComponentConnected(open: set<Coord>, deltas: seq<Coord>, S: set<Coord>, a: Coord, b: Coord)
    requires Symmetric(deltas) && IsComponent(open, deltas, S) && a in S && b in S
    ensures a in open && Reachable(open, deltas, a, b)
  {
    var s :| s in open && forall c :: c in S <==> Reachable(open, deltas, s, c);
    var p: seq<Coord> :| IsPath(open, deltas, p) && p[0] == s && p[|p| - 1] == a;
    PathOpen(open, deltas, p);
    ReachReverse(open, deltas, s, a);
    ReachTrans(open, deltas, a, s, b);
  }

  /** Opening a cell one step from a cell of each of two components
      joins them. */
  lemma Bridge(open: set<Coord>, open': set<Coord>, deltas: seq<Coord>, S1: set<Coord>, S2: set<Coord>,
               n: Coord, c1: Coord, c2: Coord, a: Coord, b: Coord)
    requires Symmetric(deltas) && open + {n} <= open'
    requires IsComponent(open, deltas, S1) && IsComponent(open, deltas, S2)
    requires c1 in S1 && n.Sub(c1) in deltas && c2 in S2 && n.Sub(c2) in deltas
    requires a in S1 && b in S2
    ensures Reachable(open', deltas, a, b)
  {
    ComponentConnected(open, deltas, S1, a, c1);
    ComponentConnected(open, deltas, S2, c2, b);
    ReachMono(open, open', deltas, a, c1);
    ReachMono(open, open', deltas, c2, b);
    ReachStep(open', deltas, a, c1, n);
    var d := n.Sub(c2);
    assert c2.Sub(n) == Coord(-d.x, -d.y);
    ReachStep(open', deltas, a, n, c2);
    ReachTrans(open', deltas, a, c2, b);
  }

  /** A component holds every cell reachable from any of its cells. */
  lemma ComponentCovers(open: set<Coord>, deltas: seq<Coord>, S: set<Coord>, T: set<Coord>, c: Coord)
    requires Symmetric(deltas) && IsComponent(open, deltas, S) && IsComponent(open, deltas, T)
    requires c in S && c in T
    ensures S <= T
  {
    var t :| t in open && forall y :: y in T <==> Reachable(open, deltas, t, y);
    forall x | x in S
      ensures x in T
    {
      ComponentConnected(open, deltas, S, c, x);
      ReachTrans(open, deltas, t, c, x);
    }
  }

  /** Two components that share a cell are the same. */
  lemma ComponentsMeet(open: set<Coord>, deltas: seq<Coord>, S: set<Coord>, T: set<Coord>, c: Coord)
    requires Symmetric(deltas) && IsComponent(open, deltas, S) && IsComponent(open, deltas, T)
    requires c in S && c in T
    ensures S == T
  {
    ComponentCovers(open, deltas, S, T, c);
    ComponentCovers(open, deltas, T, S, c);
  }

  /** The components listed, as a set. */
  ghost function Listed(comps: seq<set<Coord>>): set<set<Coord>> {
    set S | S in comps
  }

  /** A list without repeats is as long as the set of its elements. */
  lemma {:induction false} ListedCard(comps: seq<set<Coord>>)
    requires forall i, j :: 0 <= i < j < |comps| ==> comps[i] != comps[j]
    ensures |Listed(comps)| == |comps|
  {
    if comps != [] {
      var init := comps[..|comps| - 1];
      var last := comps[|comps| - 1];
      ListedCard(init);
      assert Listed(comps) == Listed(init) + {last};
      assert last !in Listed(init);
    }
  }

  /** Every component of `open` is listed in a partition of it. */
  lemma PartitionLists(open: set<Coord>, deltas: seq<Coord>, comps: seq<set<Coord>>, S: set<Coord>)
    requires Symmetric(deltas) && Partitioned(open, deltas, comps) && IsComponent(open, deltas, S)
    ensures S in comps
  {
    var s :| s in open && forall c :: c in S <==> Reachable(open, deltas, s, c);
    ReachRefl(open, deltas, s);
    UnionMember(comps, s);
    var i :| 0 <= i < |comps| && s in comps[i];
    ComponentsMeet(open, deltas, S, comps[i], s);
  }

  /** A component is not empty. */
  lemma ComponentNonEmpty(open: set<Coord>, deltas: seq<Coord>, S: set<Coord>)
    requires IsComponent(open, deltas, S)
    ensures S != {}
  {
    var s :| s in open && forall c :: c in S <==> Reachable(open, deltas, s, c);
    ReachRefl(open, deltas, s);
  }

  /** Any two partitions of the same open cells into components have
      the same number of parts: the region count does not depend on the
      order of the scan. */
  lemma PartitionCount(open: set<Coord>, deltas: seq<Coord>, c1: seq<set<Coord>>, c2: seq<set<Coord>>)
    requires Symmetric(deltas) && Partitioned(open, deltas, c1) && Partitioned(open, deltas, c2)
    ensures |c1| == |c2|
  {
    forall i, j | 0 <= i < j < |c1|
      ensures c1[i] != c1[j]
    {
      ComponentNonEmpty(open, deltas, c1[i]);
    }
    forall i, j | 0 <= i < j < |c2|
      ensures c2[i] != c2[j]
    {
      ComponentNonEmpty(open, deltas, c2[i]);
    }
    forall S | S in Listed(c1)
      ensures S in Listed(c2)
    {
      PartitionLists(open, deltas, c2, S);
    }
    forall S | S in Listed(c2)
      ensures S in Listed(c1)
    {
      PartitionLists(open, deltas, c1, S);
    }
    assert Listed(c1) == Listed(c2);
    ListedCard(c1);
    ListedCard(c2);
  }
}
