/**
 * Detection of cycles along provider-to-customer edges by a depth-first
 * search that colours every AS white (unvisited), gray (on the search stack)
 * or black (finished).
 */
module Cycles {
  import opened Announcements
  import opened Graphs

  /** `v` is recorded as a customer of `u`. */
  predicate Edge(g: Graph, u: Asn, v: Asn)
  {
    u in g && v in g[u].customers
  }

  /** A walk of at least one provider-to-customer edge that ends where it starts. */
  ghost predicate IsCycle(g: Graph, p: seq<Asn>)
  {
    && |p| >= 2
    && p[0] == p[|p| - 1]
    && forall i :: 0 <= i < |p| - 1 ==> Edge(g, p[i], p[i + 1])
  }

  ghost predicate HasCycle(g: Graph)
  {
    exists p :: IsCycle(g, p)
  }

  /** A numbering of the ASes under which every customer is numbered below each of its providers. */
  ghost predicate Descending(g: Graph, f: map<Asn, nat>)
  {
    && g.Keys <= f.Keys
    && forall u, v :: Edge(g, u, v) ==> v in f && f[v] < f[u]
  }

  /** Along a walk the numbering strictly decreases. */
  lemma {:induction false} WalkDescends(g: Graph, f: map<Asn, nat>, p: seq<Asn>, k: nat)
    requires Descending(g, f)
    requires 1 <= k < |p|
    requires forall i :: 0 <= i < |p| - 1 ==> Edge(g, p[i], p[i + 1])
    ensures p[0] in f && p[k] in f && f[p[k]] < f[p[0]]
  {
    assert Edge(g, p[k - 1], p[k]);
    if k > 1 {
      WalkDescends(g, f, p, k - 1);
    }
  }

  /** A descending numbering rules out every cycle. */
  lemma DescendingAcyclic(g: Graph, f: map<Asn, nat>)
    requires Descending(g, f)
    ensures !HasCycle(g)
  {
    forall p | IsCycle(g, p)
      ensures false
    {
      WalkDescends(g, f, p, |p| - 1);
    }
  }

  datatype Color = White | Gray | Black

  ghost function Whites(color: map<Asn, Color>): set<Asn>
  {
    set a | a in color && color[a] == White
  }

  lemma {:induction false} SubsetCard<T>(a: set<T>, b: set<T>)
    requires a <= b
    ensures |a| <= |b|
    decreases a
  {
    if a != {} {
      var x :| x in a;
      SubsetCard(a - {x}, b - {x});
    }
  }

  /**
   * The search invariant: gray ASes are exactly those on the stack, which is
   * a walk; every black AS has a finishing number below `clock`, and its
   * customers are all black with smaller finishing numbers.
   */
  ghost predicate DfsInv(g: Graph, color: map<Asn, Color>, stack: seq<Asn>, finish: map<Asn, nat>, clock: nat)
  {
    && color.Keys == g.Keys
    && (forall i :: 0 <= i < |stack| ==> stack[i] in color)
    && (forall i :: 0 <= i < |stack| - 1 ==> Edge(g, stack[i], stack[i + 1]))
    && (forall a :: a in color ==> (color[a] == Gray <==> a in stack))
    && (forall a :: a in color && color[a] == Black ==> a in finish && finish[a] < clock)
    && (forall a, b :: a in color && color[a] == Black && Edge(g, a, b) ==>
          b in color && color[b] == Black && finish[b] < finish[a])
  }

  /** Pushing a white AS onto the stack and colouring it gray keeps the invariant. */
  lemma EnterKeepsInv(g: Graph, u: Asn, color: map<Asn, Color>, stack: seq<Asn>, finish: map<Asn, nat>, clock: nat)
    requires u in color && color[u] == White
    requires DfsInv(g, color, stack, finish, clock)
    requires stack != [] ==> Edge(g, stack[|stack| - 1], u)
    ensures DfsInv(g, color[u := Gray], stack + [u], finish, clock)
    ensures Whites(color[u := Gray]) == Whites(color) - {u}
  {
    var c := color[u := Gray];
    var path := stack + [u];
    forall i | 0 <= i < |path| - 1
      ensures Edge(g, path[i], path[i + 1])
    {
      if i < |stack| - 1 {
        assert path[i] == stack[i] && path[i + 1] == stack[i + 1];
      }
    }
    forall a | a in c
      ensures c[a] == Gray <==> a in path
    {
      assert a in path <==> a in stack || a == u;
    }
  }

  /** A customer of the top of the stack that is already on the stack closes a cycle. */
  lemma BackEdgeCycle(g: Graph, path: seq<Asn>, v: Asn) returns (cycle: seq<Asn>)
    requires v in path
    requires forall i :: 0 <= i < |path| - 1 ==> Edge(g, path[i], path[i + 1])
    requires Edge(g, path[|path| - 1], v)
    ensures IsCycle(g, cycle)
  {
    var k :| 0 <= k < |path| && path[k] == v;
    cycle := path[k..] + [v];
    forall i | 0 <= i < |cycle| - 1
      ensures Edge(g, cycle[i], cycle[i + 1])
    {
      if i < |cycle| - 2 {
        assert cycle[i] == path[k + i] && cycle[i + 1] == path[k + i + 1];
      }
    }
  }

  /** Popping a gray AS whose customers are all black, and colouring it black, keeps the invariant. */
  lemma FinishKeepsInv(g: Graph, u: Asn, color: map<Asn, Color>, stack: seq<Asn>, finish: map<Asn, nat>, clock: nat)
    requires Closed(g)
    requires u in color && u !in stack
    requires DfsInv(g, color, stack + [u], finish, clock)
    requires forall b :: b in g[u].customers ==> color[b] == Black
    ensures DfsInv(g, color[u := Black], stack, finish[u := clock], clock + 1)
    ensures Whites(color[u := Black]) == Whites(color)
  {
    var path := stack + [u];
    forall i | 0 <= i < |stack| - 1
      ensures Edge(g, stack[i], stack[i + 1])
    {
      assert stack[i] == path[i] && stack[i + 1] == path[i + 1];
    }
    forall i | 0 <= i < |stack|
      ensures stack[i] in color
    {
      assert stack[i] == path[i];
    }
    var c := color[u := Gray];
    forall a | a in color
      ensures color[a] == Gray <==> a in path
    {
    }
    assert color[u] == Gray by {
      assert u == path[|path| - 1];
    }
    forall a | a in color && a != u
      ensures color[a] == Gray <==> a in stack
    {
      assert a in path <==> a in stack;
    }
  }

  /** Every AS that was gray or black keeps its colour. */
  ghost predicate Keeps(before: map<Asn, Color>, after: map<Asn, Color>)
  {
    forall a :: a in before && before[a] != White ==> a in after && after[a] == before[a]
  }

  lemma KeepsTrans(c0: map<Asn, Color>, c1: map<Asn, Color>, c2: map<Asn, Color>)
    requires Keeps(c0, c1) && Keeps(c1, c2)
    ensures Keeps(c0, c2)
  {
  }

  /** The first `i` customers in `cs` are black. */
  ghost predicate BlackUpTo(color: map<Asn, Color>, cs: seq<Asn>, i: nat)
  {
    forall j :: 0 <= j < i && j < |cs| ==> cs[j] in color && color[cs[j]] == Black
  }

  /** Searching customer `i` blackens it and keeps the earlier ones black. */
  lemma BlackStep(before: map<Asn, Color>, after: map<Asn, Color>, cs: seq<Asn>, i: nat)
    requires i < |cs| && BlackUpTo(before, cs, i) && Keeps(before, after)
    requires cs[i] in after && after[cs[i]] == Black
    ensures BlackUpTo(after, cs, i + 1)
  {
  }

  /**
   * The recursive search from a white AS `u` whose parent is the top of the
   * stack: `u` turns gray, its customers are searched, and it turns black.
   * Reaching a gray customer reports a cycle; otherwise `u` ends black with
   * the invariant restored.
   */
  method Visit(g: Graph, u: Asn, color0: map<Asn, Color>, ghost stack: seq<Asn>, ghost finish0: map<Asn, nat>, ghost clock0: nat)
    returns (found: bool, color: map<Asn, Color>, ghost finish: map<Asn, nat>, ghost clock: nat, ghost cycle: seq<Asn>)
    requires Closed(g)
    requires u in color0 && color0[u] == White
    requires DfsInv(g, color0, stack, finish0, clock0)
    requires stack != [] ==> Edge(g, stack[|stack| - 1], u)
    ensures found ==> IsCycle(g, cycle)
    ensures !found ==> DfsInv(g, color, stack, finish, clock) && color[u] == Black
    ensures !found ==> Keeps(color0, color)
    ensures !found ==> Whites(color) <= Whites(color0)
    decreases 3 * |Whites(color0)|
  {
    assert u !in stack;
    EnterKeepsInv(g, u, color0, stack, finish0, clock0);
    found, color, finish, clock, cycle := VisitCustomers(g, u, color0[u := Gray], stack + [u], finish0, clock0);
    if found {
      return;
    }
    FinishKeepsInv(g, u, color, stack, finish, clock);
    color := color[u := Black];
    finish := finish[u := clock];
    clock := clock + 1;
  }

  /** The loop of the search over the customers of `u`, the top of the stack, in list order. */
  method VisitCustomers(g: Graph, u: Asn, color1: map<Asn, Color>, ghost path: seq<Asn>, ghost finish1: map<Asn, nat>, ghost clock1: nat)
    returns (found: bool, color: map<Asn, Color>, ghost finish: map<Asn, nat>, ghost clock: nat, ghost cycle: seq<Asn>)
    requires Closed(g) && u in g
    requires path != [] && path[|path| - 1] == u
    requires DfsInv(g, color1, path, finish1, clock1)
    ensures found ==> IsCycle(g, cycle)
    ensures !found ==> DfsInv(g, color, path, finish, clock)
    ensures !found ==> forall b :: b in g[u].customers ==> color[b] == Black
    ensures !found ==> Keeps(color1, color)
    ensures !found ==> Whites(color) <= Whites(color1)
    decreases 3 * |Whites(color1)| + 2
  {
    color, finish, clock := color1, finish1, clock1;
    cycle := [];
    var cs := g[u].customers;
    for i := 0 to |cs|
      invariant DfsInv(g, color, path, finish, clock)
      invariant BlackUpTo(color, cs, i)
      invariant Keeps(color1, color)
      invariant Whites(color) <= Whites(color1)
    {
      ghost var prev := color;
      SubsetCard(Whites(color), Whites(color1));
      var f;
      f, color, finish, clock, cycle := VisitChild(g, u, cs[i], color, path, finish, clock);
      if f {
        return true, color, finish, clock, cycle;
      }
      BlackStep(prev, color, cs, i);
      KeepsTrans(color1, prev, color);
    }
    found := false;
    forall b | b in cs
      ensures color[b] == Black
    {
      var j :| 0 <= j < |cs| && cs[j] == b;
    }
  }

  /**
   * One customer `v` of `u`, the top of the stack: a gray customer closes a
   * cycle, a white one is searched, a black one is already finished.
   */
  method VisitChild(g: Graph, u: Asn, v: Asn, color1: map<Asn, Color>, ghost path: seq<Asn>, ghost finish1: map<Asn, nat>, ghost clock1: nat)
    returns (found: bool, color: map<Asn, Color>, ghost finish: map<Asn, nat>, ghost clock: nat, ghost cycle: seq<Asn>)
    requires Closed(g) && Edge(g, u, v)
    requires path != [] && path[|path| - 1] == u
    requires DfsInv(g, color1, path, finish1, clock1)
    ensures found ==> IsCycle(g, cycle)
    ensures !found ==> DfsInv(g, color, path, finish, clock) && v in color && color[v] == Black
    ensures !found ==> Keeps(color1, color)
    ensures !found ==> Whites(color) <= Whites(color1)
    decreases 3 * |Whites(color1)| + 1
  {
    color, finish, clock, cycle := color1, finish1, clock1, [];
    found := false;
    assert Adjacent(g[u], v);
    if color[v] == Gray {
      cycle := BackEdgeCycle(g, path, v);
      found := true;
    } else if color[v] == White {
      found, color, finish, clock, cycle := Visit(g, v, color, path, finish, clock);
    }
  }

  /**
   * Colours every AS white and searches from each AS still white, in the
   * map's (unspecified) order.  The answer is exactly whether the
   * provider-to-customer edges contain a cycle; when they do not, the
   * finishing numbers of the search descend along every edge.
   */
  method HasProviderCycle(g: Graph) returns (found: bool, ghost finish: map<Asn, nat>)
    requires Closed(g)
    ensures found <==> HasCycle(g)
    ensures !found ==> Descending(g, finish)
  {
    var color: map<Asn, Color> := map a | a in g :: White;
    finish := map[];
    ghost var clock: nat := 0;
    var remaining := g.Keys;
    while remaining != {}
      invariant remaining <= g.Keys
      invariant DfsInv(g, color, [], finish, clock)
      invariant forall a :: a in g && a !in remaining ==> color[a] == Black
      decreases remaining
    {
      var asn :| asn in remaining;
      if color[asn] == White {
        var f;
        ghost var cyc;
        f, color, finish, clock, cyc := Visit(g, asn, color, [], finish, clock);
        if f {
          return true, finish;
        }
      }
      remaining := remaining - {asn};
    }
    found := false;
    DescendingAcyclic(g, finish);
  }
}
