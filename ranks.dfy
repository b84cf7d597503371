/**
 * Propagation ranks: an AS without customers has rank 0, any other AS one
 * more than the highest rank among its customers.  The ranks are computed by a
 * memoised depth-first search (after the cycle check) and the ASes are then
 * grouped into one bucket per rank.
 */
module Ranks {
  import opened Announcements
  import opened Wrappers
  import opened Graphs
  import opened Cycles

  /** What the loop `mx = 0; for c in customers: if rank[c] + 1 > mx then mx = rank[c] + 1` leaves in `mx`. */
  function MaxPlusOne(rank: map<Asn, nat>, cs: seq<Asn>): nat
    requires forall c :: c in cs ==> c in rank
  {
    if cs == [] then 0
    else
      var m := MaxPlusOne(rank, cs[..|cs| - 1]);
      var r := rank[cs[|cs| - 1]] + 1;
      if r > m then r else m
  }

  /**
   * The loop computes one more than the highest rank in the list: it is above
   * every listed rank, attained by one of them, and 0 only for an empty list.
   */
  lemma {:induction false} MaxPlusOneIsMax(rank: map<Asn, nat>, cs: seq<Asn>)
    requires forall c :: c in cs ==> c in rank
    ensures forall c :: c in cs ==> rank[c] < MaxPlusOne(rank, cs)
    ensures MaxPlusOne(rank, cs) == 0 <==> cs == []
    ensures cs != [] ==> exists c :: c in cs && MaxPlusOne(rank, cs) == rank[c] + 1
  {
    if cs != [] {
      var init := cs[..|cs| - 1];
      assert cs == init + [cs[|cs| - 1]];
      MaxPlusOneIsMax(rank, init);
    }
  }

  /** The value only depends on the ranks of the listed customers. */
  lemma {:induction false} MaxPlusOneStable(m1: map<Asn, nat>, m2: map<Asn, nat>, cs: seq<Asn>)
    requires forall c :: c in cs ==> c in m1 && c in m2 && m1[c] == m2[c]
    ensures MaxPlusOne(m1, cs) == MaxPlusOne(m2, cs)
  {
    if cs != [] {
      MaxPlusOneStable(m1, m2, cs[..|cs| - 1]);
    }
  }

  /** `memo` assigns ranks to a set of ASes closed under taking customers, each by the rank equation. */
  ghost predicate Partial(g: Graph, memo: map<Asn, nat>)
  {
    && memo.Keys <= g.Keys
    && forall a :: a in memo ==>
         && (forall c :: c in g[a].customers ==> c in memo)
         && memo[a] == MaxPlusOne(memo, g[a].customers)
  }

  /** A ranking of the whole graph. */
  ghost predicate IsRanking(g: Graph, rank: map<Asn, nat>)
  {
    Partial(g, rank) && rank.Keys == g.Keys
  }

  /**
   * In a ranking an AS has rank 0 exactly when it has no customers, every
   * customer ranks strictly below its provider, and some customer ranks
   * exactly one below.
   */
  lemma RankingProperties(g: Graph, rank: map<Asn, nat>, a: Asn)
    requires IsRanking(g, rank) && a in g
    ensures rank[a] == 0 <==> g[a].customers == []
    ensures forall c :: c in g[a].customers ==> c in rank && rank[c] < rank[a]
    ensures g[a].customers != [] ==> exists c :: c in g[a].customers && rank[c] + 1 == rank[a]
  {
    MaxPlusOneIsMax(rank, g[a].customers);
  }

  /** Ranks descend along provider-to-customer edges, so a graph with a ranking has no cycle. */
  lemma RankingAcyclic(g: Graph, rank: map<Asn, nat>)
    requires IsRanking(g, rank)
    ensures Descending(g, rank)
    ensures !HasCycle(g)
  {
    forall u, v | Edge(g, u, v)
      ensures v in rank && rank[v] < rank[u]
    {
      RankingProperties(g, rank, u);
    }
    DescendingAcyclic(g, rank);
  }

  /** The rank equation has one solution only: any two rankings of a graph agree. */
  lemma RankingUnique(g: Graph, r1: map<Asn, nat>, r2: map<Asn, nat>)
    requires IsRanking(g, r1) && IsRanking(g, r2)
    ensures r1 == r2
  {
    RankingAcyclic(g, r1);
    forall a | a in g
      ensures r1[a] == r2[a]
    {
      RankingsAgreeAt(g, r1, r2, a);
    }
  }

  lemma {:induction false} RankingsAgreeAt(g: Graph, r1: map<Asn, nat>, r2: map<Asn, nat>, a: Asn)
    requires IsRanking(g, r1) && IsRanking(g, r2) && Descending(g, r1) && a in g
    ensures r1[a] == r2[a]
    decreases r1[a]
  {
    forall c | c in g[a].customers
      ensures r1[c] == r2[c]
    {
      assert Edge(g, a, c);
      RankingsAgreeAt(g, r1, r2, c);
    }
    MaxPlusOneStable(r1, r2, g[a].customers);
  }

  /** Adding the rank of a new AS whose customers are all ranked keeps the memo consistent. */
  lemma PartialExtend(g: Graph, memo: map<Asn, nat>, asn: Asn, v: nat)
    requires Partial(g, memo) && asn in g && asn !in memo
    requires forall c :: c in g[asn].customers ==> c in memo
    requires v == MaxPlusOne(memo, g[asn].customers)
    ensures Partial(g, memo[asn := v])
  {
    var m := memo[asn := v];
    forall a | a in m
      ensures m[a] == MaxPlusOne(m, g[a].customers)
    {
      MaxPlusOneStable(memo, m, g[a].customers);
    }
  }

  /**
   * The memoised search for the rank of `asn`: a remembered rank is returned
   * as is; otherwise the customers are ranked first.  The memo only grows,
   * keeps the rank equation, and only gains ASes numbered no higher than
   * `asn` by the finishing numbers of the cycle check.
   */
  method RankDfs(g: Graph, asn: Asn, memo0: map<Asn, nat>, ghost fin: map<Asn, nat>) returns (r: nat, memo: map<Asn, nat>)
    requires Closed(g) && Descending(g, fin) && asn in g
    requires Partial(g, memo0)
    ensures Partial(g, memo) && asn in memo && r == memo[asn]
    ensures forall a :: a in memo0 ==> a in memo && memo[a] == memo0[a]
    ensures forall a :: a in memo && a !in memo0 ==> a in fin && fin[a] <= fin[asn]
    decreases fin[asn]
  {
    if asn in memo0 {
      return memo0[asn], memo0;
    }
    memo := memo0;
    var cs := g[asn].customers;
    if cs == [] {
      PartialExtend(g, memo, asn, 0);
      memo := memo[asn := 0];
      return 0, memo;
    }
    var mx := 0;
    for i := 0 to |cs|
      invariant Partial(g, memo) && asn !in memo
      invariant forall a :: a in memo0 ==> a in memo && memo[a] == memo0[a]
      invariant forall a :: a in memo && a !in memo0 ==> a in fin && fin[a] < fin[asn]
      invariant forall j :: 0 <= j < i ==> cs[j] in memo
      invariant mx == MaxPlusOne(memo, cs[..i])
    {
      assert Edge(g, asn, cs[i]);
      ghost var before := memo;
      var rc;
      rc, memo := RankDfs(g, cs[i], memo, fin);
      MemoStep(memo0, before, memo, fin, asn, cs, i);
      MaxStep(before, memo, cs, i);
      if rc + 1 > mx {
        mx := rc + 1;
      }
    }
    assert cs[..|cs|] == cs;
    PartialExtend(g, memo, asn, mx);
    memo := memo[asn := mx];
    r := mx;
  }

  /**
   * One customer ranked: the memo still extends `memo0`, still gains only
   * ASes that finish before `asn`, never gains `asn` itself, and now holds
   * the first `i + 1` customers.
   */
  lemma MemoStep(memo0: map<Asn, nat>, before: map<Asn, nat>, memo: map<Asn, nat>, fin: map<Asn, nat>,
                 asn: Asn, cs: seq<Asn>, i: nat)
    requires i < |cs| && asn in fin && cs[i] in fin && fin[cs[i]] < fin[asn]
    requires asn !in before
    requires forall a :: a in memo0 ==> a in before && before[a] == memo0[a]
    requires forall a :: a in before && a !in memo0 ==> a in fin && fin[a] < fin[asn]
    requires forall j :: 0 <= j < i ==> cs[j] in before
    requires cs[i] in memo
    requires forall a :: a in before ==> a in memo && memo[a] == before[a]
    requires forall a :: a in memo && a !in before ==> a in fin && fin[a] <= fin[cs[i]]
    ensures asn !in memo
    ensures forall a :: a in memo0 ==> a in memo && memo[a] == memo0[a]
    ensures forall a :: a in memo && a !in memo0 ==> a in fin && fin[a] < fin[asn]
    ensures forall j :: 0 <= j < i + 1 ==> cs[j] in memo
  {
  }

  /** The loop's running value after one more customer, with the earlier customers' ranks unchanged. */
  lemma MaxStep(before: map<Asn, nat>, memo: map<Asn, nat>, cs: seq<Asn>, i: nat)
    requires i < |cs| && cs[i] in memo
    requires forall j :: 0 <= j < i ==> cs[j] in before
    requires forall a :: a in before ==> a in memo && memo[a] == before[a]
    ensures forall c :: c in cs[..i + 1] ==> c in memo
    ensures var m := MaxPlusOne(before, cs[..i]);
      MaxPlusOne(memo, cs[..i + 1]) == if memo[cs[i]] + 1 > m then memo[cs[i]] + 1 else m
  {
    MaxPlusOneStable(before, memo, cs[..i]);
    assert cs[..i + 1][..i] == cs[..i];
  }

  /** `m` is the highest rank (0 for an empty graph). */
  ghost predicate IsMaxRank(rank: map<Asn, nat>, m: nat)
  {
    && (forall a :: a in rank ==> rank[a] <= m)
    && (m == 0 || exists a :: a in rank && rank[a] == m)
  }

  /** One bucket per rank from 0 to the highest, bucket `i` listing each AS of rank `i` exactly once. */
  ghost predicate IsBuckets(g: Graph, rank: map<Asn, nat>, buckets: seq<seq<Asn>>)
  {
    && |buckets| >= 1
    && IsMaxRank(rank, |buckets| - 1)
    && forall i, a :: 0 <= i < |buckets| ==>
         multiset(buckets[i])[a] == (if a in g && a in rank && rank[a] == i then 1 else 0)
  }

  /** Bucket `i` holds exactly the ASes of rank `i`, so every AS is in exactly one bucket. */
  lemma BucketMembership(g: Graph, rank: map<Asn, nat>, buckets: seq<seq<Asn>>, i: nat, a: Asn)
    requires IsRanking(g, rank) && IsBuckets(g, rank, buckets) && i < |buckets|
    ensures a in buckets[i] <==> a in g && rank[a] == i
    ensures a in g ==> rank[a] < |buckets| && a in buckets[rank[a]]
  {
    assert a in buckets[i] <==> a in multiset(buckets[i]);
    if a in g {
      var j := rank[a];
      assert multiset(buckets[j])[a] == 1;
    }
  }

  /**
   * What the propagation phases rely on, with the rank equation left out: every
   * AS has a rank below the number of buckets, bucket `r` holds exactly the
   * ASes of rank `r`, and customers rank below their providers.
   */
  ghost predicate Layered(g: Graph, rank: map<Asn, nat>, buckets: seq<seq<Asn>>)
  {
    && rank.Keys == g.Keys
    && (forall a :: a in rank ==> rank[a] < |buckets|)
    && (forall r, a :: 0 <= r < |buckets| ==> (a in buckets[r] <==> a in rank && rank[a] == r))
    && (forall a, c :: a in g && c in g[a].customers ==> c in rank && rank[c] < rank[a])
  }

  lemma RankedIsLayered(g: Graph, rank: map<Asn, nat>, buckets: seq<seq<Asn>>)
    requires IsRanking(g, rank) && IsBuckets(g, rank, buckets)
    ensures Layered(g, rank, buckets)
  {
    forall r, a | 0 <= r < |buckets|
      ensures a in buckets[r] <==> a in rank && rank[a] == r
    {
      BucketMembership(g, rank, buckets, r, a);
    }
    forall a, c | a in g && c in g[a].customers
      ensures c in rank && rank[c] < rank[a]
    {
      RankingProperties(g, rank, a);
    }
  }

  /** The first loop: ranks every AS, in the map's order, and keeps the highest rank seen. */
  method RankAll(g: Graph, ghost fin: map<Asn, nat>) returns (memo: map<Asn, nat>, maxrank: nat)
    requires Closed(g) && Descending(g, fin)
    ensures IsRanking(g, memo) && IsMaxRank(memo, maxrank)
  {
    memo := map[];
    maxrank := 0;
    var remaining := g.Keys;
    while remaining != {}
      invariant remaining <= g.Keys && Partial(g, memo)
      invariant forall a :: a in g && a !in remaining ==> a in memo
      invariant forall a :: a in memo && a !in remaining ==> memo[a] <= maxrank
      invariant maxrank == 0 || exists a :: a in memo && a !in remaining && memo[a] == maxrank
      decreases remaining
    {
      var asn :| asn in remaining;
      var r;
      r, memo := RankDfs(g, asn, memo, fin);
      if r > maxrank {
        maxrank := r;
      }
      remaining := remaining - {asn};
    }
  }

  /** Bucket `i` lists each AS of rank `i` that is not in `remaining` exactly once. */
  ghost predicate FilledExcept(memo: map<Asn, nat>, remaining: set<Asn>, ranks: seq<seq<Asn>>)
  {
    forall i, a :: 0 <= i < |ranks| ==>
      multiset(ranks[i])[a] == (if a in memo && a !in remaining && memo[a] == i then 1 else 0)
  }

  /** Appending `asn` to the bucket of its rank accounts for it. */
  lemma FillStep(memo: map<Asn, nat>, remaining: set<Asn>, ranks: seq<seq<Asn>>, asn: Asn)
    requires asn in remaining && asn in memo && memo[asn] < |ranks|
    requires FilledExcept(memo, remaining, ranks)
    ensures FilledExcept(memo, remaining - {asn}, ranks[memo[asn] := ranks[memo[asn]] + [asn]])
  {
    var r := memo[asn];
    var next := ranks[r := ranks[r] + [asn]];
    forall i, a | 0 <= i < |next|
      ensures multiset(next[i])[a] == (if a in memo && a !in remaining - {asn} && memo[a] == i then 1 else 0)
    {
      if i == r {
        assert multiset(next[i]) == multiset(ranks[i]) + multiset{asn};
      } else {
        assert next[i] == ranks[i];
      }
    }
  }

  /** Once every AS is accounted for, the buckets are those of the ranking. */
  lemma FilledIsBuckets(g: Graph, memo: map<Asn, nat>, ranks: seq<seq<Asn>>)
    requires |ranks| >= 1 && IsRanking(g, memo) && IsMaxRank(memo, |ranks| - 1)
    requires FilledExcept(memo, {}, ranks)
    ensures IsBuckets(g, memo, ranks)
  {
    forall i, a | 0 <= i < |ranks|
      ensures multiset(ranks[i])[a] == (if a in g && a in memo && memo[a] == i then 1 else 0)
    {
      assert a in memo <==> a in g;
    }
  }

  /** The second loop: one bucket per rank up to `maxrank`, each AS appended to the bucket of its rank. */
  method FillBuckets(g: Graph, memo: map<Asn, nat>, maxrank: nat) returns (ranks: seq<seq<Asn>>)
    requires IsRanking(g, memo) && IsMaxRank(memo, maxrank)
    ensures IsBuckets(g, memo, ranks)
  {
    ranks := seq(maxrank + 1, _ => []);
    var remaining := g.Keys;
    while remaining != {}
      invariant remaining <= g.Keys && |ranks| == maxrank + 1
      invariant FilledExcept(memo, remaining, ranks)
      decreases remaining
    {
      var asn :| asn in remaining;
      FillStep(memo, remaining, ranks, asn);
      ranks := ranks[memo[asn] := ranks[memo[asn]] + [asn]];
      remaining := remaining - {asn};
    }
    FilledIsBuckets(g, memo, ranks);
  }

  /**
   * Groups the ASes by rank.  A graph with a provider cycle has no ranking
   * and gives no result (the source throws); otherwise the ranks satisfy the
   * rank equation and the buckets list each AS once, under its rank.
   */
  method FlattenByProviders(g: Graph) returns (result: Option<seq<seq<Asn>>>, ghost rank: map<Asn, nat>)
    requires Closed(g)
    ensures result.None? <==> HasCycle(g)
    ensures result.Some? ==> IsRanking(g, rank) && IsBuckets(g, rank, result.value)
  {
    var cyclic;
    ghost var fin;
    cyclic, fin := HasProviderCycle(g);
    if cyclic {
      return None, map[];
    }
    var memo, maxrank := RankAll(g, fin);
    var ranks := FillBuckets(g, memo, maxrank);
    RankingAcyclic(g, memo);
    return Some(ranks), memo;
  }
}
