/**
 * The route preference of the BGP decision process: relationship first
 * (origin, then customer, then peer, then provider), then the shorter AS path,
 * then the lower next-hop AS number; and the scan that picks the best of a
 * list of candidates.
 */
module Preference {
  import opened Announcements

  /** The preference score of a relationship: higher is preferred. */
  function ScoreRel(r: Relationship): (s: nat)
    ensures s <= 3
  {
    match r
    case Origin => 3
    case Customer => 2
    case Peer => 1
    case Provider => 0
  }

  /** `a` is strictly preferred to `b`. */
  predicate Better(a: Announcement, b: Announcement)
  {
    var sa := ScoreRel(a.receivedFrom);
    var sb := ScoreRel(b.receivedFrom);
    if sa != sb then sa > sb
    else if |a.asPath| != |b.asPath| then |a.asPath| < |b.asPath|
    else a.nextHopAsn < b.nextHopAsn
  }

  /**
   * The comparator used when the processing AS prepends its own number: both
   * path lengths are counted one longer.
   */
  predicate Better2(a: Announcement, b: Announcement)
  {
    var sa := ScoreRel(a.receivedFrom);
    var sb := ScoreRel(b.receivedFrom);
    if sa != sb then sa > sb
    else
      var aLen := |a.asPath| + 1;
      var bLen := |b.asPath| + 1;
      if aLen != bLen then aLen < bLen
      else a.nextHopAsn < b.nextHopAsn
  }

  /** The sort key of an announcement; larger keys are preferred. */
  function Key(a: Announcement): (int, int, int)
  {
    (ScoreRel(a.receivedFrom), -|a.asPath|, -(a.nextHopAsn as int))
  }

  /** Lexicographic "greater than" on keys. */
  predicate LexGreater(x: (int, int, int), y: (int, int, int))
  {
    x.0 > y.0 || (x.0 == y.0 && (x.1 > y.1 || (x.1 == y.1 && x.2 > y.2)))
  }

  /** The ordering of the four relationships. */
  lemma ScoreOrder()
    ensures ScoreRel(Origin) > ScoreRel(Customer) > ScoreRel(Peer) > ScoreRel(Provider)
  {
  }

  /** `Better` is the lexicographic order on (score, -path length, -next hop). */
  lemma BetterIsLexicographic(a: Announcement, b: Announcement)
    ensures Better(a, b) <==> LexGreater(Key(a), Key(b))
  {
  }

  /** Counting both paths one longer does not change the preference. */
  lemma Better2IsBetter(a: Announcement, b: Announcement)
    ensures Better2(a, b) <==> Better(a, b)
  {
  }

  /** `Better` is a strict order: irreflexive, asymmetric and transitive. */
  lemma BetterIsStrictOrder(a: Announcement, b: Announcement, c: Announcement)
    ensures !Better(a, a)
    ensures Better(a, b) ==> !Better(b, a)
    ensures Better(a, b) && Better(b, c) ==> Better(a, c)
  {
  }

  /**
   * Two announcements are tied (neither is preferred) exactly when they have
   * the same relationship score, path length and next hop; so "at least as
   * good as" is a total preorder.
   */
  lemma TieIsEqualKey(a: Announcement, b: Announcement, c: Announcement)
    ensures !Better(a, b) && !Better(b, a) <==> Key(a) == Key(b)
    ensures Better(a, b) || Better(b, a) || Key(a) == Key(b)
    ensures !Better(a, b) && !Better(b, c) ==> !Better(a, c)
  {
  }

  /**
   * The index kept by the scan `best := 0; for i in 1..|q|: if Better(q[i], q[best]) then best := i`
   * after the first `n` candidates.
   */
  function BestIndexUpTo(q: seq<Announcement>, n: nat): (b: nat)
    requires 1 <= n <= |q|
    ensures b < n
  {
    if n == 1 then 0
    else
      var b := BestIndexUpTo(q, n - 1);
      if Better(q[n - 1], q[b]) then n - 1 else b
  }

  /** The index of the announcement chosen among a non-empty list of candidates. */
  function BestIndex(q: seq<Announcement>): (b: nat)
    requires q != []
    ensures b < |q|
  {
    BestIndexUpTo(q, |q|)
  }

  /** The announcement chosen among a non-empty list of candidates. */
  function Chosen(q: seq<Announcement>): (a: Announcement)
    requires q != []
    ensures a in q
  {
    q[BestIndex(q)]
  }

  /**
   * The scan keeps a best candidate: it is strictly better than every earlier
   * candidate, and no later candidate is strictly better than it.
   */
  lemma {:induction false} BestIndexUpToIsBest(q: seq<Announcement>, n: nat)
    requires 1 <= n <= |q|
    ensures var b := BestIndexUpTo(q, n);
      && (forall j :: 0 <= j < b ==> Better(q[b], q[j]))
      && (forall j :: b < j < n ==> !Better(q[j], q[b]))
  {
    if n > 1 {
      BestIndexUpToIsBest(q, n - 1);
      var b' := BestIndexUpTo(q, n - 1);
      var b := BestIndexUpTo(q, n);
      if b == n - 1 {
        forall j | 0 <= j < b
          ensures Better(q[b], q[j])
        {
          if j != b' {
            if j < b' {
              BetterIsStrictOrder(q[b], q[b'], q[j]);
            } else {
              TieIsEqualKey(q[b'], q[j], q[b]);
            }
          }
        }
      }
    }
  }

  /**
   * The chosen candidate is in the list, no candidate is strictly better, and
   * among tied candidates the earliest is chosen.
   */
  lemma ChosenIsBest(q: seq<Announcement>)
    requires q != []
    ensures Chosen(q) in q
    ensures forall a :: a in q ==> !Better(a, Chosen(q))
    ensures forall j :: 0 <= j < BestIndex(q) ==> Better(Chosen(q), q[j])
  {
    BestIndexUpToIsBest(q, |q|);
    var b := BestIndex(q);
    forall a | a in q
      ensures !Better(a, Chosen(q))
    {
      var j :| 0 <= j < |q| && q[j] == a;
      if j < b {
        BetterIsStrictOrder(q[b], q[j], q[b]);
      } else if j == b {
        BetterIsStrictOrder(a, a, a);
      }
    }
  }

  /**
   * The chosen announcement depends only on the candidates and not on their
   * order, as long as no two different candidates are tied.
   */
  lemma {:induction false} ChosenIsOrderFree(q1: seq<Announcement>, q2: seq<Announcement>)
    requires q1 != [] && q2 != [] && multiset(q1) == multiset(q2)
    requires forall a, b :: a in q1 && b in q1 && a != b ==> Key(a) != Key(b)
    ensures Chosen(q1) == Chosen(q2)
  {
    ChosenIsBest(q1);
    ChosenIsBest(q2);
    var c1, c2 := Chosen(q1), Chosen(q2);
    assert c2 in multiset(q1);
    assert c1 in multiset(q2);
    TieIsEqualKey(c1, c2, c1);
  }

  /** The selection loop of the processing routines. */
  method SelectBest(q: seq<Announcement>) returns (best: nat)
    requires q != []
    ensures best == BestIndex(q)
    ensures best < |q| && forall a :: a in q ==> !Better(a, q[best])
  {
    best := 0;
    var i := 1;
    while i < |q|
      invariant 1 <= i <= |q|
      invariant best == BestIndexUpTo(q, i)
    {
      if Better(q[i], q[best]) {
        best := i;
      }
      i := i + 1;
    }
    ChosenIsBest(q);
  }
}
