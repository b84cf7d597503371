/**
 * What propagation guarantees about the routes the ASes hold: every received
 * queue is empty once propagation is over; an ROV AS never holds a route
 * flagged ROV-invalid, and the flag of a route never changes on its way; and
 * a customer's route reaches each provider that accepts it.
 */
module Routes {
  import opened Announcements
  import opened Policies
  import opened Graphs
  import opened Ranks
  import opened Propagation

  /** The ASes of rank `k` and above have empty queues. */
  ghost predicate QuietFrom(g: Graph, rank: map<Asn, nat>, k: int)
  {
    forall a :: a in g && a in rank && rank[a] >= k ==> g[a].policy.receivedQueue == map[]
  }

  /** An AS that none of the senders targets is left exactly as it was. */
  lemma {:induction false} SendAllElsewhere(g: Graph, senders: seq<Asn>, dir: Direction, t: Asn)
    requires t in g
    requires forall s :: s in senders && s in g ==> t !in Targets(g[s], dir)
    ensures t in SendAll(g, senders, dir) && SendAll(g, senders, dir)[t] == g[t]
    decreases |senders|
  {
    if senders != [] {
      var init := senders[..|senders| - 1];
      var s := senders[|senders| - 1];
      SendAllElsewhere(g, init, dir, t);
      var h := SendAll(g, init, dir);
      SendAllShape(g, init, dir);
      if s in h {
        assert SameLinks(h[s], g[s]);
        assert Targets(h[s], dir) == Targets(g[s], dir);
        SendRibElsewhere(h, s, dir, t);
      }
    }
  }

  /** Processing a bucket empties the queues of its members and touches no other AS. */
  lemma {:induction false} ProcessAllEffect(g: Graph, bucket: seq<Asn>, a: Asn)
    requires a in g
    ensures a in ProcessAll(g, bucket)
    ensures a in bucket ==> ProcessAll(g, bucket)[a].policy.receivedQueue == map[]
    ensures a !in bucket ==> ProcessAll(g, bucket)[a] == g[a]
    decreases |bucket|
  {
    if bucket != [] {
      var init := bucket[..|bucket| - 1];
      ProcessAllEffect(g, init, a);
      ProcessAllShape(g, init);
      assert bucket == init + [bucket[|bucket| - 1]];
    }
  }

  /** Going down, rank `r` only sends to customers, which rank below `r`. */
  lemma SendDownElsewhere(g0: Graph, rank: map<Asn, nat>, buckets: seq<seq<Asn>>, h: Graph, r: nat, a: Asn)
    requires Layered(g0, rank, buckets) && SameShape(g0, h)
    requires r < |buckets| && a in h && rank[a] >= r
    ensures a in SendAll(h, buckets[r], Down) && SendAll(h, buckets[r], Down)[a] == h[a]
  {
    forall s | s in buckets[r] && s in h
      ensures a !in Targets(h[s], Down)
    {
      assert SameLinks(h[s], g0[s]);
    }
    SendAllElsewhere(h, buckets[r], Down, a);
  }

  /** One downward iteration: if rank `r` and above are quiet before, rank `r - 1` and above are quiet after. */
  lemma DownStepQuiet(g0: Graph, rank: map<Asn, nat>, buckets: seq<seq<Asn>>, h: Graph, r: nat)
    requires Layered(g0, rank, buckets) && SameShape(g0, h)
    requires r < |buckets| && QuietFrom(h, rank, r)
    ensures QuietFrom(DownStep(h, buckets, r), rank, r - 1)
  {
    var h1 := SendAll(h, buckets[r], Down);
    SendAllShape(h, buckets[r], Down);
    forall a | a in h1 && a in rank && rank[a] >= r
      ensures h1[a].policy.receivedQueue == map[]
    {
      SendDownElsewhere(g0, rank, buckets, h, r, a);
    }
    if r >= 1 {
      ProcessAllShape(h1, buckets[r - 1]);
      forall a | a in h1 && a in rank && rank[a] >= r - 1
        ensures ProcessAll(h1, buckets[r - 1])[a].policy.receivedQueue == map[]
      {
        ProcessAllEffect(h1, buckets[r - 1], a);
      }
    }
  }

  /**
   * The downward iterations for the ranks below `n`, started with the ranks
   * from `n - 1` up quiet, leave every queue empty.
   */
  lemma {:induction false} DownQuiet(g0: Graph, rank: map<Asn, nat>, buckets: seq<seq<Asn>>, g: Graph, n: nat)
    requires Layered(g0, rank, buckets) && SameShape(g0, g)
    requires n <= |buckets| && QuietFrom(g, rank, n - 1)
    ensures Quiet(DownFrom(g, buckets, n))
    decreases n
  {
    if n > 0 {
      var h := DownStep(g, buckets, n - 1);
      DownStepQuiet(g0, rank, buckets, g, n - 1);
      DownStepShape(g, buckets, n - 1);
      SameShapeTrans(g0, g, h);
      DownQuiet(g0, rank, buckets, h, n - 1);
    } else {
      assert g.Keys == rank.Keys;
    }
  }

  /** After propagation every received queue is empty. */
  lemma PropagateQuiet(g: Graph, rank: map<Asn, nat>, buckets: seq<seq<Asn>>, order: seq<Asn>)
    requires IsRanking(g, rank) && IsBuckets(g, rank, buckets)
    ensures Quiet(Propagate(g, buckets, order))
  {
    var up := UpFrom(g, buckets, 0);
    var across := AcrossPhase(up, order);
    RankedIsLayered(g, rank, buckets);
    UpFromShape(g, buckets, 0);
    AcrossPhaseShape(up, order);
    SameShapeTrans(g, up, across);
    DownQuiet(g, rank, buckets, across, |buckets|);
  }

  // ------------------------------------------------------------ invariants of the routes

  /** A property of every route in the graph that the building operations and propagation keep. */
  datatype RouteInvariant =
    | RovFiltered                               // no ROV AS holds an ROV-invalid route
    | FlaggedAll(prefix: Prefix, invalid: bool) // every route of `prefix` has ROV flag `invalid`

  ghost predicate Upholds(g: Graph, w: RouteInvariant)
  {
    match w
    case RovFiltered => forall a :: a in g ==> RovClean(g[a].policy)
    case FlaggedAll(p, b) => forall a :: a in g ==> FlaggedAs(g[a].policy, p, b)
  }

  /** The policy of an AS keeps the invariant. */
  ghost predicate PolicyUpholds(st: PolicyState, w: RouteInvariant)
  {
    match w
    case RovFiltered => RovClean(st)
    case FlaggedAll(p, b) => FlaggedAs(st, p, b)
  }

  /** A graph keeps the invariant exactly when each of its policies does. */
  lemma UpholdsAt(g: Graph, w: RouteInvariant, a: Asn)
    requires Upholds(g, w) && a in g
    ensures PolicyUpholds(g[a].policy, w)
  {
  }

  /** An AS that already existed keeps the invariant, and a new one starts with an empty policy. */
  lemma LookupUpholds(g: Graph, a: Asn, w: RouteInvariant)
    requires Upholds(g, w)
    ensures PolicyUpholds(Lookup(g, a).policy, w)
  {
    if a in g {
      UpholdsAt(g, w, a);
    }
  }

  /** Adding an AS or giving it a fresh ROV policy keeps every route invariant. */
  lemma AddNodeUpholds(g: Graph, x: Asn, w: RouteInvariant)
    requires Upholds(g, w)
    ensures Upholds(Graphs.AddNode(g, x), w)
    ensures Upholds(Graphs.SetRov(g, x), w)
  {
    var r := Graphs.AddNode(g, x);
    forall a | a in r
      ensures PolicyUpholds(r[a].policy, w)
    {
      LookupUpholds(g, a, w);
    }
    var v := Graphs.SetRov(g, x);
    forall a | a in v
      ensures PolicyUpholds(v[a].policy, w)
    {
      if a != x {
        UpholdsAt(g, w, a);
      }
    }
  }

  /** Recording a provider link touches no policy, so every route invariant is kept. */
  lemma ProviderUpholds(g: Graph, x: Asn, y: Asn, w: RouteInvariant)
    requires Upholds(g, w)
    ensures Upholds(Graphs.AddProvider(g, x, y), w)
  {
    var r := Graphs.AddProvider(g, x, y);
    forall a | a in r
      ensures PolicyUpholds(r[a].policy, w)
    {
      LookupUpholds(g, a, w);
    }
  }

  /** Recording a peer link touches no policy, so every route invariant is kept. */
  lemma PeerUpholds(g: Graph, x: Asn, y: Asn, w: RouteInvariant)
    requires Upholds(g, w)
    ensures Upholds(Graphs.AddPeer(g, x, y), w)
  {
    var r := Graphs.AddPeer(g, x, y);
    forall a | a in r
      ensures PolicyUpholds(r[a].policy, w)
    {
      LookupUpholds(g, a, w);
    }
  }

  /**
   * Seeding keeps every route invariant: ROV drops an invalid seed, and a
   * seed of the watched prefix carries the watched flag.
   */
  lemma SeedUpholds(g: Graph, x: Asn, ann: Announcement, w: RouteInvariant)
    requires Upholds(g, w)
    requires w.FlaggedAll? && ann.prefix == w.prefix ==> ann.rovInvalid == w.invalid
    ensures Upholds(Seed(g, x, ann), w)
  {
    var st := Lookup(g, x).policy;
    LookupUpholds(g, x, w);
    match w {
      case RovFiltered =>
        ReceiveRovClean(st, ann);
        ProcessRovClean(Receive(st, ann), x);
      case FlaggedAll(p, b) =>
        ReceiveFlaggedAs(st, ann, p, b);
        ProcessFlaggedAs(Receive(st, ann), x, p, b);
    }
    var r := Seed(g, x, ann);
    forall a | a in r
      ensures PolicyUpholds(r[a].policy, w)
    {
      if a != x {
        UpholdsAt(g, w, a);
      }
    }
  }

  /** An AS that already existed has an empty queue, and so has a new one. */
  lemma LookupQuiet(g: Graph, a: Asn)
    requires Quiet(g)
    ensures Lookup(g, a).policy.receivedQueue == map[]
  {
  }

  /** Recording a provider link touches no policy, so every queue stays empty. */
  lemma ProviderQuiet(g: Graph, x: Asn, y: Asn)
    requires Quiet(g)
    ensures Quiet(Graphs.AddProvider(g, x, y))
  {
    var r := Graphs.AddProvider(g, x, y);
    forall a | a in r
      ensures r[a].policy.receivedQueue == map[]
    {
      LookupQuiet(g, a);
    }
  }

  /** Recording a peer link touches no policy, so every queue stays empty. */
  lemma PeerQuiet(g: Graph, x: Asn, y: Asn)
    requires Quiet(g)
    ensures Quiet(Graphs.AddPeer(g, x, y))
  {
    var r := Graphs.AddPeer(g, x, y);
    forall a | a in r
      ensures r[a].policy.receivedQueue == map[]
    {
      LookupQuiet(g, a);
    }
  }


  /** What one sender delivers to `a` keeps `a`'s policy within the invariant, when the sender's RIB does. */
  lemma OfferedUpholds(st: PolicyState, rib: map<Prefix, Announcement>, sender: Asn, dir: Direction,
                       cnt: map<Prefix, multiset<Asn>>, a: Asn, w: RouteInvariant)
    requires PolicyUpholds(st, w)
    requires w.FlaggedAll? && w.prefix in rib ==> rib[w.prefix].rovInvalid == w.invalid
    ensures PolicyUpholds(Offered(st, rib, sender, dir, cnt, a), w)
  {
    var o := Offered(st, rib, sender, dir, cnt, a);
    forall p, x | p in o.receivedQueue && x in o.receivedQueue[p]
      ensures x in Queued(st, p) || (p in rib && x == Sent(p, rib[p], sender, dir) && Accepts(st.kind, x))
    {
      OfferedQueue(st, rib, sender, dir, cnt, a, p);
    }
    if w.RovFiltered? && st.kind == ROV {
      forall p, x | p in o.receivedQueue && x in o.receivedQueue[p]
        ensures !x.rovInvalid
      {
        if x in Queued(st, p) {
          assert x in st.receivedQueue[p];
        }
      }
    }
    if w.FlaggedAll? && w.prefix in o.receivedQueue {
      forall x | x in o.receivedQueue[w.prefix]
        ensures x.rovInvalid == w.invalid
      {
        if x in Queued(st, w.prefix) {
          assert x in st.receivedQueue[w.prefix];
        }
      }
    }
  }

  /** One AS sending its RIB keeps the invariant. */
  lemma SendRibUpholds(g: Graph, s: Asn, dir: Direction, w: RouteInvariant)
    requires s in g && Upholds(g, w)
    ensures Upholds(SendRib(g, s, dir), w)
  {
    var rib := g[s].policy.localRib;
    var cnt := Counts(rib.Keys, rib.Keys, Targets(g[s], dir));
    UpholdsAt(g, w, s);
    forall a | a in g
      ensures PolicyUpholds(Offered(g[a].policy, rib, s, dir, cnt, a), w)
    {
      UpholdsAt(g, w, a);
      OfferedUpholds(g[a].policy, rib, s, dir, cnt, a, w);
    }
  }

  /** One AS processing its queue keeps the invariant. */
  lemma ProcessNodeUpholds(g: Graph, a: Asn, w: RouteInvariant)
    requires Upholds(g, w)
    ensures Upholds(ProcessNode(g, a), w)
  {
    if a in g {
      UpholdsAt(g, w, a);
      match w
      case RovFiltered => ProcessRovClean(g[a].policy, a);
      case FlaggedAll(p, b) => ProcessFlaggedAs(g[a].policy, a, p, b);
    }
  }

  lemma {:induction false} SendAllUpholds(g: Graph, senders: seq<Asn>, dir: Direction, w: RouteInvariant)
    requires Upholds(g, w)
    ensures Upholds(SendAll(g, senders, dir), w)
    decreases |senders|
  {
    if senders != [] {
      var h := SendAll(g, senders[..|senders| - 1], dir);
      SendAllUpholds(g, senders[..|senders| - 1], dir, w);
      if senders[|senders| - 1] in h {
        SendRibUpholds(h, senders[|senders| - 1], dir, w);
      }
    }
  }

  lemma {:induction false} ProcessAllUpholds(g: Graph, bucket: seq<Asn>, w: RouteInvariant)
    requires Upholds(g, w)
    ensures Upholds(ProcessAll(g, bucket), w)
    decreases |bucket|
  {
    if bucket != [] {
      ProcessAllUpholds(g, bucket[..|bucket| - 1], w);
      ProcessNodeUpholds(ProcessAll(g, bucket[..|bucket| - 1]), bucket[|bucket| - 1], w);
    }
  }

  lemma UpStepUpholds(g: Graph, buckets: seq<seq<Asn>>, r: nat, w: RouteInvariant)
    requires r < |buckets| && Upholds(g, w)
    ensures Upholds(UpStep(g, buckets, r), w)
  {
    SendAllUpholds(g, buckets[r], Up, w);
    if r + 1 < |buckets| {
      ProcessAllUpholds(SendAll(g, buckets[r], Up), buckets[r + 1], w);
    }
  }

  lemma {:induction false} UpFromUpholds(g: Graph, buckets: seq<seq<Asn>>, r: nat, w: RouteInvariant)
    requires r <= |buckets| && Upholds(g, w)
    ensures Upholds(UpFrom(g, buckets, r), w)
    decreases |buckets| - r
  {
    if r < |buckets| {
      UpStepUpholds(g, buckets, r, w);
      UpFromUpholds(UpStep(g, buckets, r), buckets, r + 1, w);
    }
  }

  lemma AcrossPhaseUpholds(g: Graph, order: seq<Asn>, w: RouteInvariant)
    requires Upholds(g, w)
    ensures Upholds(AcrossPhase(g, order), w)
  {
    var h := SendAll(g, order, Across);
    SendAllUpholds(g, order, Across, w);
    forall a | a in h
      ensures PolicyUpholds(ProcessFor(h[a].policy, a), w)
    {
      UpholdsAt(h, w, a);
      match w
      case RovFiltered => ProcessRovClean(h[a].policy, a);
      case FlaggedAll(p, b) => ProcessFlaggedAs(h[a].policy, a, p, b);
    }
  }

  lemma DownStepUpholds(g: Graph, buckets: seq<seq<Asn>>, r: nat, w: RouteInvariant)
    requires r < |buckets| && Upholds(g, w)
    ensures Upholds(DownStep(g, buckets, r), w)
  {
    SendAllUpholds(g, buckets[r], Down, w);
    if r >= 1 {
      ProcessAllUpholds(SendAll(g, buckets[r], Down), buckets[r - 1], w);
    }
  }

  lemma {:induction false} DownFromUpholds(g: Graph, buckets: seq<seq<Asn>>, n: nat, w: RouteInvariant)
    requires n <= |buckets| && Upholds(g, w)
    ensures Upholds(DownFrom(g, buckets, n), w)
    decreases n
  {
    if n > 0 {
      DownStepUpholds(g, buckets, n - 1, w);
      DownFromUpholds(DownStep(g, buckets, n - 1), buckets, n - 1, w);
    }
  }

  /**
   * Propagation keeps every route invariant, whatever the buckets and the
   * order of the across phase: an ROV AS ends holding no ROV-invalid route,
   * and a route's ROV flag is the one it was seeded with.
   */
  lemma PropagateUpholds(g: Graph, buckets: seq<seq<Asn>>, order: seq<Asn>, w: RouteInvariant)
    requires Upholds(g, w)
    ensures Upholds(Propagate(g, buckets, order), w)
  {
    UpFromUpholds(g, buckets, 0, w);
    AcrossPhaseUpholds(UpFrom(g, buckets, 0), order, w);
    DownFromUpholds(AcrossPhase(UpFrom(g, buckets, 0), order), buckets, |buckets|, w);
  }

  /**
   * When every route of `p` is ROV-invalid and no ROV AS holds an invalid
   * route, then after propagation no ROV AS has an entry for `p`, while the
   * routes of `p` that are held are still flagged invalid.
   */
  lemma RovDropsInvalidPrefix(g: Graph, buckets: seq<seq<Asn>>, order: seq<Asn>, p: Prefix)
    requires Upholds(g, RovFiltered) && Upholds(g, FlaggedAll(p, true))
    ensures var h := Propagate(g, buckets, order);
      && (forall a :: a in h && h[a].policy.kind == ROV ==> p !in h[a].policy.localRib)
      && (forall a :: a in h && p in h[a].policy.localRib ==> h[a].policy.localRib[p].rovInvalid)
  {
    var h := Propagate(g, buckets, order);
    PropagateUpholds(g, buckets, order, RovFiltered);
    PropagateUpholds(g, buckets, order, FlaggedAll(p, true));
    forall a | a in h && h[a].policy.kind == ROV
      ensures p !in h[a].policy.localRib
    {
      UpholdsAt(h, RovFiltered, a);
      UpholdsAt(h, FlaggedAll(p, true), a);
    }
    forall a | a in h && p in h[a].policy.localRib
      ensures h[a].policy.localRib[p].rovInvalid
    {
      UpholdsAt(h, FlaggedAll(p, true), a);
    }
  }

  // ------------------------------------------------------------ routes reach providers

  /** AS `a` holds a route for `p` in its local RIB. */
  predicate HasRoute(g: Graph, a: Asn, p: Prefix)
  {
    a in g && p in g[a].policy.localRib
  }

  /** AS `a` has a candidate for `p` waiting in its received queue. */
  predicate Waiting(g: Graph, a: Asn, p: Prefix)
  {
    a in g && HasCandidates(g[a].policy.receivedQueue, p)
  }

  /** Sending leaves every RIB as it was and only lengthens queues. */
  lemma SendRibKeeps(g: Graph, s: Asn, dir: Direction, a: Asn, p: Prefix)
    requires s in g
    ensures HasRoute(g, a, p) ==> HasRoute(SendRib(g, s, dir), a, p)
    ensures Waiting(g, a, p) ==> Waiting(SendRib(g, s, dir), a, p)
  {
    SendRibShape(g, s, dir);
    if a in g {
      SendRibEffect(g, s, dir, a, p);
      assert Waiting(g, a, p) ==> Queued(g[a].policy, p) != [];
    }
  }

  /** A target that accepts what the sender sends for `p` then has a candidate for `p`. */
  lemma SendRibDelivers(g: Graph, s: Asn, dir: Direction, t: Asn, p: Prefix)
    requires s in g && t in g && t in Targets(g[s], dir) && p in g[s].policy.localRib
    requires Accepts(g[t].policy.kind, Sent(p, g[s].policy.localRib[p], s, dir))
    ensures Waiting(SendRib(g, s, dir), t, p)
  {
    var h := SendRib(g, s, dir);
    SendRibEffect(g, s, dir, t, p);
    assert multiset(Targets(g[s], dir))[t] >= 1;
    assert Queued(h[t].policy, p) != [];
  }

  /** Processing keeps every route; the AS that processes turns a waiting candidate into a route. */
  lemma ProcessNodeKeeps(g: Graph, b: Asn, a: Asn, p: Prefix)
    ensures HasRoute(g, a, p) ==> HasRoute(ProcessNode(g, b), a, p)
    ensures a != b && Waiting(g, a, p) ==> Waiting(ProcessNode(g, b), a, p)
    ensures a == b && Waiting(g, a, p) ==> HasRoute(ProcessNode(g, b), a, p)
  {
    if b in g {
      ProcessForDecides(g[b].policy, b, p);
    }
  }

  lemma {:induction false} SendAllKeeps(g: Graph, senders: seq<Asn>, dir: Direction, a: Asn, p: Prefix)
    ensures HasRoute(g, a, p) ==> HasRoute(SendAll(g, senders, dir), a, p)
    ensures Waiting(g, a, p) ==> Waiting(SendAll(g, senders, dir), a, p)
    decreases |senders|
  {
    if senders != [] {
      var h := SendAll(g, senders[..|senders| - 1], dir);
      SendAllKeeps(g, senders[..|senders| - 1], dir, a, p);
      if senders[|senders| - 1] in h {
        SendRibKeeps(h, senders[|senders| - 1], dir, a, p);
      }
    }
  }

  /** Among the senders, `s` delivers its route for `p` to a target that accepts it. */
  lemma {:induction false} SendAllDelivers(g: Graph, senders: seq<Asn>, dir: Direction, s: Asn, t: Asn, p: Prefix)
    requires s in senders && s in g && t in g && t in Targets(g[s], dir) && p in g[s].policy.localRib
    requires Accepts(g[t].policy.kind, Sent(p, g[s].policy.localRib[p], s, dir))
    ensures Waiting(SendAll(g, senders, dir), t, p)
    decreases |senders|
  {
    var init := senders[..|senders| - 1];
    var last := senders[|senders| - 1];
    var h := SendAll(g, init, dir);
    SendAllShape(g, init, dir);
    if s in init {
      SendAllDelivers(g, init, dir, s, t, p);
      if last in h {
        SendRibKeeps(h, last, dir, t, p);
      }
    } else {
      assert senders == init + [last];
      assert SameLinks(h[s], g[s]);
      SendRibDelivers(h, s, dir, t, p);
    }
  }

  lemma {:induction false} ProcessAllKeeps(g: Graph, bucket: seq<Asn>, a: Asn, p: Prefix)
    ensures HasRoute(g, a, p) ==> HasRoute(ProcessAll(g, bucket), a, p)
    ensures a !in bucket && Waiting(g, a, p) ==> Waiting(ProcessAll(g, bucket), a, p)
    ensures a in bucket && Waiting(g, a, p) ==> HasRoute(ProcessAll(g, bucket), a, p)
    decreases |bucket|
  {
    if bucket != [] {
      var init := bucket[..|bucket| - 1];
      var last := bucket[|bucket| - 1];
      assert bucket == init + [last];
      ProcessAllKeeps(g, init, a, p);
      ProcessNodeKeeps(ProcessAll(g, init), last, a, p);
    }
  }

  lemma UpStepKeeps(g: Graph, buckets: seq<seq<Asn>>, r: nat, a: Asn, p: Prefix)
    requires r < |buckets| && HasRoute(g, a, p)
    ensures HasRoute(UpStep(g, buckets, r), a, p)
  {
    SendAllKeeps(g, buckets[r], Up, a, p);
    if r + 1 < |buckets| {
      ProcessAllKeeps(SendAll(g, buckets[r], Up), buckets[r + 1], a, p);
    }
  }

  lemma {:induction false} UpFromKeeps(g: Graph, buckets: seq<seq<Asn>>, r: nat, a: Asn, p: Prefix)
    requires r <= |buckets| && HasRoute(g, a, p)
    ensures HasRoute(UpFrom(g, buckets, r), a, p)
    decreases |buckets| - r
  {
    if r < |buckets| {
      UpStepKeeps(g, buckets, r, a, p);
      UpFromKeeps(UpStep(g, buckets, r), buckets, r + 1, a, p);
    }
  }

  lemma DownStepKeeps(g: Graph, buckets: seq<seq<Asn>>, r: nat, a: Asn, p: Prefix)
    requires r < |buckets| && HasRoute(g, a, p)
    ensures HasRoute(DownStep(g, buckets, r), a, p)
  {
    SendAllKeeps(g, buckets[r], Down, a, p);
    if r >= 1 {
      ProcessAllKeeps(SendAll(g, buckets[r], Down), buckets[r - 1], a, p);
    }
  }

  lemma {:induction false} DownFromKeeps(g: Graph, buckets: seq<seq<Asn>>, n: nat, a: Asn, p: Prefix)
    requires n <= |buckets| && HasRoute(g, a, p)
    ensures HasRoute(DownFrom(g, buckets, n), a, p)
    decreases n
  {
    if n > 0 {
      DownStepKeeps(g, buckets, n - 1, a, p);
      DownFromKeeps(DownStep(g, buckets, n - 1), buckets, n - 1, a, p);
    }
  }

  /** Once an AS holds a route for `p`, the rest of propagation never takes it away. */
  lemma AcrossDownKeeps(g: Graph, buckets: seq<seq<Asn>>, order: seq<Asn>, a: Asn, p: Prefix)
    requires HasRoute(g, a, p)
    ensures HasRoute(DownFrom(AcrossPhase(g, order), buckets, |buckets|), a, p)
  {
    var h := SendAll(g, order, Across);
    SendAllKeeps(g, order, Across, a, p);
    ProcessForDecides(h[a].policy, a, p);
    DownFromKeeps(AcrossPhase(g, order), buckets, |buckets|, a, p);
  }

  /**
   * On the way up, an AS `q` of rank above `r` with a candidate for `p`
   * waiting holds a route for `p` once the upward iterations from `r` are done:
   * nothing processes `q` before its own rank does.
   */
  lemma {:induction false} UpFromWaiting(g0: Graph, rank: map<Asn, nat>, buckets: seq<seq<Asn>>, g: Graph, r: nat, q: Asn, p: Prefix)
    requires Layered(g0, rank, buckets) && SameShape(g0, g)
    requires q in g && r < rank[q] && Waiting(g, q, p)
    ensures HasRoute(UpFrom(g, buckets, r), q, p)
    decreases |buckets| - r
  {
    var h := SendAll(g, buckets[r], Up);
    SendAllKeeps(g, buckets[r], Up, q, p);
    ProcessAllKeeps(h, buckets[r + 1], q, p);
    var next := UpStep(g, buckets, r);
    UpStepShape(g, buckets, r);
    SameShapeTrans(g0, g, next);
    if rank[q] == r + 1 {
      UpFromKeeps(next, buckets, r + 1, q, p);
    } else {
      UpFromWaiting(g0, rank, buckets, next, r + 1, q, p);
    }
  }

  /**
   * On the way up, at the rank of customer `c`, its route for `p` is sent to
   * its provider `q`; when `q` accepts it, `q` holds a route for `p` once the
   * upward iterations from there are done.
   */
  lemma UpFromDelivers(g0: Graph, rank: map<Asn, nat>, buckets: seq<seq<Asn>>, g: Graph, r: nat,
                       c: Asn, q: Asn, p: Prefix)
    requires Layered(g0, rank, buckets) && SameShape(g0, g)
    requires c in g && q in g && r == rank[c] && rank[c] < rank[q]
    requires HasRoute(g, c, p) && q in g[c].providers
    requires Accepts(g[q].policy.kind, Sent(p, g[c].policy.localRib[p], c, Up))
    ensures HasRoute(UpFrom(g, buckets, r), q, p)
  {
    var h := SendAll(g, buckets[r], Up);
    var next := UpStep(g, buckets, r);
    UpStepShape(g, buckets, r);
    SameShapeTrans(g0, g, next);
    SendAllDelivers(g, buckets[r], Up, c, q, p);
    ProcessAllKeeps(h, buckets[r + 1], q, p);
    if rank[q] == r + 1 {
      UpFromKeeps(next, buckets, r + 1, q, p);
    } else {
      UpFromWaiting(g0, rank, buckets, next, r + 1, q, p);
    }
  }

  /**
   * On the way up, a route for `p` held by customer `c` from iteration `r` on
   * reaches its provider `q`, when `q` accepts it: `q` runs plain BGP, or
   * every route of `p` is ROV-valid.
   */
  lemma {:induction false} UpFromReaches(g0: Graph, rank: map<Asn, nat>, buckets: seq<seq<Asn>>, g: Graph, r: nat,
                                         c: Asn, q: Asn, p: Prefix)
    requires Layered(g0, rank, buckets) && SameShape(g0, g)
    requires c in g && q in g && rank[c] < rank[q] && r <= rank[c]
    requires HasRoute(g, c, p) && q in g[c].providers
    requires g[q].policy.kind == BGP || Upholds(g, FlaggedAll(p, false))
    ensures HasRoute(UpFrom(g, buckets, r), q, p)
    decreases |buckets| - r
  {
    if r < rank[c] {
      var next := UpStep(g, buckets, r);
      UpStepShape(g, buckets, r);
      SameShapeTrans(g0, g, next);
      UpStepKeeps(g, buckets, r, c, p);
      if g[q].policy.kind != BGP {
        UpStepUpholds(g, buckets, r, FlaggedAll(p, false));
      }
      UpFromReaches(g0, rank, buckets, next, r + 1, c, q, p);
    } else {
      if g[q].policy.kind != BGP {
        UpholdsAt(g, FlaggedAll(p, false), c);
      }
      UpFromDelivers(g0, rank, buckets, g, r, c, q, p);
    }
  }

  /**
   * A route for `p` that customer `c` holds before propagation is held by
   * each provider `q` of `c` afterwards, whatever the across order, when `q`
   * runs plain BGP or every route of `p` is ROV-valid.
   */
  lemma ProviderGetsRoute(g: Graph, rank: map<Asn, nat>, buckets: seq<seq<Asn>>, order: seq<Asn>,
                          c: Asn, q: Asn, p: Prefix)
    requires WellFormed(g) && IsRanking(g, rank) && IsBuckets(g, rank, buckets)
    requires HasRoute(g, c, p) && q in g[c].providers
    requires g[q].policy.kind == BGP || Upholds(g, FlaggedAll(p, false))
    ensures HasRoute(Propagate(g, buckets, order), q, p)
  {
    assert Adjacent(g[c], q);
    assert c in g[q].customers;
    RankedIsLayered(g, rank, buckets);
    assert rank[c] < rank[q];
    UpFromReaches(g, rank, buckets, g, 0, c, q, p);
    AcrossDownKeeps(UpFrom(g, buckets, 0), buckets, order, q, p);
  }
}
