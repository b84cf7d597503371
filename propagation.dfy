/**
 * The three-phase propagation of `ASGraph::propagateAnnouncements`, as
 * functions on graph values.  Sending from one AS delivers, for every prefix
 * of its local RIB, one announcement to each of its targets in the direction
 * of the phase (providers going up, peers across, customers going down);
 * processing lets an AS decide its received queue on its own behalf.
 *
 * The phases fold these steps over the rank buckets, exactly in the loop order
 * of the source.  The across phase sends in the node map's iteration order,
 * which the source leaves unspecified; it is a parameter here.
 */
module Propagation {
  import opened Announcements
  import opened Policies
  import opened Graphs

  datatype Direction = Up | Across | Down

  /** The neighbours an AS sends to in each direction. */
  function Targets(n: ASNode, dir: Direction): seq<Asn>
  {
    match dir
    case Up => n.providers
    case Across => n.peers
    case Down => n.customers
  }

  /**
   * The announcement `sender` sends for prefix `p` when `stored` is its RIB
   * entry: the sender is the next hop, the stored path and ROV flag are
   * copied, and the relationship is that of the sender seen from the
   * receiver.
   */
  function Sent(p: Prefix, stored: Announcement, sender: Asn, dir: Direction): (a: Announcement)
    ensures a.prefix == p && a.nextHopAsn == sender
    ensures a.asPath == stored.asPath && a.rovInvalid == stored.rovInvalid
    ensures dir == Up ==> a.receivedFrom == Customer
    ensures dir == Across ==> a.receivedFrom == Peer
    ensures dir == Down ==> a.receivedFrom == Provider
  {
    var rel := match dir case Up => Customer case Across => Peer case Down => Provider;
    ReceivedAnnouncement(p, sender, rel, stored.asPath, stored.rovInvalid)
  }

  /** `k` copies of `a`. */
  function Repeat(a: Announcement, k: nat): (r: seq<Announcement>)
    ensures |r| == k && forall i :: 0 <= i < k ==> r[i] == a
  {
    if k == 0 then [] else Repeat(a, k - 1) + [a]
  }

  /** `h` differs from `g` at most in the received queues. */
  predicate QueuesOnly(g: Graph, h: Graph)
  {
    && h.Keys == g.Keys
    && forall a :: a in g ==>
         SameLinks(h[a], g[a]) && h[a].policy.kind == g[a].policy.kind && h[a].policy.localRib == g[a].policy.localRib
  }

  /** `h` has the nodes, neighbours and policy kinds of `g`. */
  predicate SameShape(g: Graph, h: Graph)
  {
    && h.Keys == g.Keys
    && forall a :: a in g ==> SameLinks(h[a], g[a]) && h[a].policy.kind == g[a].policy.kind
  }

  /** No AS has anything left in its received queue. */
  predicate Quiet(g: Graph)
  {
    forall a :: a in g ==> g[a].policy.receivedQueue == map[]
  }

  // ------------------------------------------------------------ one sender

  /**
   * What AS `a` has been sent for prefix `p` once `cnt[p]` counts how often
   * `a` has been delivered to: that many copies of the sent announcement, or
   * nothing when its policy drops it.
   */
  function Extra(kind: PolicyKind, rib: map<Prefix, Announcement>, sender: Asn, dir: Direction,
                 cnt: map<Prefix, multiset<Asn>>, a: Asn, p: Prefix): seq<Announcement>
  {
    if p in cnt && p in rib && Accepts(kind, Sent(p, rib[p], sender, dir))
    then Repeat(Sent(p, rib[p], sender, dir), cnt[p][a])
    else []
  }

  /** The policy of AS `a` after those deliveries. */
  function Offered(st: PolicyState, rib: map<Prefix, Announcement>, sender: Asn, dir: Direction,
                   cnt: map<Prefix, multiset<Asn>>, a: Asn): PolicyState
  {
    st.(receivedQueue := map p | p in st.receivedQueue.Keys + cnt.Keys
                                 && (p in st.receivedQueue || Extra(st.kind, rib, sender, dir, cnt, a, p) != []) ::
                           Queued(st, p) + Extra(st.kind, rib, sender, dir, cnt, a, p))
  }

  /** The graph after delivering, for each prefix `p`, to the targets counted in `cnt[p]`. */
  function Delivered(g: Graph, sender: Asn, dir: Direction, rib: map<Prefix, Announcement>,
                     cnt: map<Prefix, multiset<Asn>>): Graph
  {
    map a | a in g :: g[a].(policy := Offered(g[a].policy, rib, sender, dir, cnt, a))
  }

  /** Counts with the prefixes of `done` delivered to every target in `ts`, and the others to none. */
  function Counts(keys: set<Prefix>, done: set<Prefix>, ts: seq<Asn>): map<Prefix, multiset<Asn>>
  {
    map p | p in keys :: if p in done then multiset(ts) else multiset{}
  }

  /** One AS sends its whole local RIB to all its targets in direction `dir`. */
  function SendRib(g: Graph, s: Asn, dir: Direction): Graph
    requires s in g
  {
    var rib := g[s].policy.localRib;
    Delivered(g, s, dir, rib, Counts(rib.Keys, rib.Keys, Targets(g[s], dir)))
  }

  /** The AS processes its received queue on its own behalf. */
  function ProcessNode(g: Graph, a: Asn): Graph
  {
    if a in g then g[a := g[a].(policy := ProcessFor(g[a].policy, a))] else g
  }

  // ------------------------------------------------------------ the phases

  /** The senders in list order, each sending its RIB (ASes not in the graph are skipped). */
  function SendAll(g: Graph, senders: seq<Asn>, dir: Direction): Graph
    decreases |senders|
  {
    if senders == [] then g
    else
      var h := SendAll(g, senders[..|senders| - 1], dir);
      var s := senders[|senders| - 1];
      if s in h then SendRib(h, s, dir) else h
  }

  /** The ASes in list order, each processing its queue (ASes not in the graph are skipped). */
  function ProcessAll(g: Graph, bucket: seq<Asn>): Graph
    decreases |bucket|
  {
    if bucket == [] then g
    else ProcessNode(ProcessAll(g, bucket[..|bucket| - 1]), bucket[|bucket| - 1])
  }

  /** Every AS processes its queue; processing one AS touches no other, so the order is immaterial. */
  function ProcessEvery(g: Graph): Graph
  {
    map a | a in g :: g[a].(policy := ProcessFor(g[a].policy, a))
  }

  /** The ASes of `done` have processed their queues, the others not yet. */
  function ProcessedSome(g: Graph, done: set<Asn>): Graph
  {
    map a | a in g :: if a in done then g[a].(policy := ProcessFor(g[a].policy, a)) else g[a]
  }

  /** Upward iteration `r`: rank `r` sends to its providers, then rank `r + 1` processes. */
  function UpStep(g: Graph, buckets: seq<seq<Asn>>, r: nat): Graph
    requires r < |buckets|
  {
    var h := SendAll(g, buckets[r], Up);
    if r + 1 < |buckets| then ProcessAll(h, buckets[r + 1]) else h
  }

  /** The upward iterations from rank `r` to the top. */
  function UpFrom(g: Graph, buckets: seq<seq<Asn>>, r: nat): Graph
    requires r <= |buckets|
    decreases |buckets| - r
  {
    if r == |buckets| then g else UpFrom(UpStep(g, buckets, r), buckets, r + 1)
  }

  /** The across phase: every AS, in `order`, sends to its peers; then every AS processes. */
  function AcrossPhase(g: Graph, order: seq<Asn>): Graph
  {
    ProcessEvery(SendAll(g, order, Across))
  }

  /** Downward iteration at rank `r`: rank `r` sends to its customers, then rank `r - 1` processes. */
  function DownStep(g: Graph, buckets: seq<seq<Asn>>, r: nat): Graph
    requires r < |buckets|
  {
    var h := SendAll(g, buckets[r], Down);
    if r >= 1 then ProcessAll(h, buckets[r - 1]) else h
  }

  /** The downward iterations for the ranks below `n`, highest first. */
  function DownFrom(g: Graph, buckets: seq<seq<Asn>>, n: nat): Graph
    requires n <= |buckets|
    decreases n
  {
    if n == 0 then g else DownFrom(DownStep(g, buckets, n - 1), buckets, n - 1)
  }

  /** Up the ranks, one hop across the peers, and down the ranks. */
  function Propagate(g: Graph, buckets: seq<seq<Asn>>, order: seq<Asn>): Graph
  {
    var up := UpFrom(g, buckets, 0);
    var across := AcrossPhase(up, order);
    DownFrom(across, buckets, |buckets|)
  }

  // ------------------------------------------------------------ what the steps leave alone

  /** Sending changes nothing but received queues. */
  lemma SendRibShape(g: Graph, s: Asn, dir: Direction)
    requires s in g
    ensures QueuesOnly(g, SendRib(g, s, dir))
  {
    var rib := g[s].policy.localRib;
    DeliveredQueuesOnly(g, s, dir, rib, Counts(rib.Keys, rib.Keys, Targets(g[s], dir)));
  }

  lemma {:induction false} SendAllShape(g: Graph, senders: seq<Asn>, dir: Direction)
    ensures QueuesOnly(g, SendAll(g, senders, dir))
    decreases |senders|
  {
    if senders != [] {
      var h := SendAll(g, senders[..|senders| - 1], dir);
      SendAllShape(g, senders[..|senders| - 1], dir);
      var s := senders[|senders| - 1];
      if s in h {
        SendRibShape(h, s, dir);
      }
    }
  }

  /** Processing changes neither the nodes, nor their neighbours, nor their policy kinds. */
  lemma ProcessNodeShape(g: Graph, a: Asn)
    ensures SameShape(g, ProcessNode(g, a))
  {
  }

  lemma {:induction false} ProcessAllShape(g: Graph, bucket: seq<Asn>)
    ensures SameShape(g, ProcessAll(g, bucket))
    decreases |bucket|
  {
    if bucket != [] {
      var h := ProcessAll(g, bucket[..|bucket| - 1]);
      ProcessAllShape(g, bucket[..|bucket| - 1]);
      ProcessNodeShape(h, bucket[|bucket| - 1]);
      SameShapeTrans(g, h, ProcessAll(g, bucket));
    }
  }

  /** After every AS has processed, no queue holds anything. */
  lemma ProcessEveryShape(g: Graph)
    ensures SameShape(g, ProcessEvery(g)) && Quiet(ProcessEvery(g))
  {
  }

  lemma UpStepShape(g: Graph, buckets: seq<seq<Asn>>, r: nat)
    requires r < |buckets|
    ensures SameShape(g, UpStep(g, buckets, r))
  {
    var h := SendAll(g, buckets[r], Up);
    SendAllShape(g, buckets[r], Up);
    if r + 1 < |buckets| {
      ProcessAllShape(h, buckets[r + 1]);
      SameShapeTrans(g, h, UpStep(g, buckets, r));
    }
  }

  lemma {:induction false} UpFromShape(g: Graph, buckets: seq<seq<Asn>>, r: nat)
    requires r <= |buckets|
    ensures SameShape(g, UpFrom(g, buckets, r))
    decreases |buckets| - r
  {
    if r < |buckets| {
      var h := UpStep(g, buckets, r);
      UpStepShape(g, buckets, r);
      UpFromShape(h, buckets, r + 1);
      SameShapeTrans(g, h, UpFrom(g, buckets, r));
    }
  }

  lemma AcrossPhaseShape(g: Graph, order: seq<Asn>)
    ensures SameShape(g, AcrossPhase(g, order)) && Quiet(AcrossPhase(g, order))
  {
    var h := SendAll(g, order, Across);
    SendAllShape(g, order, Across);
    ProcessEveryShape(h);
    SameShapeTrans(g, h, AcrossPhase(g, order));
  }

  lemma DownStepShape(g: Graph, buckets: seq<seq<Asn>>, r: nat)
    requires r < |buckets|
    ensures SameShape(g, DownStep(g, buckets, r))
  {
    var h := SendAll(g, buckets[r], Down);
    SendAllShape(g, buckets[r], Down);
    if r >= 1 {
      ProcessAllShape(h, buckets[r - 1]);
      SameShapeTrans(g, h, DownStep(g, buckets, r));
    }
  }

  lemma {:induction false} DownFromShape(g: Graph, buckets: seq<seq<Asn>>, n: nat)
    requires n <= |buckets|
    ensures SameShape(g, DownFrom(g, buckets, n))
    decreases n
  {
    if n > 0 {
      var h := DownStep(g, buckets, n - 1);
      DownStepShape(g, buckets, n - 1);
      DownFromShape(h, buckets, n - 1);
      SameShapeTrans(g, h, DownFrom(g, buckets, n));
    }
  }

  /** Propagation changes nothing but policies' RIBs and queues. */
  lemma PropagateShape(g: Graph, buckets: seq<seq<Asn>>, order: seq<Asn>)
    ensures SameShape(g, Propagate(g, buckets, order))
  {
    var up := UpFrom(g, buckets, 0);
    var across := AcrossPhase(up, order);
    UpFromShape(g, buckets, 0);
    AcrossPhaseShape(up, order);
    DownFromShape(across, buckets, |buckets|);
    SameShapeTrans(g, up, across);
    SameShapeTrans(g, across, Propagate(g, buckets, order));
  }

  // ------------------------------------------------------------ what sending does

  lemma DeliveredQueuesOnly(g: Graph, sender: Asn, dir: Direction, rib: map<Prefix, Announcement>, cnt: map<Prefix, multiset<Asn>>)
    ensures QueuesOnly(g, Delivered(g, sender, dir, rib, cnt))
  {
  }

  /** The queue of `p` at AS `a` after the deliveries counted in `cnt`. */
  /** Prefix `p` has a queue after the deliveries exactly when it had one or something was delivered for it. */
  lemma OfferedKey(st: PolicyState, rib: map<Prefix, Announcement>, sender: Asn, dir: Direction,
                   cnt: map<Prefix, multiset<Asn>>, a: Asn, p: Prefix)
    ensures var q := Offered(st, rib, sender, dir, cnt, a).receivedQueue;
      && (p in q <==> p in st.receivedQueue || Extra(st.kind, rib, sender, dir, cnt, a, p) != [])
      && (p in q ==> q[p] == Queued(st, p) + Extra(st.kind, rib, sender, dir, cnt, a, p))
  {
  }

  lemma OfferedQueue(st: PolicyState, rib: map<Prefix, Announcement>, sender: Asn, dir: Direction,
                     cnt: map<Prefix, multiset<Asn>>, a: Asn, p: Prefix)
    ensures Queued(Offered(st, rib, sender, dir, cnt, a), p) == Queued(st, p) + Extra(st.kind, rib, sender, dir, cnt, a, p)
  {
  }

  /**
   * Sending changes nothing but queues: the queue of each AS `t` for each
   * prefix `p` grows by one copy of the sent announcement per occurrence of
   * `t` among the sender's targets, unless `t`'s policy drops it.
   */
  lemma SendRibEffect(g: Graph, s: Asn, dir: Direction, t: Asn, p: Prefix)
    requires s in g && t in g
    ensures QueuesOnly(g, SendRib(g, s, dir))
    ensures var rib := g[s].policy.localRib;
      Queued(SendRib(g, s, dir)[t].policy, p) ==
        Queued(g[t].policy, p) +
        (if p in rib && Accepts(g[t].policy.kind, Sent(p, rib[p], s, dir))
         then Repeat(Sent(p, rib[p], s, dir), multiset(Targets(g[s], dir))[t])
         else [])
  {
    var rib := g[s].policy.localRib;
    var cnt := Counts(rib.Keys, rib.Keys, Targets(g[s], dir));
    SendRibShape(g, s, dir);
    OfferedQueue(g[t].policy, rib, s, dir, cnt, t, p);
  }

  /** An AS that is not a target of the sender is left exactly as it was. */
  lemma SendRibElsewhere(g: Graph, s: Asn, dir: Direction, t: Asn)
    requires s in g && t in g && t !in Targets(g[s], dir)
    ensures SendRib(g, s, dir)[t] == g[t]
  {
    var rib := g[s].policy.localRib;
    var cnt := Counts(rib.Keys, rib.Keys, Targets(g[s], dir));
    var st := g[t].policy;
    forall p | p in cnt
      ensures Extra(st.kind, rib, s, dir, cnt, t, p) == []
    {
      assert cnt[p][t] == 0;
    }
    OfferedNothing(st, rib, s, dir, cnt, t);
  }

  /** When nothing was delivered to `a`, its policy is unchanged. */
  lemma OfferedNothing(st: PolicyState, rib: map<Prefix, Announcement>, sender: Asn, dir: Direction,
                       cnt: map<Prefix, multiset<Asn>>, a: Asn)
    requires forall p :: p in cnt ==> Extra(st.kind, rib, sender, dir, cnt, a, p) == []
    ensures Offered(st, rib, sender, dir, cnt, a) == st
  {
    var q := Offered(st, rib, sender, dir, cnt, a).receivedQueue;
    assert q.Keys == st.receivedQueue.Keys;
    forall p | p in q
      ensures q[p] == st.receivedQueue[p]
    {
      assert Extra(st.kind, rib, sender, dir, cnt, a, p) == [];
    }
  }

  // ------------------------------------------------------------ steps of the sending loops

  /** With nothing delivered yet, the graph is unchanged. */
  lemma DeliveredNone(g: Graph, sender: Asn, dir: Direction, rib: map<Prefix, Announcement>, ts: seq<Asn>)
    ensures Delivered(g, sender, dir, rib, Counts(rib.Keys, rib.Keys - rib.Keys, ts)) == g
  {
    var cnt := Counts(rib.Keys, rib.Keys - rib.Keys, ts);
    forall a | a in g
      ensures Offered(g[a].policy, rib, sender, dir, cnt, a) == g[a].policy
    {
      var st := g[a].policy;
      forall p | p in cnt
        ensures Extra(st.kind, rib, sender, dir, cnt, a, p) == []
      {
      }
      OfferedNothing(st, rib, sender, dir, cnt, a);
    }
  }

  /** Receiving one more copy at `a` is counting one more delivery to `a`. */
  lemma OfferedStep(st: PolicyState, rib: map<Prefix, Announcement>, sender: Asn, dir: Direction,
                    cnt: map<Prefix, multiset<Asn>>, a: Asn, p: Prefix)
    requires p in cnt && p in rib
    ensures Receive(Offered(st, rib, sender, dir, cnt, a), Sent(p, rib[p], sender, dir))
         == Offered(st, rib, sender, dir, cnt[p := cnt[p] + multiset{a}], a)
  {
    if Accepts(st.kind, Sent(p, rib[p], sender, dir)) {
      OfferedStepAccepted(st, rib, sender, dir, cnt, a, p);
    } else {
      OfferedStepDropped(st, rib, sender, dir, cnt, a, p);
    }
  }

  lemma OfferedStepAccepted(st: PolicyState, rib: map<Prefix, Announcement>, sender: Asn, dir: Direction,
                            cnt: map<Prefix, multiset<Asn>>, a: Asn, p: Prefix)
    requires p in cnt && p in rib && Accepts(st.kind, Sent(p, rib[p], sender, dir))
    ensures Receive(Offered(st, rib, sender, dir, cnt, a), Sent(p, rib[p], sender, dir))
         == Offered(st, rib, sender, dir, cnt[p := cnt[p] + multiset{a}], a)
  {
    OfferedStepQueues(st, rib, sender, dir, cnt, a, p);
  }

  /** The queues of `OfferedStepAccepted`, prefix by prefix. */
  lemma OfferedStepQueues(st: PolicyState, rib: map<Prefix, Announcement>, sender: Asn, dir: Direction,
                          cnt: map<Prefix, multiset<Asn>>, a: Asn, p: Prefix)
    requires p in cnt && p in rib && Accepts(st.kind, Sent(p, rib[p], sender, dir))
    ensures var o := Offered(st, rib, sender, dir, cnt, a);
      o.receivedQueue[p := Queued(o, p) + [Sent(p, rib[p], sender, dir)]]
        == Offered(st, rib, sender, dir, cnt[p := cnt[p] + multiset{a}], a).receivedQueue
  {
    var x := Sent(p, rib[p], sender, dir);
    var o := Offered(st, rib, sender, dir, cnt, a);
    var lq := o.receivedQueue[p := Queued(o, p) + [x]];
    var rq := Offered(st, rib, sender, dir, cnt[p := cnt[p] + multiset{a}], a).receivedQueue;
    forall q
      ensures (q in lq <==> q in rq) && (q in lq ==> lq[q] == rq[q])
    {
      OfferedStepAt(st, rib, sender, dir, cnt, a, p, q);
    }
  }

  /** `OfferedStepAccepted` at one prefix `q`. */
  lemma OfferedStepAt(st: PolicyState, rib: map<Prefix, Announcement>, sender: Asn, dir: Direction,
                      cnt: map<Prefix, multiset<Asn>>, a: Asn, p: Prefix, q: Prefix)
    requires p in cnt && p in rib && Accepts(st.kind, Sent(p, rib[p], sender, dir))
    ensures var x := Sent(p, rib[p], sender, dir);
      var o := Offered(st, rib, sender, dir, cnt, a);
      var lq := o.receivedQueue[p := Queued(o, p) + [x]];
      var rq := Offered(st, rib, sender, dir, cnt[p := cnt[p] + multiset{a}], a).receivedQueue;
      (q in lq <==> q in rq) && (q in lq ==> lq[q] == rq[q])
  {
    var x := Sent(p, rib[p], sender, dir);
    var cnt' := cnt[p := cnt[p] + multiset{a}];
    OfferedKey(st, rib, sender, dir, cnt, a, q);
    OfferedKey(st, rib, sender, dir, cnt', a, q);
    if q == p {
      var k := cnt[p][a];
      assert cnt'[p][a] == k + 1;
      assert Extra(st.kind, rib, sender, dir, cnt', a, p) == Repeat(x, k) + [x];
    } else {
      ExtraOther(st.kind, rib, sender, dir, cnt, a, p, q);
    }
  }

  lemma OfferedStepDropped(st: PolicyState, rib: map<Prefix, Announcement>, sender: Asn, dir: Direction,
                           cnt: map<Prefix, multiset<Asn>>, a: Asn, p: Prefix)
    requires p in cnt && p in rib && !Accepts(st.kind, Sent(p, rib[p], sender, dir))
    ensures Receive(Offered(st, rib, sender, dir, cnt, a), Sent(p, rib[p], sender, dir))
         == Offered(st, rib, sender, dir, cnt[p := cnt[p] + multiset{a}], a)
  {
    var cnt' := cnt[p := cnt[p] + multiset{a}];
    forall q
      ensures Extra(st.kind, rib, sender, dir, cnt, a, q) == Extra(st.kind, rib, sender, dir, cnt', a, q)
    {
      if q != p {
        ExtraOther(st.kind, rib, sender, dir, cnt, a, p, q);
      }
    }
    OfferedSameExtra(st, rib, sender, dir, cnt, cnt', a);
  }

  /** Counting a delivery for `p` changes nothing for any other prefix. */
  lemma ExtraOther(kind: PolicyKind, rib: map<Prefix, Announcement>, sender: Asn, dir: Direction,
                   cnt: map<Prefix, multiset<Asn>>, a: Asn, p: Prefix, q: Prefix)
    requires p in cnt && q != p
    ensures Extra(kind, rib, sender, dir, cnt[p := cnt[p] + multiset{a}], a, q) == Extra(kind, rib, sender, dir, cnt, a, q)
  {
  }

  /** A delivery to `b` leaves the policy of every other AS as it was. */
  lemma OfferedOther(st: PolicyState, rib: map<Prefix, Announcement>, sender: Asn, dir: Direction,
                     cnt: map<Prefix, multiset<Asn>>, a: Asn, b: Asn, p: Prefix)
    requires p in cnt && a != b
    ensures Offered(st, rib, sender, dir, cnt, a) == Offered(st, rib, sender, dir, cnt[p := cnt[p] + multiset{b}], a)
  {
    var cnt' := cnt[p := cnt[p] + multiset{b}];
    forall q
      ensures Extra(st.kind, rib, sender, dir, cnt, a, q) == Extra(st.kind, rib, sender, dir, cnt', a, q)
    {
      if q == p {
        assert cnt'[p][a] == cnt[p][a];
      } else {
        ExtraOther(st.kind, rib, sender, dir, cnt, b, p, q);
      }
    }
    OfferedSameExtra(st, rib, sender, dir, cnt, cnt', a);
  }

  /** Offers that put the same announcements in every queue give the same policy. */
  lemma OfferedSameExtra(st: PolicyState, rib: map<Prefix, Announcement>, sender: Asn, dir: Direction,
                         c1: map<Prefix, multiset<Asn>>, c2: map<Prefix, multiset<Asn>>, a: Asn)
    requires c1.Keys == c2.Keys
    requires forall q :: Extra(st.kind, rib, sender, dir, c1, a, q) == Extra(st.kind, rib, sender, dir, c2, a, q)
    ensures Offered(st, rib, sender, dir, c1, a) == Offered(st, rib, sender, dir, c2, a)
  {
    var q1 := Offered(st, rib, sender, dir, c1, a).receivedQueue;
    var q2 := Offered(st, rib, sender, dir, c2, a).receivedQueue;
    forall q | q in q1 || q in q2
      ensures q in q1 && q in q2 && q1[q] == q2[q]
    {
      OfferedQueue(st, rib, sender, dir, c1, a, q);
      OfferedQueue(st, rib, sender, dir, c2, a, q);
    }
    assert q1 == q2;
  }

  /** In a closed graph every target of an AS is in the graph. */
  lemma TargetsPresent(g: Graph, s: Asn, dir: Direction)
    requires Closed(g) && s in g
    ensures forall t :: t in Targets(g[s], dir) ==> t in g
  {
    forall t | t in Targets(g[s], dir)
      ensures t in g
    {
      assert Adjacent(g[s], t);
    }
  }

  /** AS `t` receives `x` (the graph's `_node_map[t]->policy->receiveAnnouncement(x)`). */
  function ReceiveAt(g: Graph, t: Asn, x: Announcement): Graph
    requires t in g
  {
    g[t := g[t].(policy := Receive(g[t].policy, x))]
  }

  /** One iteration of the inner sending loop: target `t` receives the announcement for `p`. */
  lemma DeliveredStep(g: Graph, sender: Asn, dir: Direction, rib: map<Prefix, Announcement>,
                      cnt: map<Prefix, multiset<Asn>>, t: Asn, p: Prefix)
    requires t in g && p in cnt && p in rib
    ensures ReceiveAt(Delivered(g, sender, dir, rib, cnt), t, Sent(p, rib[p], sender, dir))
         == Delivered(g, sender, dir, rib, cnt[p := cnt[p] + multiset{t}])
  {
    var lhs := ReceiveAt(Delivered(g, sender, dir, rib, cnt), t, Sent(p, rib[p], sender, dir));
    var rhs := Delivered(g, sender, dir, rib, cnt[p := cnt[p] + multiset{t}]);
    forall a | a in g
      ensures lhs[a] == rhs[a]
    {
      if a == t {
        OfferedStep(g[a].policy, rib, sender, dir, cnt, a, p);
      } else {
        OfferedOther(g[a].policy, rib, sender, dir, cnt, a, t, p);
      }
    }
    assert lhs.Keys == rhs.Keys;
  }

  /** Each AS of `ts` in turn receives `x` (ASes not in the graph are skipped). */
  function ReceiveAll(g: Graph, ts: seq<Asn>, x: Announcement): Graph
    decreases |ts|
  {
    if ts == [] then g
    else
      var h := ReceiveAll(g, ts[..|ts| - 1], x);
      var t := ts[|ts| - 1];
      if t in h then ReceiveAt(h, t, x) else h
  }

  /**
   * The inner sending loop as a whole: when no delivery of `p` has been
   * counted yet, the targets of `ts` receiving the announcement for `p` in
   * turn is counting one delivery of `p` per occurrence of each target.
   */
  lemma {:induction false} DeliveredAll(g: Graph, sender: Asn, dir: Direction, rib: map<Prefix, Announcement>,
                                        cnt: map<Prefix, multiset<Asn>>, p: Prefix, ts: seq<Asn>)
    requires p in cnt && p in rib && cnt[p] == multiset{}
    requires forall t :: t in ts ==> t in g
    ensures ReceiveAll(Delivered(g, sender, dir, rib, cnt), ts, Sent(p, rib[p], sender, dir))
         == Delivered(g, sender, dir, rib, cnt[p := multiset(ts)])
    decreases |ts|
  {
    var x := Sent(p, rib[p], sender, dir);
    if ts == [] {
      assert cnt[p := multiset(ts)] == cnt;
    } else {
      var init := ts[..|ts| - 1];
      var t := ts[|ts| - 1];
      assert multiset(ts) == multiset(init) + multiset{t} && forall u :: u in init ==> u in ts by {
        assert ts == init + [t];
      }
      var c := cnt[p := multiset(init)];
      assert c[p := c[p] + multiset{t}] == cnt[p := multiset(ts)];
      DeliveredAll(g, sender, dir, rib, cnt, p, init);
      DeliveredStep(g, sender, dir, rib, c, t, p);
    }
  }

  /** Finishing the targets of one prefix marks it done. */
  lemma CountsStep(keys: set<Prefix>, done: set<Prefix>, ts: seq<Asn>, p: Prefix)
    requires p in keys
    ensures Counts(keys, done, ts)[p := multiset(ts)] == Counts(keys, done + {p}, ts)
  {
  }

  /**
   * The outer sending loop's step: with the prefixes outside `pending` sent,
   * sending `p` from `pending` to every target leaves it sent too.
   */
  lemma SendPrefixStep(g: Graph, sender: Asn, dir: Direction, rib: map<Prefix, Announcement>,
                       ts: seq<Asn>, pending: set<Prefix>, p: Prefix)
    requires p in pending && pending <= rib.Keys
    requires forall t :: t in ts ==> t in g
    ensures var h := Delivered(g, sender, dir, rib, Counts(rib.Keys, rib.Keys - pending, ts));
      && (forall t :: t in ts ==> t in h)
      && ReceiveAll(h, ts, Sent(p, rib[p], sender, dir))
         == Delivered(g, sender, dir, rib, Counts(rib.Keys, rib.Keys - (pending - {p}), ts))
  {
    var done := rib.Keys - pending;
    DeliveredAll(g, sender, dir, rib, Counts(rib.Keys, done, ts), p, ts);
    CountsStep(rib.Keys, done, ts, p);
    DoneStep(rib.Keys, pending, p);
  }

  /** Taking `p` out of the pending prefixes adds it to the done ones. */
  lemma DoneStep(keys: set<Prefix>, pending: set<Prefix>, p: Prefix)
    requires p in pending && pending <= keys
    ensures (keys - pending) + {p} == keys - (pending - {p})
  {
  }

  /** One more AS of the map processes its queue. */
  lemma ProcessedSomeStep(g: Graph, done: set<Asn>, a: Asn)
    requires a in g && a !in done
    ensures var h := ProcessedSome(g, done);
      h[a := h[a].(policy := ProcessFor(h[a].policy, a))] == ProcessedSome(g, done + {a})
  {
  }

  /** Graphs of the same shape are well formed together. */
  lemma SameShapeWellFormed(g: Graph, h: Graph)
    requires SameShape(g, h) && WellFormed(g)
    ensures WellFormed(h)
  {
    forall a, b | a in h && Adjacent(h[a], b)
      ensures b in h
    {
      assert Adjacent(g[a], b);
    }
    forall a, b | a in h && b in h
      ensures b in h[a].providers <==> a in h[b].customers
      ensures b in h[a].peers <==> a in h[b].peers
    {
      assert SameLinks(h[a], g[a]) && SameLinks(h[b], g[b]);
    }
  }

  lemma SameShapeTrans(g: Graph, h: Graph, k: Graph)
    requires SameShape(g, h) && SameShape(h, k)
    ensures SameShape(g, k)
  {
  }
}
