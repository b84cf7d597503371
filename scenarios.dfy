/**
 * The ROV scenarios of the repository's tests, stated on the graphs they
 * build: AS 2 is the provider of AS 1, and AS 1 seeds a route for
 * 1.2.0.0/16.  Each holds for every ranking and every across order.
 */
module Scenarios {
  import opened Announcements
  import opened Policies
  import opened Graphs
  import opened Ranks
  import opened Propagation
  import opened Routes

  const Hijacked: Prefix := "1.2.0.0/16"

  /** The hijack of the tests: origin 666, received from a customer, flagged ROV-invalid. */
  const Bad: Announcement := ReceivedAnnouncement(Hijacked, 666, Customer, [666], true)

  /** A valid route originated by AS 1. */
  const Good: Announcement := OriginAnnouncement(Hijacked, 1)

  /** AS 2 is the provider of AS 1; with `rov`, AS 2 deploys ROV. */
  function Linked(rov: bool): Graph
  {
    var g := Graphs.AddProvider(map[], 2, 1);
    if rov then Graphs.SetRov(g, 2) else g
  }

  /** Then AS 1 seeds `ann`. */
  function Scenario(rov: bool, ann: Announcement): Graph
  {
    Seed(Linked(rov), 1, ann)
  }

  /** The two ASes are linked both ways, and only AS 2's policy depends on `rov`; no policy holds anything yet. */
  lemma LinkedShape(rov: bool)
    ensures var g := Linked(rov);
      && WellFormed(g) && g.Keys == {1, 2}
      && 2 in g[1].providers && 1 in g[2].customers
      && g[1].policy == NewPolicy(BGP)
      && g[2].policy == NewPolicy(if rov then ROV else BGP)
  {
    var g0 := Graphs.AddProvider(map[], 2, 1);
    EmptyWellFormed();
    AddProviderWellFormed(map[], 2, 1);
    AddProviderLinks(map[], 2, 1);
    if rov {
      SetRovWellFormed(g0, 2);
    }
  }

  /** The scenario graph before propagation: AS 1 holds the seeded route. */
  lemma ScenarioShape(rov: bool, ann: Announcement)
    requires ann.prefix == Hijacked
    ensures var g := Scenario(rov, ann);
      && WellFormed(g) && g.Keys == {1, 2}
      && 2 in g[1].providers && 1 in g[2].customers
      && g[2].policy.kind == (if rov then ROV else BGP)
      && HasRoute(g, 1, Hijacked)
  {
    var g1 := Linked(rov);
    LinkedShape(rov);
    SeedWellFormed(g1, 1, ann);
    var st := Receive(g1[1].policy, ann);
    assert HasCandidates(st.receivedQueue, Hijacked);
    ProcessDecides(st, Hijacked);
  }

  /** Both route invariants hold before propagation: only AS 1 holds a route, the seeded one. */
  lemma ScenarioUpholds(rov: bool, ann: Announcement)
    requires ann.prefix == Hijacked
    ensures Upholds(Scenario(rov, ann), RovFiltered)
    ensures Upholds(Scenario(rov, ann), FlaggedAll(Hijacked, ann.rovInvalid))
  {
    var g0 := Graphs.AddProvider(map[], 2, 1);
    var w := FlaggedAll(Hijacked, ann.rovInvalid);
    ProviderUpholds(map[], 2, 1, RovFiltered);
    ProviderUpholds(map[], 2, 1, w);
    AddNodeUpholds(g0, 2, RovFiltered);
    AddNodeUpholds(g0, 2, w);
    SeedUpholds(Linked(rov), 1, ann, RovFiltered);
    SeedUpholds(Linked(rov), 1, ann, w);
  }

  /** Test A: AS 2 deploys ROV and drops the hijack, so it ends with no route for the prefix. */
  lemma RovProviderDropsHijack(buckets: seq<seq<Asn>>, order: seq<Asn>)
    ensures var h := Propagate(Scenario(true, Bad), buckets, order);
      2 in h && !HasRoute(h, 2, Hijacked)
  {
    var g := Scenario(true, Bad);
    ScenarioShape(true, Bad);
    ScenarioUpholds(true, Bad);
    PropagateShape(g, buckets, order);
    RovDropsInvalidPrefix(g, buckets, order, Hijacked);
  }

  /** Test B: AS 2 runs plain BGP and stores the hijack its customer sends. */
  lemma BgpProviderStoresHijack(rank: map<Asn, nat>, buckets: seq<seq<Asn>>, order: seq<Asn>)
    requires IsRanking(Scenario(false, Bad), rank) && IsBuckets(Scenario(false, Bad), rank, buckets)
    ensures HasRoute(Propagate(Scenario(false, Bad), buckets, order), 2, Hijacked)
  {
    ScenarioShape(false, Bad);
    ProviderGetsRoute(Scenario(false, Bad), rank, buckets, order, 1, 2, Hijacked);
  }

  /** Test C: AS 2 deploys ROV and stores the valid route its customer sends. */
  lemma RovProviderStoresValid(rank: map<Asn, nat>, buckets: seq<seq<Asn>>, order: seq<Asn>)
    requires IsRanking(Scenario(true, Good), rank) && IsBuckets(Scenario(true, Good), rank, buckets)
    ensures HasRoute(Propagate(Scenario(true, Good), buckets, order), 2, Hijacked)
  {
    ScenarioShape(true, Good);
    ScenarioUpholds(true, Good);
    ProviderGetsRoute(Scenario(true, Good), rank, buckets, order, 1, 2, Hijacked);
  }
}
