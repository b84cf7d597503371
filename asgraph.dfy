/**
 * The AS graph object: a map from AS number to node that the building
 * operations, seeding and propagation update in place.  Every method is
 * proved to leave the map equal to the corresponding function on graph
 * values; every public operation keeps the graph well formed, with every
 * received queue empty and no ROV-invalid route held by an ROV AS.
 */
module ASGraphs {
  import opened Wrappers
  import opened Announcements
  import opened Policies
  import opened Graphs
  import opened Cycles
  import opened Ranks
  import opened Propagation
  import opened Routes
  import opened Loaders
  import opened Dump

  class ASGraph {
    var nodes: Graph

    /**
     * Relationships recorded on both sides, neighbours present, nothing
     * waiting in a queue, and no ROV AS holding an ROV-invalid route.
     */
    ghost predicate Valid()
      reads this
    {
      WellFormed(nodes) && Quiet(nodes) && Upholds(nodes, RovFiltered)
    }

    /** A new graph has no AS. */
    constructor ()
      ensures nodes == map[] && Valid()
    {
      nodes := map[];
    }

    /** Adds an AS with an empty BGP policy, unless it is already present. */
    method AddNode(asn: Asn)
      requires Valid()
      modifies this
      ensures nodes == Graphs.AddNode(old(nodes), asn) && Valid()
    {
      AddNodeWellFormed(nodes, asn);
      AddNodeUpholds(nodes, asn, RovFiltered);
      if asn !in nodes {
        nodes := nodes[asn := NewNode()];
      }
    }

    /** Adds the AS if needed and gives it a fresh ROV policy. */
    method SetRov(asn: Asn)
      requires Valid()
      modifies this
      ensures nodes == Graphs.SetRov(old(nodes), asn) && Valid()
    {
      SetRovWellFormed(nodes, asn);
      AddNodeUpholds(nodes, asn, RovFiltered);
      AddNode(asn);
      nodes := nodes[asn := nodes[asn].(policy := NewPolicy(ROV))];
    }

    /** Records `provider` as a provider of `customer`. */
    method AddProvider(provider: Asn, customer: Asn)
      requires Valid()
      modifies this
      ensures nodes == Graphs.AddProvider(old(nodes), provider, customer) && Valid()
    {
      ghost var g0 := nodes;
      AddNode(provider);
      AddNode(customer);
      nodes := nodes[provider := nodes[provider].(customers := nodes[provider].customers + [customer])];
      nodes := nodes[customer := nodes[customer].(providers := nodes[customer].providers + [provider])];
      assert nodes == Graphs.AddProvider(g0, provider, customer);
      AddProviderWellFormed(g0, provider, customer);
      ProviderUpholds(g0, provider, customer, RovFiltered);
      ProviderQuiet(g0, provider, customer);
    }

    /** Records the two ASes as peers of each other. */
    method AddPeer(a: Asn, b: Asn)
      requires Valid()
      modifies this
      ensures nodes == Graphs.AddPeer(old(nodes), a, b) && Valid()
    {
      ghost var g0 := nodes;
      AddNode(a);
      AddNode(b);
      nodes := nodes[a := nodes[a].(peers := nodes[a].peers + [b])];
      nodes := nodes[b := nodes[b].(peers := nodes[b].peers + [a])];
      assert nodes == Graphs.AddPeer(g0, a, b);
      AddPeerWellFormed(g0, a, b);
      PeerUpholds(g0, a, b, RovFiltered);
      PeerQuiet(g0, a, b);
    }

    /** The AS (added if needed) receives the announcement and processes its queue. */
    method SeedAnnouncement(asn: Asn, ann: Announcement)
      requires Valid()
      modifies this
      ensures nodes == Seed(old(nodes), asn, ann) && Valid()
    {
      SeedWellFormed(nodes, asn, ann);
      SeedUpholds(nodes, asn, ann, RovFiltered);
      AddNode(asn);
      var policy := nodes[asn].policy;
      policy := Receive(policy, ann);
      policy := Process(policy);
      nodes := nodes[asn := nodes[asn].(policy := policy)];
    }

    /** Whether some AS is, through a chain of customer links, its own customer. */
    method HasProviderCycle() returns (found: bool)
      requires Valid()
      ensures found <==> HasCycle(nodes)
    {
      ghost var finish;
      found, finish := Cycles.HasProviderCycle(nodes);
    }

    /** The ASes grouped by rank, or nothing when the provider links have a cycle. */
    method FlattenByProviders() returns (ranks: Option<seq<seq<Asn>>>, ghost rank: map<Asn, nat>)
      requires Valid()
      ensures ranks.None? <==> HasCycle(nodes)
      ensures ranks.Some? ==> IsRanking(nodes, rank) && IsBuckets(nodes, rank, ranks.value)
    {
      ranks, rank := Ranks.FlattenByProviders(nodes);
    }

    // ------------------------------------------------------------ sending and processing

    /** AS `asn` sends every entry of its local RIB to each of its neighbours in direction `dir`. */
    method SendRibOf(asn: Asn, dir: Direction)
      requires asn in nodes && forall t :: t in Targets(nodes[asn], dir) ==> t in nodes
      modifies this
      ensures nodes == SendRib(old(nodes), asn, dir)
    {
      ghost var g0 := nodes;
      var rib := nodes[asn].policy.localRib;
      var targets := Targets(nodes[asn], dir);
      var pending := rib.Keys;
      DeliveredNone(g0, asn, dir, rib, targets);
      while pending != {}
        invariant pending <= rib.Keys
        invariant nodes == Delivered(g0, asn, dir, rib, Counts(rib.Keys, rib.Keys - pending, targets))
        decreases pending
      {
        var prefix :| prefix in pending;
        var sent := Sent(prefix, rib[prefix], asn, dir);
        SendPrefixStep(g0, asn, dir, rib, targets, pending, prefix);
        SendToAll(targets, sent);
        pending := pending - {prefix};
      }
      assert rib.Keys - pending == rib.Keys;
    }

    /** Each of `targets` in turn receives `sent`. */
    method SendToAll(targets: seq<Asn>, sent: Announcement)
      requires forall t :: t in targets ==> t in nodes
      modifies this
      ensures nodes.Keys == old(nodes).Keys
      ensures nodes == ReceiveAll(old(nodes), targets, sent)
    {
      ghost var g0 := nodes;
      for i := 0 to |targets|
        invariant nodes.Keys == g0.Keys
        invariant nodes == ReceiveAll(g0, targets[..i], sent)
      {
        assert targets[..i + 1][..i] == targets[..i];
        nodes := ReceiveAt(nodes, targets[i], sent);
      }
      assert targets[..|targets|] == targets;
    }

    /** Each AS of the bucket that is in the graph sends its RIB in direction `dir`. */
    method SendBucket(bucket: seq<Asn>, dir: Direction)
      requires WellFormed(nodes)
      modifies this
      ensures nodes == SendAll(old(nodes), bucket, dir)
    {
      ghost var g0 := nodes;
      for i := 0 to |bucket|
        invariant nodes == SendAll(g0, bucket[..i], dir)
      {
        SendAllShape(g0, bucket[..i], dir);
        SameShapeWellFormed(g0, nodes);
        assert bucket[..i + 1][..i] == bucket[..i];
        var asn := bucket[i];
        if asn in nodes {
          TargetsPresent(nodes, asn, dir);
          SendRibOf(asn, dir);
        }
      }
      assert bucket[..|bucket|] == bucket;
    }

    /** Each AS of the bucket that is in the graph processes its queue on its own behalf. */
    method ProcessBucket(bucket: seq<Asn>)
      modifies this
      ensures nodes == ProcessAll(old(nodes), bucket)
    {
      ghost var g0 := nodes;
      for i := 0 to |bucket|
        invariant nodes == ProcessAll(g0, bucket[..i])
      {
        assert bucket[..i + 1][..i] == bucket[..i];
        var asn := bucket[i];
        if asn in nodes {
          nodes := nodes[asn := nodes[asn].(policy := ProcessFor(nodes[asn].policy, asn))];
        }
      }
      assert bucket[..|bucket|] == bucket;
    }

    /** Every AS sends its RIB to its peers, in an order the map leaves open; `order` is the one taken. */
    method SendToPeers() returns (ghost order: seq<Asn>)
      requires WellFormed(nodes)
      modifies this
      ensures multiset(order) == multiset(old(nodes).Keys)
      ensures nodes == SendAll(old(nodes), order, Across)
    {
      ghost var g0 := nodes;
      var remaining := nodes.Keys;
      order := [];
      while remaining != {}
        invariant remaining <= g0.Keys
        invariant multiset(order) + multiset(remaining) == multiset(g0.Keys)
        invariant nodes == SendAll(g0, order, Across)
        decreases remaining
      {
        var asn :| asn in remaining;
        SendAllShape(g0, order, Across);
        SameShapeWellFormed(g0, nodes);
        TargetsPresent(nodes, asn, Across);
        SendRibOf(asn, Across);
        assert (order + [asn])[..|order|] == order;
        order := order + [asn];
        remaining := remaining - {asn};
      }
    }

    /** Every AS processes its queue on its own behalf. */
    method ProcessEveryNode()
      modifies this
      ensures nodes == ProcessEvery(old(nodes))
    {
      ghost var g0 := nodes;
      var remaining := nodes.Keys;
      while remaining != {}
        invariant remaining <= g0.Keys
        invariant nodes == ProcessedSome(g0, g0.Keys - remaining)
        decreases remaining
      {
        var asn :| asn in remaining;
        ProcessedSomeStep(g0, g0.Keys - remaining, asn);
        nodes := nodes[asn := nodes[asn].(policy := ProcessFor(nodes[asn].policy, asn))];
        remaining := remaining - {asn};
        assert g0.Keys - remaining == (g0.Keys - (remaining + {asn})) + {asn};
      }
      assert nodes == ProcessEvery(g0);
    }

    // ------------------------------------------------------------ propagation

    /** The upward loop: for each rank from the bottom, its ASes send to their providers and the next rank processes. */
    method PropagateUp(b: seq<seq<Asn>>)
      requires WellFormed(nodes)
      modifies this
      ensures nodes == UpFrom(old(nodes), b, 0)
    {
      ghost var g0 := nodes;
      var maxrank := |b| - 1;
      for r := 0 to maxrank + 1
        invariant SameShape(g0, nodes)
        invariant UpFrom(nodes, b, r) == UpFrom(g0, b, 0)
      {
        ghost var before := nodes;
        SameShapeWellFormed(g0, nodes);
        SendBucket(b[r], Up);
        if r + 1 <= maxrank {
          ProcessBucket(b[r + 1]);
        }
        assert nodes == UpStep(before, b, r);
        UpStepShape(before, b, r);
        SameShapeTrans(g0, before, nodes);
      }
    }

    /** The across phase: every AS sends one hop to its peers, then every AS processes. */
    method PropagateAcross() returns (ghost order: seq<Asn>)
      requires WellFormed(nodes)
      modifies this
      ensures multiset(order) == multiset(old(nodes).Keys)
      ensures nodes == AcrossPhase(old(nodes), order)
    {
      order := SendToPeers();
      ProcessEveryNode();
    }

    /** The downward loop: for each rank from the top, its ASes send to their customers and the rank below processes. */
    method PropagateDown(b: seq<seq<Asn>>)
      requires WellFormed(nodes)
      modifies this
      ensures nodes == DownFrom(old(nodes), b, |b|)
    {
      ghost var g0 := nodes;
      var r := |b|;
      while r > 0
        invariant 0 <= r <= |b|
        invariant SameShape(g0, nodes)
        invariant DownFrom(nodes, b, r) == DownFrom(g0, b, |b|)
      {
        r := r - 1;
        ghost var before := nodes;
        SameShapeWellFormed(g0, nodes);
        SendBucket(b[r], Down);
        if r - 1 >= 0 {
          ProcessBucket(b[r - 1]);
        }
        assert nodes == DownStep(before, b, r);
        DownStepShape(before, b, r);
        SameShapeTrans(g0, before, nodes);
      }
    }

    /**
     * Propagates the seeded routes: up the ranks to providers, one hop across
     * to peers, and down the ranks to customers.  With a provider cycle there
     * is no ranking (the source throws) and the graph is left as it was.
     * Otherwise the graph becomes `Propagate` of the old graph, for the
     * buckets of a ranking and the order in which the map listed the ASes.
     */
    method PropagateAnnouncements() returns (ok: bool, ghost rank: map<Asn, nat>, ghost buckets: seq<seq<Asn>>, ghost order: seq<Asn>)
      requires Valid()
      modifies this
      ensures Valid()
      ensures ok <==> !HasCycle(old(nodes))
      ensures !ok ==> nodes == old(nodes)
      ensures ok ==> IsRanking(old(nodes), rank) && IsBuckets(old(nodes), rank, buckets)
      ensures ok ==> multiset(order) == multiset(old(nodes).Keys)
      ensures ok ==> nodes == Propagate(old(nodes), buckets, order)
    {
      ghost var g0 := nodes;
      var ranks;
      ranks, rank := FlattenByProviders();
      if ranks.None? {
        return false, rank, [], [];
      }
      ok := true;
      buckets := ranks.value;
      PropagateUp(ranks.value);
      ghost var up := nodes;
      UpFromShape(g0, buckets, 0);
      SameShapeWellFormed(g0, up);
      order := PropagateAcross();
      ghost var across := nodes;
      AcrossPhaseShape(up, order);
      SameShapeTrans(g0, up, across);
      SameShapeWellFormed(g0, across);
      PropagateDown(ranks.value);
      PropagateShape(g0, buckets, order);
      SameShapeWellFormed(g0, nodes);
      PropagateQuiet(g0, rank, buckets, order);
      PropagateUpholds(g0, buckets, order, RovFiltered);
    }

    // ------------------------------------------------------------ loading the input files

    /**
     * Reads the relationship file line by line, recording each provider and
     * peer link; an unreadable line ends the reading with `ok` false.
     */
    method BuildGraphFromLines(lines: seq<string>) returns (ok: bool)
      requires Valid()
      modifies this
      ensures Valid()
      ensures (nodes, ok) == BuildLinks(old(nodes), ParseLinks(lines))
    {
      ghost var links := ParseLinks(lines);
      ghost var g0 := nodes;
      var i := 0;
      while i < |lines|
        invariant 0 <= i <= |lines| && Valid()
        invariant BuildLinks(nodes, links[i..]) == BuildLinks(g0, links)
      {
        var l := ReadLinkLine(lines[i]);
        if l.Unreadable? {
          return false;
        }
        BuildLinksAt(nodes, links, i);
        AddLink(l);
        i := i + 1;
      }
      ok := true;
    }

    /** One readable relationship line: -1 adds a provider edge, 0 a peer edge, anything else nothing. */
    method AddLink(l: LinkLine)
      requires Valid() && !l.Unreadable?
      modifies this
      ensures Valid()
      ensures nodes == ApplyLink(old(nodes), l)
    {
      if l.Link? && l.rel == -1 {
        AddProvider(l.first, l.second);
      } else if l.Link? && l.rel == 0 {
        AddPeer(l.first, l.second);
      }
    }

    /** Skips the header line, then seeds every readable row of the announcement file. */
    method LoadAnnouncementLines(lines: seq<string>)
      requires Valid()
      modifies this
      ensures Valid()
      ensures nodes == SeedAll(old(nodes), ParseSeeds(DataRows(lines)))
    {
      if lines == [] {
        return;
      }
      ghost var seeds := ParseSeeds(DataRows(lines));
      ghost var g0 := nodes;
      var i := 1;
      while i < |lines|
        invariant 1 <= i <= |lines| && Valid()
        invariant SeedAll(nodes, seeds[i - 1..]) == SeedAll(g0, seeds)
      {
        var row := ReadSeedLine(lines[i]);
        SeedAllAt(nodes, seeds, i - 1);
        if row.Some? {
          SeedAnnouncement(row.value.0, row.value.1);
        }
        i := i + 1;
      }
    }

    /** Gives every AS named by a readable line of the ROV file a fresh ROV policy. */
    method LoadRovLines(lines: seq<string>)
      requires Valid()
      modifies this
      ensures Valid()
      ensures nodes == MarkRov(old(nodes), ParseRovs(lines))
    {
      ghost var asns := ParseRovs(lines);
      ghost var g0 := nodes;
      var i := 0;
      while i < |lines|
        invariant 0 <= i <= |lines| && Valid()
        invariant MarkRov(nodes, asns[i..]) == MarkRov(g0, asns)
      {
        MarkRovAt(nodes, asns, i);
        LoadRovLine(lines[i]);
        i := i + 1;
      }
    }

    // ------------------------------------------------------------ the RIB dump

    /**
     * The lines of the RIB dump: the header, then the ASes sorted by number
     * and, for each, one row per local-RIB entry in the order its RIB yields
     * them (`orders`).
     */
    method DumpRibs() returns (lines: seq<string>, ghost orders: seq<seq<Prefix>>)
      ensures Listing(nodes, SortedAsns(nodes.Keys), orders)
      ensures lines == DumpLines(nodes, orders)
      ensures |lines| >= 1 && lines[0] == Header
    {
      var g := nodes;
      var asns := SortedKeys(g.Keys);
      lines := [Header];
      orders := [];
      var i := 0;
      ghost var done: seq<Asn> := [];
      while i < |asns|
        invariant 0 <= i <= |asns| && |orders| == i && done == asns[..i]
        invariant Listing(g, done, orders)
        invariant lines == [Header] + Dump.Rows(Entries(g, done, orders))
      {
        var rows, order := RibRows(asns[i], g[asns[i]].policy.localRib);
        DumpStep(g, done, orders, asns[i], order, rows);
        PrefixSnoc(asns, i);
        lines := lines + rows;
        orders := orders + [order];
        done := done + [asns[i]];
        i := i + 1;
      }
      assert done == asns;
    }

    /** One line of the ROV file: the AS it names, if any, gets a fresh ROV policy. */
    method LoadRovLine(line: string)
      requires Valid()
      modifies this
      ensures Valid()
      ensures nodes == match ParseRovLine(line) case Some(asn) => Graphs.SetRov(old(nodes), asn) case None => old(nodes)
    {
      var asn := ReadRovLine(line);
      if asn.Some? {
        SetRov(asn.value);
      }
    }
  }
}
