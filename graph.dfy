/**
 * The AS graph as a value: a map from AS number to node, each node holding
 * its providers, customers and peers (in insertion order, duplicates kept)
 * and the value of its routing policy.  The functions here are the effect of
 * the graph's building operations; the `ASGraph` class applies them in place.
 */
module Graphs {
  import opened Announcements
  import opened Policies

  /** One AS: its neighbours by relationship and its routing policy. */
  datatype ASNode = ASNode(
    providers: seq<Asn>,
    customers: seq<Asn>,
    peers: seq<Asn>,
    policy: PolicyState)

  type Graph = map<Asn, ASNode>

  /** A freshly created node: no neighbours and an empty BGP policy. */
  function NewNode(): (n: ASNode)
    ensures n.providers == [] && n.customers == [] && n.peers == []
    ensures n.policy == NewPolicy(BGP)
  {
    ASNode([], [], [], NewPolicy(BGP))
  }

  /** The node `asn` once it has been added: the existing one, or a new one. */
  function Lookup(g: Graph, asn: Asn): ASNode
  {
    if asn in g then g[asn] else NewNode()
  }

  /** `b` is recorded as some kind of neighbour of `a`. */
  predicate Adjacent(n: ASNode, b: Asn)
  {
    b in n.providers || b in n.customers || b in n.peers
  }

  /** Every recorded neighbour is itself a node of the graph. */
  predicate Closed(g: Graph)
  {
    forall a, b :: a in g && Adjacent(g[a], b) ==> b in g
  }

  /** Each relationship is recorded on both sides. */
  predicate Symmetric(g: Graph)
  {
    forall a, b :: a in g && b in g ==>
      && (b in g[a].providers <==> a in g[b].customers)
      && (b in g[a].peers <==> a in g[b].peers)
  }

  /** The invariant of every graph the building operations produce. */
  predicate WellFormed(g: Graph)
  {
    Closed(g) && Symmetric(g)
  }

  /** The empty graph is well formed. */
  lemma EmptyWellFormed()
    ensures WellFormed(map[])
  {
  }

  /** Adds an AS with an empty BGP policy unless it is already present, in which case nothing changes. */
  function AddNode(g: Graph, asn: Asn): (r: Graph)
    ensures r.Keys == g.Keys + {asn}
    ensures r[asn] == Lookup(g, asn)
    ensures forall a :: a in g ==> r[a] == g[a]
  {
    if asn in g then g else g[asn := NewNode()]
  }

  /** Adds the AS if needed and replaces its policy with a fresh ROV policy. */
  function SetRov(g: Graph, asn: Asn): (r: Graph)
    ensures r.Keys == g.Keys + {asn}
    ensures r[asn] == Lookup(g, asn).(policy := NewPolicy(ROV))
    ensures forall a :: a in g && a != asn ==> r[a] == g[a]
  {
    var g1 := AddNode(g, asn);
    g1[asn := g1[asn].(policy := NewPolicy(ROV))]
  }

  /**
   * Records `p` as a provider of `c`: both nodes are added if needed, `c` is
   * appended to `p`'s customers and `p` to `c`'s providers.
   */
  function AddProvider(g: Graph, p: Asn, c: Asn): (r: Graph)
    ensures r.Keys == g.Keys + {p, c}
    ensures r[p].customers == Lookup(g, p).customers + [c]
    ensures r[c].providers == Lookup(g, c).providers + [p]
    ensures p != c ==> r[p].providers == Lookup(g, p).providers && r[c].customers == Lookup(g, c).customers
    ensures r[p].peers == Lookup(g, p).peers && r[c].peers == Lookup(g, c).peers
    ensures r[p].policy == Lookup(g, p).policy && r[c].policy == Lookup(g, c).policy
    ensures forall a :: a in g && a != p && a != c ==> r[a] == g[a]
  {
    var g1 := AddNode(AddNode(g, p), c);
    var g2 := g1[p := g1[p].(customers := g1[p].customers + [c])];
    g2[c := g2[c].(providers := g2[c].providers + [p])]
  }

  /** Records `a` and `b` as peers: each is appended to the other's peer list. */
  function AddPeer(g: Graph, a: Asn, b: Asn): (r: Graph)
    ensures r.Keys == g.Keys + {a, b}
    ensures a != b ==> r[a].peers == Lookup(g, a).peers + [b] && r[b].peers == Lookup(g, b).peers + [a]
    ensures a == b ==> r[a].peers == Lookup(g, a).peers + [a, a]
    ensures r[a].providers == Lookup(g, a).providers && r[a].customers == Lookup(g, a).customers
    ensures r[b].providers == Lookup(g, b).providers && r[b].customers == Lookup(g, b).customers
    ensures r[a].policy == Lookup(g, a).policy && r[b].policy == Lookup(g, b).policy
    ensures forall x :: x in g && x != a && x != b ==> r[x] == g[x]
  {
    var g1 := AddNode(AddNode(g, a), b);
    var g2 := g1[a := g1[a].(peers := g1[a].peers + [b])];
    g2[b := g2[b].(peers := g2[b].peers + [a])]
  }

  /**
   * Seeds an announcement at `asn`: the AS is added if needed, receives the
   * announcement and processes its queue without prepending.
   */
  function Seed(g: Graph, asn: Asn, ann: Announcement): (r: Graph)
    ensures r.Keys == g.Keys + {asn}
    ensures r[asn] == Lookup(g, asn).(policy := Process(Receive(Lookup(g, asn).policy, ann)))
    ensures forall a :: a in g && a != asn ==> r[a] == g[a]
  {
    var g1 := AddNode(g, asn);
    g1[asn := g1[asn].(policy := Process(Receive(g1[asn].policy, ann)))]
  }

  /** Adding a node twice is the same as adding it once, and adding an existing node changes nothing. */
  lemma AddNodeIdempotent(g: Graph, asn: Asn)
    ensures AddNode(AddNode(g, asn), asn) == AddNode(g, asn)
    ensures asn in g ==> AddNode(g, asn) == g
  {
  }

  /** After `AddProvider(p, c)` the relationship is visible from both ends. */
  lemma AddProviderLinks(g: Graph, p: Asn, c: Asn)
    ensures var r := AddProvider(g, p, c);
      c in r[p].customers && p in r[c].providers
  {
    var r := AddProvider(g, p, c);
    assert r[p].customers[|r[p].customers| - 1] == c;
    assert r[c].providers[|r[c].providers| - 1] == p;
  }

  /** Peering is recorded symmetrically. */
  lemma AddPeerLinks(g: Graph, a: Asn, b: Asn)
    ensures var r := AddPeer(g, a, b);
      b in r[a].peers && a in r[b].peers
  {
    var r := AddPeer(g, a, b);
    if a != b {
      assert r[a].peers[|r[a].peers| - 1] == b;
      assert r[b].peers[|r[b].peers| - 1] == a;
    } else {
      assert r[a].peers[|r[a].peers| - 1] == a;
    }
  }

  /** Two nodes with the same neighbours, whatever their policies. */
  predicate SameLinks(x: ASNode, y: ASNode)
  {
    x.providers == y.providers && x.customers == y.customers && x.peers == y.peers
  }

  /** Adding nodes and changing policies, without touching any neighbour list, keeps a graph well formed. */
  lemma SameLinksWellFormed(g: Graph, r: Graph)
    requires WellFormed(g) && g.Keys <= r.Keys
    requires forall a :: a in r ==> SameLinks(r[a], Lookup(g, a))
    ensures WellFormed(r)
  {
    forall a, b | a in r && Adjacent(r[a], b)
      ensures b in r
    {
      assert Adjacent(Lookup(g, a), b);
    }
    forall a, b | a in r && b in r
      ensures b in r[a].providers <==> a in r[b].customers
      ensures b in r[a].peers <==> a in r[b].peers
    {
      SameLinksPair(g, r, a, b);
    }
  }

  lemma SameLinksPair(g: Graph, r: Graph, a: Asn, b: Asn)
    requires WellFormed(g) && a in r && b in r
    requires SameLinks(r[a], Lookup(g, a)) && SameLinks(r[b], Lookup(g, b))
    ensures b in r[a].providers <==> a in r[b].customers
    ensures b in r[a].peers <==> a in r[b].peers
  {
    if a in g && b in g {
      assert b in g[a].providers <==> a in g[b].customers;
      assert b in g[a].peers <==> a in g[b].peers;
    } else if a in g {
      assert !Adjacent(g[a], b);
    } else if b in g {
      assert !Adjacent(g[b], a);
    }
  }

  /** Every building operation keeps the graph well formed. */
  lemma AddNodeWellFormed(g: Graph, asn: Asn)
    requires WellFormed(g)
    ensures WellFormed(AddNode(g, asn))
  {
    SameLinksWellFormed(g, AddNode(g, asn));
  }

  lemma SetRovWellFormed(g: Graph, asn: Asn)
    requires WellFormed(g)
    ensures WellFormed(SetRov(g, asn))
  {
    SameLinksWellFormed(g, SetRov(g, asn));
  }

  lemma AddProviderWellFormed(g: Graph, p: Asn, c: Asn)
    requires WellFormed(g)
    ensures WellFormed(AddProvider(g, p, c))
  {
    var r := AddProvider(g, p, c);
    forall a, b | a in r && Adjacent(r[a], b)
      ensures b in r
    {
      ProviderClosed(g, p, c, a, b);
    }
    forall a, b | a in r && b in r
      ensures b in r[a].providers <==> a in r[b].customers
      ensures b in r[a].peers <==> a in r[b].peers
    {
      ProviderSymmetric(g, p, c, a, b);
    }
  }

  lemma ProviderClosed(g: Graph, p: Asn, c: Asn, a: Asn, b: Asn)
    requires WellFormed(g)
    requires var r := AddProvider(g, p, c); a in r && Adjacent(r[a], b)
    ensures b in AddProvider(g, p, c)
  {
    var r := AddProvider(g, p, c);
    if a != p && a != c {
      assert Adjacent(g[a], b);
    } else if b != p && b != c {
      assert Adjacent(Lookup(g, a), b);
    }
  }

  lemma ProviderSymmetric(g: Graph, p: Asn, c: Asn, a: Asn, b: Asn)
    requires WellFormed(g)
    requires var r := AddProvider(g, p, c); a in r && b in r
    ensures var r := AddProvider(g, p, c); b in r[a].providers <==> a in r[b].customers
    ensures var r := AddProvider(g, p, c); b in r[a].peers <==> a in r[b].peers
  {
    var r := AddProvider(g, p, c);
    if a in g && b in g {
      assert b in g[a].providers <==> a in g[b].customers;
      assert b in g[a].peers <==> a in g[b].peers;
    }
    if a !in g {
      assert Lookup(g, a) == NewNode();
    }
    if b !in g {
      assert Lookup(g, b) == NewNode();
    }
    if a == c && b == p {
      AddProviderLinks(g, p, c);
    }
  }

  lemma AddPeerWellFormed(g: Graph, x: Asn, y: Asn)
    requires WellFormed(g)
    ensures WellFormed(AddPeer(g, x, y))
  {
    var r := AddPeer(g, x, y);
    forall a, b | a in r && Adjacent(r[a], b)
      ensures b in r
    {
      PeerClosed(g, x, y, a, b);
    }
    forall a, b | a in r && b in r
      ensures b in r[a].providers <==> a in r[b].customers
      ensures b in r[a].peers <==> a in r[b].peers
    {
      PeerSymmetric(g, x, y, a, b);
    }
  }

  lemma PeerClosed(g: Graph, x: Asn, y: Asn, a: Asn, b: Asn)
    requires WellFormed(g)
    requires var r := AddPeer(g, x, y); a in r && Adjacent(r[a], b)
    ensures b in AddPeer(g, x, y)
  {
    if a != x && a != y {
      assert Adjacent(g[a], b);
    } else if b != x && b != y {
      assert Adjacent(Lookup(g, a), b);
    }
  }

  lemma PeerSymmetric(g: Graph, x: Asn, y: Asn, a: Asn, b: Asn)
    requires WellFormed(g)
    requires var r := AddPeer(g, x, y); a in r && b in r
    ensures var r := AddPeer(g, x, y); b in r[a].providers <==> a in r[b].customers
    ensures var r := AddPeer(g, x, y); b in r[a].peers <==> a in r[b].peers
  {
    var r := AddPeer(g, x, y);
    if a in g && b in g {
      assert b in g[a].providers <==> a in g[b].customers;
      assert b in g[a].peers <==> a in g[b].peers;
    }
    if a !in g {
      assert Lookup(g, a) == NewNode();
    }
    if b !in g {
      assert Lookup(g, b) == NewNode();
    }
    if a != x && a != y && b != x && b != y {
      assert r[a] == g[a] && r[b] == g[b];
    } else if a == x && b == y {
      assert b in r[a].peers && a in r[b].peers by { AddPeerLinks(g, x, y); }
    } else if a == y && b == x {
      assert b in r[a].peers && a in r[b].peers by { AddPeerLinks(g, x, y); }
    }
  }

  lemma SeedWellFormed(g: Graph, asn: Asn, ann: Announcement)
    requires WellFormed(g)
    ensures WellFormed(Seed(g, asn, ann))
  {
    SameLinksWellFormed(g, Seed(g, asn, ann));
  }
}
