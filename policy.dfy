/**
 * The routing policy of one AS: a queue of received announcements per prefix
 * and a local RIB holding the best announcement per prefix.  A BGP policy
 * accepts every announcement; an ROV policy drops those flagged ROV-invalid on
 * receipt and otherwise behaves exactly like BGP.
 */
module Policies {
  import opened Announcements
  import opened Preference

  datatype PolicyKind = BGP | ROV

  /** The value of a policy object: its kind, local RIB and received queue. */
  datatype PolicyState = PolicyState(
    kind: PolicyKind,
    localRib: map<Prefix, Announcement>,
    receivedQueue: map<Prefix, seq<Announcement>>)

  /** A freshly constructed policy. */
  function NewPolicy(kind: PolicyKind): (s: PolicyState)
    ensures s.kind == kind && s.localRib == map[] && s.receivedQueue == map[]
  {
    PolicyState(kind, map[], map[])
  }

  /** The queue of `p`, empty when the prefix has none. */
  function Queued(s: PolicyState, p: Prefix): seq<Announcement>
  {
    if p in s.receivedQueue then s.receivedQueue[p] else []
  }

  /** Whether a policy of this kind keeps `a` on receipt. */
  predicate Accepts(kind: PolicyKind, a: Announcement)
  {
    !(kind == ROV && a.rovInvalid)
  }

  /** Receiving an announcement: ROV drops invalid ones, otherwise it is appended to its prefix's queue. */
  function Receive(s: PolicyState, a: Announcement): (r: PolicyState)
    ensures r.kind == s.kind && r.localRib == s.localRib
    ensures !Accepts(s.kind, a) ==> r == s
    ensures Accepts(s.kind, a) ==> a.prefix in r.receivedQueue && Queued(r, a.prefix) == Queued(s, a.prefix) + [a]
    ensures forall p :: p != a.prefix ==> (p in r.receivedQueue <==> p in s.receivedQueue) && Queued(r, p) == Queued(s, p)
  {
    if !Accepts(s.kind, a) then s
    else s.(receivedQueue := s.receivedQueue[a.prefix := Queued(s, a.prefix) + [a]])
  }

  /** `p` has a non-empty queue. */
  predicate HasCandidates(queue: map<Prefix, seq<Announcement>>, p: Prefix)
  {
    p in queue && queue[p] != []
  }

  /**
   * The RIB after deciding the prefixes of `done` with plain processing: the
   * chosen candidate replaces the stored entry only when strictly better, and
   * is inserted when there is none.
   */
  function ProcessedRibOn(rib: map<Prefix, Announcement>, queue: map<Prefix, seq<Announcement>>, done: set<Prefix>): map<Prefix, Announcement>
  {
    map p | p in rib.Keys + queue.Keys && (p in rib || (p in done && HasCandidates(queue, p))) ::
      if p in done && HasCandidates(queue, p) && (p !in rib || Better(Chosen(queue[p]), rib[p]))
      then Chosen(queue[p])
      else rib[p]
  }

  /** The announcement stored by processing on behalf of `my`: the chosen one with `my` prepended to its path. */
  function Stored(p: Prefix, c: Announcement, my: Asn): (a: Announcement)
    ensures a.asPath == [my] + c.asPath && a.prefix == p
    ensures a.nextHopAsn == c.nextHopAsn && a.receivedFrom == c.receivedFrom && a.rovInvalid == c.rovInvalid
  {
    ReceivedAnnouncement(p, c.nextHopAsn, c.receivedFrom, [my] + c.asPath, c.rovInvalid)
  }

  /** As `ProcessedRibOn`, for processing on behalf of `my`. */
  function ProcessedRibForOn(rib: map<Prefix, Announcement>, queue: map<Prefix, seq<Announcement>>, done: set<Prefix>, my: Asn): map<Prefix, Announcement>
  {
    map p | p in rib.Keys + queue.Keys && (p in rib || (p in done && HasCandidates(queue, p))) ::
      if p in done && HasCandidates(queue, p) && (p !in rib || Better2(Stored(p, Chosen(queue[p]), my), rib[p]))
      then Stored(p, Chosen(queue[p]), my)
      else rib[p]
  }

  /** Processing the received queue (used when an announcement is seeded). */
  function Process(s: PolicyState): (r: PolicyState)
    ensures r.kind == s.kind && r.receivedQueue == map[]
  {
    PolicyState(s.kind, ProcessedRibOn(s.localRib, s.receivedQueue, s.receivedQueue.Keys), map[])
  }

  /** Processing the received queue on behalf of AS `my`, prepending it to stored paths. */
  function ProcessFor(s: PolicyState, my: Asn): (r: PolicyState)
    ensures r.kind == s.kind && r.receivedQueue == map[]
  {
    PolicyState(s.kind, ProcessedRibForOn(s.localRib, s.receivedQueue, s.receivedQueue.Keys, my), map[])
  }

  /**
   * What processing promises for a prefix: it keeps every RIB prefix; a prefix
   * without candidates keeps its entry; otherwise the new entry is the old one
   * or the chosen candidate, it is at least as good as the old entry and as
   * every candidate, and it differs from the old entry only if strictly better.
   */
  lemma ProcessDecides(s: PolicyState, p: Prefix)
    ensures var r := Process(s);
      && s.localRib.Keys <= r.localRib.Keys
      && (p in r.localRib <==> p in s.localRib || HasCandidates(s.receivedQueue, p))
      && (!HasCandidates(s.receivedQueue, p) && p in s.localRib ==> r.localRib[p] == s.localRib[p])
      && (HasCandidates(s.receivedQueue, p) ==>
            && (r.localRib[p] == Chosen(s.receivedQueue[p]) || r.localRib[p] == s.localRib[p])
            && (forall a :: a in s.receivedQueue[p] ==> !Better(a, r.localRib[p]))
            && (p in s.localRib ==> !Better(s.localRib[p], r.localRib[p]))
            && (p in s.localRib && r.localRib[p] != s.localRib[p] ==> Better(r.localRib[p], s.localRib[p])))
  {
    var r := Process(s);
    if HasCandidates(s.receivedQueue, p) {
      var q := s.receivedQueue[p];
      var c := Chosen(q);
      ChosenIsBest(q);
      if p in s.localRib {
        var old_ := s.localRib[p];
        BetterIsStrictOrder(c, old_, c);
        forall a | a in q
          ensures !Better(a, r.localRib[p])
        {
          TieIsEqualKey(a, c, old_);
        }
        TieIsEqualKey(old_, c, old_);
      }
    }
  }

  /** Choosing among stored candidates is the same as choosing among the received ones. */
  lemma StoredPreservesPreference(p: Prefix, a: Announcement, b: Announcement, my: Asn)
    ensures Better(Stored(p, a, my), Stored(p, b, my)) <==> Better(a, b)
    ensures Better2(Stored(p, a, my), b) <==> Better(Stored(p, a, my), b)
  {
    Better2IsBetter(Stored(p, a, my), b);
  }

  /**
   * What processing on behalf of `my` promises for a prefix: as `ProcessDecides`,
   * where each candidate is compared with `my` prepended to its path, and the
   * new entry is the old one or the chosen candidate with `my` prepended.
   */
  lemma ProcessForDecides(s: PolicyState, my: Asn, p: Prefix)
    ensures var r := ProcessFor(s, my);
      && s.localRib.Keys <= r.localRib.Keys
      && (p in r.localRib <==> p in s.localRib || HasCandidates(s.receivedQueue, p))
      && (!HasCandidates(s.receivedQueue, p) && p in s.localRib ==> r.localRib[p] == s.localRib[p])
      && (HasCandidates(s.receivedQueue, p) ==>
            && (r.localRib[p] == Stored(p, Chosen(s.receivedQueue[p]), my) || r.localRib[p] == s.localRib[p])
            && (forall a :: a in s.receivedQueue[p] ==> !Better(Stored(p, a, my), r.localRib[p]))
            && (p in s.localRib ==> !Better(s.localRib[p], r.localRib[p]))
            && (p in s.localRib && r.localRib[p] != s.localRib[p] ==> Better(r.localRib[p], s.localRib[p])))
  {
    var r := ProcessFor(s, my);
    if HasCandidates(s.receivedQueue, p) {
      var q := s.receivedQueue[p];
      var c := Chosen(q);
      var st := Stored(p, c, my);
      ChosenIsBest(q);
      forall a | a in q
        ensures !Better(Stored(p, a, my), st)
      {
        StoredPreservesPreference(p, a, c, my);
      }
      if p in s.localRib {
        var old_ := s.localRib[p];
        StoredPreservesPreference(p, c, c, my);
        Better2IsBetter(st, old_);
        BetterIsStrictOrder(st, old_, st);
        forall a | a in q
          ensures !Better(Stored(p, a, my), r.localRib[p])
        {
          TieIsEqualKey(Stored(p, a, my), st, old_);
        }
        TieIsEqualKey(old_, st, old_);
      }
    }
  }

  /** Deciding one more prefix `p` updates only `p`, as the processing loop does. */
  lemma ProcessedRibOnStep(rib: map<Prefix, Announcement>, queue: map<Prefix, seq<Announcement>>, done: set<Prefix>, p: Prefix)
    requires p !in done
    ensures var cur := ProcessedRibOn(rib, queue, done);
      ProcessedRibOn(rib, queue, done + {p}) ==
        if HasCandidates(queue, p) && (p !in cur || Better(Chosen(queue[p]), cur[p])) then cur[p := Chosen(queue[p])] else cur
  {
    var cur := ProcessedRibOn(rib, queue, done);
    var next := ProcessedRibOn(rib, queue, done + {p});
    var expected := if HasCandidates(queue, p) && (p !in cur || Better(Chosen(queue[p]), cur[p])) then cur[p := Chosen(queue[p])] else cur;
    assert next.Keys == expected.Keys;
    forall k | k in next
      ensures next[k] == expected[k]
    {
    }
  }

  /** As `ProcessedRibOnStep`, for processing on behalf of `my`. */
  lemma ProcessedRibForOnStep(rib: map<Prefix, Announcement>, queue: map<Prefix, seq<Announcement>>, done: set<Prefix>, p: Prefix, my: Asn)
    requires p !in done
    ensures var cur := ProcessedRibForOn(rib, queue, done, my);
      ProcessedRibForOn(rib, queue, done + {p}, my) ==
        if HasCandidates(queue, p) && (p !in cur || Better2(Stored(p, Chosen(queue[p]), my), cur[p]))
        then cur[p := Stored(p, Chosen(queue[p]), my)] else cur
  {
    var cur := ProcessedRibForOn(rib, queue, done, my);
    var next := ProcessedRibForOn(rib, queue, done + {p}, my);
    var expected := if HasCandidates(queue, p) && (p !in cur || Better2(Stored(p, Chosen(queue[p]), my), cur[p]))
      then cur[p := Stored(p, Chosen(queue[p]), my)] else cur;
    assert next.Keys == expected.Keys;
    forall k | k in next
      ensures next[k] == expected[k]
    {
    }
  }

  // ------------------------------------------------------------ route origin validation

  /** An ROV policy holds nothing flagged ROV-invalid, neither in its RIB nor in its queue. */
  ghost predicate RovClean(s: PolicyState)
  {
    s.kind == ROV ==>
      && (forall p :: p in s.localRib ==> !s.localRib[p].rovInvalid)
      && (forall p, a :: p in s.receivedQueue && a in s.receivedQueue[p] ==> !a.rovInvalid)
  }

  /** Every route of prefix `p`, stored or queued, has ROV flag `b`. */
  ghost predicate FlaggedAs(s: PolicyState, p: Prefix, b: bool)
  {
    && (p in s.localRib ==> s.localRib[p].rovInvalid == b)
    && (p in s.receivedQueue ==> forall a :: a in s.receivedQueue[p] ==> a.rovInvalid == b)
  }

  /** A new policy is clean, and receiving keeps it so: ROV drops the invalid announcement. */
  lemma ReceiveRovClean(s: PolicyState, a: Announcement)
    requires RovClean(s)
    ensures RovClean(NewPolicy(s.kind)) && RovClean(Receive(s, a))
  {
    var r := Receive(s, a);
    if s.kind == ROV && !a.rovInvalid {
      forall p, x | p in r.receivedQueue && x in r.receivedQueue[p]
        ensures !x.rovInvalid
      {
        if p != a.prefix {
          assert x in s.receivedQueue[p];
        } else if x != a {
          assert x in Queued(s, p);
        }
      }
    }
  }

  /** Every entry the processing decides is the old entry or the chosen candidate. */
  lemma ProcessedFrom(s: PolicyState, p: Prefix)
    requires p in Process(s).localRib
    ensures || (p in s.localRib && Process(s).localRib[p] == s.localRib[p])
            || (HasCandidates(s.receivedQueue, p) && Process(s).localRib[p] == Chosen(s.receivedQueue[p]))
  {
  }

  /** As `ProcessedFrom`, for processing on behalf of `my`: the chosen candidate is stored with `my` prepended. */
  lemma ProcessedForFrom(s: PolicyState, my: Asn, p: Prefix)
    requires p in ProcessFor(s, my).localRib
    ensures || (p in s.localRib && ProcessFor(s, my).localRib[p] == s.localRib[p])
            || (HasCandidates(s.receivedQueue, p) && ProcessFor(s, my).localRib[p] == Stored(p, Chosen(s.receivedQueue[p]), my))
  {
  }

  /** Processing keeps a policy clean: it stores only queued candidates and empties the queue. */
  lemma ProcessRovClean(s: PolicyState, my: Asn)
    requires RovClean(s)
    ensures RovClean(Process(s)) && RovClean(ProcessFor(s, my))
  {
    if s.kind == ROV {
      forall p | p in Process(s).localRib
        ensures !Process(s).localRib[p].rovInvalid
      {
        ProcessedFrom(s, p);
      }
      forall p | p in ProcessFor(s, my).localRib
        ensures !ProcessFor(s, my).localRib[p].rovInvalid
      {
        ProcessedForFrom(s, my, p);
      }
    }
  }

  /** Receiving keeps the flag of every route of `p` when what arrives for `p` has it too. */
  lemma ReceiveFlaggedAs(s: PolicyState, a: Announcement, p: Prefix, b: bool)
    requires FlaggedAs(s, p, b)
    requires a.prefix == p ==> a.rovInvalid == b
    ensures FlaggedAs(Receive(s, a), p, b)
  {
    var r := Receive(s, a);
    if p in r.receivedQueue {
      forall x | x in r.receivedQueue[p]
        ensures x.rovInvalid == b
      {
        if x != a {
          assert x in Queued(s, p);
        }
      }
    }
  }

  /** Processing keeps the flag of every route of `p`: a stored copy keeps the candidate's flag. */
  lemma ProcessFlaggedAs(s: PolicyState, my: Asn, p: Prefix, b: bool)
    requires FlaggedAs(s, p, b)
    ensures FlaggedAs(Process(s), p, b) && FlaggedAs(ProcessFor(s, my), p, b)
  {
    if p in Process(s).localRib {
      ProcessedFrom(s, p);
    }
    if p in ProcessFor(s, my).localRib {
      ProcessedForFrom(s, my, p);
    }
  }

  /** A policy object; `State()` is its value. */
  class Policy {
    const kind: PolicyKind
    var localRib: map<Prefix, Announcement>
    var receivedQueue: map<Prefix, seq<Announcement>>

    function State(): PolicyState
      reads this
    {
      PolicyState(kind, localRib, receivedQueue)
    }

    /** A new policy has an empty RIB and an empty received queue. */
    constructor (kind: PolicyKind)
      ensures State() == NewPolicy(kind)
    {
      this.kind := kind;
      localRib := map[];
      receivedQueue := map[];
    }

    /** BGP appends to the prefix's queue; ROV first drops an invalid announcement. */
    method ReceiveAnnouncement(ann: Announcement)
      modifies this
      ensures State() == Receive(old(State()), ann)
    {
      if kind == ROV && ann.rovInvalid {
        return;
      }
      var q := if ann.prefix in receivedQueue then receivedQueue[ann.prefix] else [];
      receivedQueue := receivedQueue[ann.prefix := q + [ann]];
    }

    /** Decide every queued prefix, then clear the queue. */
    method ProcessAnnouncements()
      modifies this
      ensures State() == Process(old(State()))
    {
      ghost var rib0 := localRib;
      var pending := receivedQueue.Keys;
      while pending != {}
        invariant pending <= receivedQueue.Keys
        invariant receivedQueue == old(receivedQueue)
        invariant localRib == ProcessedRibOn(rib0, receivedQueue, receivedQueue.Keys - pending)
        decreases pending
      {
        var prefix :| prefix in pending;
        ghost var done := receivedQueue.Keys - pending;
        var announcements := receivedQueue[prefix];
        if announcements != [] {
          var bestIdx := SelectBest(announcements);
          var chosen := announcements[bestIdx];
          if prefix !in localRib {
            localRib := localRib[prefix := chosen];
          } else if Better(chosen, localRib[prefix]) {
            localRib := localRib[prefix := chosen];
          }
        }
        pending := pending - {prefix};
        assert receivedQueue.Keys - pending == done + {prefix};
        ProcessedRibOnStep(rib0, receivedQueue, done, prefix);
      }
      receivedQueue := map[];
    }

    /** Decide every queued prefix on behalf of `myAsn`, prepending it to the stored path, then clear the queue. */
    method ProcessAnnouncementsFor(myAsn: Asn)
      modifies this
      ensures State() == ProcessFor(old(State()), myAsn)
    {
      ghost var rib0 := localRib;
      var pending := receivedQueue.Keys;
      while pending != {}
        invariant pending <= receivedQueue.Keys
        invariant receivedQueue == old(receivedQueue)
        invariant localRib == ProcessedRibForOn(rib0, receivedQueue, receivedQueue.Keys - pending, myAsn)
        decreases pending
      {
        var prefix :| prefix in pending;
        ghost var done := receivedQueue.Keys - pending;
        var announcements := receivedQueue[prefix];
        if announcements != [] {
          var bestIdx := SelectBest(announcements);
          var chosen := announcements[bestIdx];
          var stored := ReceivedAnnouncement(prefix, chosen.nextHopAsn, chosen.receivedFrom, [myAsn] + chosen.asPath, chosen.rovInvalid);
          if prefix !in localRib {
            localRib := localRib[prefix := stored];
          } else if Better2(stored, localRib[prefix]) {
            localRib := localRib[prefix := stored];
          }
        }
        pending := pending - {prefix};
        assert receivedQueue.Keys - pending == done + {prefix};
        ProcessedRibForOnStep(rib0, receivedQueue, done, prefix, myAsn);
      }
      receivedQueue := map[];
    }

    /** The local RIB, read without changing anything. */
    method GetLocalRib() returns (rib: map<Prefix, Announcement>)
      ensures rib == State().localRib
    {
      rib := localRib;
    }
  }
}
