/**
 * Route records exchanged between autonomous systems: an announcement of a
 * prefix together with the AS path it travelled, the neighbour it was learned
 * from and the relationship to that neighbour.
 */
module Announcements {

  /** An AS number, held as a 32-bit unsigned integer. */
  type Asn = x: int | 0 <= x < 0x1_0000_0000

  /** An IP prefix such as "8.8.8.0/24", kept as opaque text. */
  type Prefix = string

  /** The relationship over which an announcement was received. */
  datatype Relationship =
    | Origin    // the announcement started here
    | Provider  // received from a provider
    | Peer      // received from a peer
    | Customer  // received from a customer

  datatype Announcement = Announcement(
    prefix: Prefix,
    asPath: seq<Asn>,
    nextHopAsn: Asn,
    receivedFrom: Relationship,
    rovInvalid: bool)

  /** The constructor for an announcement that originates at `origin`. */
  function OriginAnnouncement(p: Prefix, origin: Asn): (a: Announcement)
    ensures a.prefix == p
    ensures a.asPath == [origin] && a.nextHopAsn == origin
    ensures a.receivedFrom == Origin && !a.rovInvalid
  {
    Announcement(p, [origin], origin, Origin, false)
  }

  /**
   * The constructor for an announcement received from neighbour `nh`; the
   * four-argument form of the source is this one with `rovInvalid` false.
   */
  function ReceivedAnnouncement(p: Prefix, nh: Asn, rel: Relationship, path: seq<Asn>, rovInvalid: bool): (a: Announcement)
    ensures a.prefix == p && a.asPath == path
    ensures a.nextHopAsn == nh && a.receivedFrom == rel && a.rovInvalid == rovInvalid
  {
    Announcement(p, path, nh, rel, rovInvalid)
  }
}
