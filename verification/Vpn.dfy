/**
 The WireGuard server's peer list: who may claim which network, and who gets which tunnel
 address. `Router` is the part of the configuration these operations read and write.
 */
module Vpn {
  import opened Core
  import opened Cidr
  import opened TunnelPool

  // ------------------------------------------------------- addresses

  /** An AllowedIPs or remote-subnet entry as written; host bits may still be set. */
  datatype Entry = Net(addr: Addr, len: nat) | Junk(text: string)

  predicate Parses(e: Entry) {
    e.Net? && ValidAddr(e.addr) && e.len <= e.addr.width
  }

  function Network(e: Entry): Prefix
    requires Parses(e)
  {
    NetworkOf(e.addr, e.len)
  }

  /** An interface or server address as configured. */
  datatype Address = Masked(addr: Addr, len: nat) | Bare(addr: Addr) | Unreadable(text: string)

  /** addressToSubnet: an IPv4 address without a mask is taken as a /24, anything unreadable is kept. */
  function AddressToSubnet(a: Address): Entry {
    match a
    case Masked(addr, len) =>
      if ValidAddr(addr) && len <= addr.width then Net(BaseOf(NetworkOf(addr, len)), len) else Junk("")
    case Bare(addr) =>
      if ValidAddr(addr) && addr.width == 32 then Net(BaseOf(NetworkOf(addr, 24)), 24) else Junk("")
    case Unreadable(text) => Junk(text)
  }

  // ------------------------------------------------------- the configuration

  datatype Peer = Peer(
    name: string,
    publicKey: string,
    privateKey: string,
    psk: string,
    allowed: seq<Entry>,
    remote: seq<Entry>,
    siteToSite: bool,
    pending: bool,
    expires: Option<int>
  )

  datatype Router = Router(
    lans: seq<Address>,
    vlans: seq<Address>,
    openVpn: seq<Entry>,
    server: Option<Address>,
    publicKey: string,
    peers: seq<Peer>
  )

  datatype Outcome =
    | Done
    | NotPrivate | Conflict | BadEndpoint | KeyError | NameInUse | NoPool | NoFreeAddress
    | BadName | NoServerKey | NeedsSubnets | Malformed | Expired | SubnetMismatch
    | NotPending | NotFound | BadSignature | SaveFailed

  function Subnets(addresses: seq<Address>): (r: seq<Entry>)
    ensures |r| == |addresses|
    ensures forall i :: 0 <= i < |r| ==> r[i] == AddressToSubnet(addresses[i])
  {
    seq(|addresses|, i requires 0 <= i < |addresses| => AddressToSubnet(addresses[i]))
  }

  function ServerSubnet(r: Router): seq<Entry> {
    if r.server.Some? then [AddressToSubnet(r.server.value)] else []
  }

  /** Networks of this router itself: LANs, the tunnel pool, VLANs and the OpenVPN pool. */
  function Locals(r: Router): seq<Entry> {
    Subnets(r.lans) + ServerSubnet(r) + Subnets(r.vlans) + r.openVpn
  }

  function PeerSubnets(peers: seq<Peer>): seq<Entry> {
    if peers == [] then []
    else PeerSubnets(peers[..|peers| - 1]) + peers[|peers| - 1].allowed + peers[|peers| - 1].remote
  }

  /** claimedSubnets: everything a new peer must stay clear of. */
  function Claimed(r: Router): seq<Entry> {
    Locals(r) + PeerSubnets(r.peers)
  }

  // ------------------------------------------------------- checks

  predicate PrivateLan(e: Entry) {
    Parses(e) && IsPrivate(BaseOf(Network(e))) && IsPrivate(LastOf(Network(e)))
  }

  /** The overlap test of subnetsConflict; entries that do not parse never clash. */
  predicate Clash(a: Entry, b: Entry) {
    && Parses(a) && Parses(b)
    && (Contains(Network(a), BaseOf(Network(b))) || Contains(Network(b), BaseOf(Network(a))))
  }

  predicate AnyClash(remote: seq<Entry>, claimed: seq<Entry>) {
    exists i, j :: 0 <= i < |remote| && 0 <= j < |claimed| && Clash(remote[i], claimed[j])
  }

  function CheckRemote(r: Router, remote: seq<Entry>): Outcome {
    if exists i :: 0 <= i < |remote| && !PrivateLan(remote[i]) then NotPrivate
    else if AnyClash(remote, Claimed(r)) then Conflict
    else Done
  }

  predicate NameTaken(r: Router, name: string) {
    exists i :: 0 <= i < |r.peers| && r.peers[i].name == name
  }

  /** Two entries share an address. */
  ghost predicate Share(a: Entry, b: Entry) {
    Parses(a) && Parses(b) && Overlaps(Network(a), Network(b))
  }

  lemma ClashIsShare(a: Entry, b: Entry)
    ensures Clash(a, b) <==> Share(a, b)
    ensures Share(a, b) <==> Share(b, a)
  {
    if Parses(a) && Parses(b) {
      BaseContainmentIsOverlap(Network(a), Network(b));
      BaseContainmentIsOverlap(Network(b), Network(a));
    }
  }

  // ------------------------------------------------------- adding a peer

  /** usedTunnelIPs, for addresses of the pool's width: the first AllowedIPs entry of every peer. */
  function UsedTunnelIPs(peers: seq<Peer>, width: nat): (used: set<nat>)
    ensures forall i :: 0 <= i < |peers| && HasFirst(peers[i], width) ==> peers[i].allowed[0].addr.value in used
    ensures forall u :: u in used ==> exists i :: 0 <= i < |peers| && HasFirst(peers[i], width) && peers[i].allowed[0].addr.value == u
  {
    set i | 0 <= i < |peers| && HasFirst(peers[i], width) :: peers[i].allowed[0].addr.value
  }

  predicate HasFirst(p: Peer, width: nat) {
    |p.allowed| > 0 && p.allowed[0].Net? && p.allowed[0].addr.width == width
  }

  predicate HasPool(r: Router) {
    && r.server.Some? && r.server.value.Masked?
    && ValidAddr(r.server.value.addr) && r.server.value.len <= r.server.value.addr.width
  }

  function Pool(r: Router): (p: Prefix)
    requires HasPool(r)
    ensures ValidPrefix(p)
  {
    NetworkOf(r.server.value.addr, r.server.value.len)
  }

  /** The address nextTunnelIP hands out. */
  function NextTunnel(r: Router): Option<nat>
    requires HasPool(r)
  {
    Handed(Pool(r), UsedTunnelIPs(r.peers, Pool(r).width) + {r.server.value.addr.value})
  }

  /** The walk comes to an end: only a pool of every address, all of them taken, has it go on for ever. */
  predicate Returns(r: Router)
    requires HasPool(r)
  {
    Pool(r).len == 0 ==> NextTunnel(r).Some?
  }

  /** The entry text is the address followed by "/32", whatever the width. */
  function TunnelEntry(r: Router, v: nat): Entry
    requires HasPool(r)
  {
    Net(Addr(Pool(r).width, v), 32)
  }

  datatype AddRequest = AddRequest(
    name: string, siteToSite: bool, remote: seq<Entry>, endpointOk: bool, keysOk: bool,
    publicKey: string, privateKey: string, psk: string)

  /** What AddPeer does before it takes the lock. */
  function AddCheck(r: Router, q: AddRequest): Outcome {
    var checked := CheckRemote(r, q.remote);
    if checked != Done then checked
    else if !q.endpointOk then BadEndpoint
    else if !q.keysOk then KeyError
    else Done
  }

  function NewPeer(r: Router, q: AddRequest, v: nat): Peer
    requires HasPool(r)
  {
    Peer(q.name, q.publicKey, q.privateKey, q.psk,
         [TunnelEntry(r, v)] + (if q.siteToSite then q.remote else []),
         q.remote, q.siteToSite, false, None)
  }

  /** What AddPeer does under the lock: allocate and append. */
  function AddCommit(r: Router, q: AddRequest): (Router, Outcome) {
    if NameTaken(r, q.name) then (r, NameInUse)
    else if !HasPool(r) then (r, NoPool)
    else if NextTunnel(r).None? then (r, NoFreeAddress)
    else (r.(peers := r.peers + [NewPeer(r, q, NextTunnel(r).value)]), Done)
  }

  function AddPeer(r: Router, q: AddRequest): (Router, Outcome) {
    if AddCheck(r, q) != Done then (r, AddCheck(r, q)) else AddCommit(r, q)
  }

  // ------------------------------------------------------- site-to-site tokens

  const INVITE_VERSION := 2
  const INVITE_TTL := 3_600_000_000_000

  /** `fieldsOk` is the verdict on the name, the two keys and the endpoint text. */
  datatype Invite = Invite(
    version: int, name: string, publicKey: string, psk: string,
    remote: seq<Entry>, expected: seq<Entry>, expires: Option<int>, fieldsOk: bool)

  /** An ack with the key its MAC was made with. */
  datatype Ack = Ack(version: int, name: string, publicKey: string, macKey: string, fieldsOk: bool)

  datatype InviteRequest = InviteRequest(
    name: string, nameOk: bool, endpointOk: bool, expected: seq<Entry>, keyOk: bool, psk: string, fieldsOk: bool)

  function CheckInviteRequest(r: Router, q: InviteRequest): Outcome {
    if !q.nameOk then BadName
    else if !q.endpointOk then BadEndpoint
    else if r.publicKey == "" then NoServerKey
    else if |q.expected| == 0 || |r.lans| == 0 then NeedsSubnets
    else CheckRemote(r, q.expected)
  }

  function AppendPeer(r: Router, p: Peer): (Router, Outcome) {
    if NameTaken(r, p.name) then (r, NameInUse) else (r.(peers := r.peers + [p]), Done)
  }

  function PendingPeer(q: InviteRequest, now: int): Peer {
    Peer(q.name, "", "", q.psk, q.expected, q.expected, true, true, Some(now + INVITE_TTL))
  }

  function InviteToken(r: Router, q: InviteRequest, now: int): Invite {
    Invite(INVITE_VERSION, q.name, r.publicKey, q.psk, Subnets(r.lans), q.expected, Some(now + INVITE_TTL), q.fieldsOk)
  }

  function CreateInvite(r: Router, q: InviteRequest, now: int): (Router, Outcome) {
    if CheckInviteRequest(r, q) != Done then (r, CheckInviteRequest(r, q))
    else if !q.keyOk then (r, KeyError)
    else AppendPeer(r, PendingPeer(q, now))
  }

  predicate PastDue(expires: Option<int>, now: int) {
    expires.Some? && now > expires.value
  }

  function CheckInviteToken(inv: Invite, now: int): Outcome {
    if inv.version != INVITE_VERSION then Malformed
    else if PastDue(inv.expires, now) then Expired
    else if !inv.fieldsOk || |inv.remote| == 0 || |inv.expected| == 0 then Malformed
    else if exists i :: 0 <= i < |inv.remote| && !Parses(inv.remote[i]) then Malformed
    else if exists i :: 0 <= i < |inv.expected| && !Parses(inv.expected[i]) then Malformed
    else Done
  }

  /** The networks a list names, order, repetition and host bits aside. */
  function Networks(list: seq<Entry>): set<Prefix> {
    set i | 0 <= i < |list| && Parses(list[i]) :: Network(list[i])
  }

  predicate Less(p: Prefix, q: Prefix) {
    || p.width < q.width
    || (p.width == q.width && p.base < q.base)
    || (p.width == q.width && p.base == q.base && p.len < q.len)
  }

  /** Into a sorted list, once. */
  function Insert(p: Prefix, sorted: seq<Prefix>): seq<Prefix> {
    if sorted == [] || Less(p, sorted[0]) then [p] + sorted
    else if p == sorted[0] then sorted
    else [sorted[0]] + Insert(p, sorted[1..])
  }

  /** The parsed networks, sorted and without repeats. */
  function Canon(list: seq<Entry>): seq<Prefix> {
    if list == [] then []
    else
      var rest := Canon(list[1..]);
      if Parses(list[0]) then Insert(Network(list[0]), rest) else rest
  }

  predicate SameSubnets(a: seq<Entry>, b: seq<Entry>) {
    Canon(a) == Canon(b)
  }

  ghost predicate Ascending(s: seq<Prefix>) {
    forall i, j :: 0 <= i < j < |s| ==> Less(s[i], s[j])
  }

  lemma {:induction false} InsertSorts(p: Prefix, s: seq<Prefix>)
    requires Ascending(s)
    ensures Ascending(Insert(p, s))
    ensures forall q :: q in Insert(p, s) <==> q == p || q in s
  {
    if s != [] && !Less(p, s[0]) && p != s[0] {
      InsertSorts(p, s[1..]);
      var t := Insert(p, s[1..]);
      forall j | 0 <= j < |t| ensures Less(s[0], t[j]) {
        if t[j] != p {
          assert t[j] in s[1..];
        }
      }
    }
  }

  lemma {:induction false} CanonSorts(list: seq<Entry>)
    ensures Ascending(Canon(list))
    ensures forall q :: q in Canon(list) <==> q in Networks(list)
  {
    if list != [] {
      CanonSorts(list[1..]);
      if Parses(list[0]) {
        InsertSorts(Network(list[0]), Canon(list[1..]));
      }
      assert forall i :: 0 < i < |list| ==> list[i] == list[1..][i - 1];
      assert forall q :: q in Networks(list) <==> (Parses(list[0]) && q == Network(list[0])) || q in Networks(list[1..]);
    }
  }

  lemma {:induction false} AscendingIsUnique(a: seq<Prefix>, b: seq<Prefix>)
    requires Ascending(a) && Ascending(b)
    requires forall q :: q in a <==> q in b
    ensures a == b
  {
    assert a != [] ==> a[0] in b;
    assert b != [] ==> b[0] in a;
    if a != [] && b != [] {
      assert a[0] == b[0];
      forall q ensures q in a[1..] <==> q in b[1..] {
        assert q in a <==> q == a[0] || q in a[1..];
        assert q in b <==> q == b[0] || q in b[1..];
      }
      AscendingIsUnique(a[1..], b[1..]);
      assert a == [a[0]] + a[1..] && b == [b[0]] + b[1..];
    }
  }

  /** Sorting and dropping repeats decides whether two lists name the same networks. */
  lemma SameSubnetsIsSetEquality(a: seq<Entry>, b: seq<Entry>)
    ensures SameSubnets(a, b) <==> Networks(a) == Networks(b)
  {
    CanonSorts(a);
    CanonSorts(b);
    if Networks(a) == Networks(b) {
      AscendingIsUnique(Canon(a), Canon(b));
    } else if Canon(a) == Canon(b) {
      assert forall q :: q in Networks(a) <==> q in Networks(b);
    }
  }

  function CheckConsume(r: Router, inv: Invite, now: int): Outcome {
    if CheckInviteToken(inv, now) != Done then CheckInviteToken(inv, now)
    else if r.publicKey == "" then NoServerKey
    else if !SameSubnets(inv.expected, Subnets(r.lans)) then SubnetMismatch
    else CheckRemote(r, inv.remote)
  }

  function JoinedPeer(inv: Invite): Peer {
    Peer(inv.name, inv.publicKey, "", inv.psk, inv.remote, inv.remote, true, false, None)
  }

  function ConsumeInvite(r: Router, inv: Invite, now: int): (Router, Outcome) {
    if CheckConsume(r, inv, now) != Done then (r, CheckConsume(r, inv, now))
    else AppendPeer(r, JoinedPeer(inv))
  }

  function AckToken(r: Router, inv: Invite): Ack {
    Ack(INVITE_VERSION, inv.name, r.publicKey, inv.psk, true)
  }

  /** The first peer of that name, or the length of the list. */
  function IndexOf(peers: seq<Peer>, name: string): (i: nat)
    ensures i <= |peers|
    ensures i < |peers| ==> peers[i].name == name
    ensures forall k :: 0 <= k < i ==> peers[k].name != name
  {
    if peers == [] then 0
    else if peers[0].name == name then 0
    else 1 + IndexOf(peers[1..], name)
  }

  function PendingCheck(r: Router, name: string, now: int): Outcome {
    var i := IndexOf(r.peers, name);
    if i == |r.peers| then NotFound
    else if !r.peers[i].pending then NotPending
    else if PastDue(r.peers[i].expires, now) then Expired
    else Done
  }

  function Finalized(p: Peer, publicKey: string): Peer {
    p.(publicKey := publicKey, pending := false, expires := None)
  }

  function FinalizeInvite(r: Router, name: string, ack: Ack, now: int): (Router, Outcome) {
    if ack.version != INVITE_VERSION || !ack.fieldsOk || ack.name != name then (r, Malformed)
    else if PendingCheck(r, name, now) != Done then (r, PendingCheck(r, name, now))
    else
      var i := IndexOf(r.peers, name);
      if r.peers[i].psk != ack.macKey then (r, BadSignature)
      else (r.(peers := r.peers[i := Finalized(r.peers[i], ack.publicKey)]), Done)
  }

  // ------------------------------------------------------- removing peers

  function RemoveAt(peers: seq<Peer>, i: nat): seq<Peer>
    requires i < |peers|
  {
    peers[..i] + peers[i + 1..]
  }

  function CancelInvite(r: Router, name: string): (Router, Outcome) {
    var i := IndexOf(r.peers, name);
    if i == |r.peers| then (r, Done)
    else if !r.peers[i].pending then (r, NotPending)
    else (r.(peers := RemoveAt(r.peers, i)), Done)
  }

  function RemovePeer(r: Router, name: string): (Router, Outcome) {
    var i := IndexOf(r.peers, name);
    if i == |r.peers| then (r, NotFound) else (r.(peers := RemoveAt(r.peers, i)), Done)
  }

  predicate Stale(p: Peer, now: int) {
    p.pending && PastDue(p.expires, now)
  }

  /** GCExpiredInvites keeps, in order, the peers that are not stale. */
  function Kept(peers: seq<Peer>, now: int): seq<Peer> {
    if peers == [] then []
    else
      var rest := Kept(peers[..|peers| - 1], now);
      if Stale(peers[|peers| - 1], now) then rest else rest + [peers[|peers| - 1]]
  }

  function GC(r: Router, now: int): Router {
    r.(peers := Kept(r.peers, now))
  }

  /** The invite has run out; an established peer never does. */
  predicate RunOut(p: Peer, now: int) {
    p.pending && p.expires.Some? && now > p.expires.value
  }

  lemma {:induction false} KeptOfSum(a: seq<Peer>, b: seq<Peer>, now: int)
    ensures Kept(a + b, now) == Kept(a, now) + Kept(b, now)
  {
    if b == [] {
      assert a + b == a;
    } else {
      var front := b[..|b| - 1];
      KeptOfSum(a, front, now);
      assert (a + b)[..|a + b| - 1] == a + front;
    }
  }

  /**
   A sweep keeps every peer that has not run out as often as it was there and nothing else. With
   `KeptOfSum` the ones that are kept stay in order.
   */
  lemma {:induction false} SweepKeepsExactlyTheLive(peers: seq<Peer>, now: int)
    ensures forall p :: p in Kept(peers, now) <==> p in peers && !RunOut(p, now)
    ensures forall p :: multiset(Kept(peers, now))[p] == if RunOut(p, now) then 0 else multiset(peers)[p]
  {
    if peers != [] {
      var front, last := peers[..|peers| - 1], peers[|peers| - 1];
      SweepKeepsExactlyTheLive(front, now);
      assert peers == front + [last];
      assert multiset(peers) == multiset(front) + multiset{last};
      forall p ensures multiset(Kept(peers, now))[p] == if RunOut(p, now) then 0 else multiset(peers)[p] {
      }
      forall p ensures p in Kept(peers, now) <==> p in peers && !RunOut(p, now) {
        assert p in Kept(peers, now) <==> multiset(Kept(peers, now))[p] > 0;
        assert p in peers <==> multiset(peers)[p] > 0;
      }
    }
  }

  lemma SweptWasThere(peers: seq<Peer>, now: int, p: Peer)
    requires p in Kept(peers, now)
    ensures p in peers
  {
    SweepKeepsExactlyTheLive(peers, now);
  }

  /** The places of the invites that have run out. */
  function RunOuts(peers: seq<Peer>, now: int): set<nat> {
    set i: nat | i < |peers| && RunOut(peers[i], now)
  }

  /** The number reported is the number of invites that have run out. */
  lemma {:induction false} ReapedAreTheRunOuts(peers: seq<Peer>, now: int)
    ensures |peers| - |Kept(peers, now)| == |RunOuts(peers, now)|
  {
    if peers != [] {
      var n := |peers| - 1;
      var front := peers[..n];
      ReapedAreTheRunOuts(front, now);
      assert RunOuts(peers, now) == RunOuts(front, now) + if RunOut(peers[n], now) then {n as nat} else {};
    }
  }

  lemma BaseFits(p: Prefix)
    requires ValidPrefix(p)
    ensures 8 * (p.width / 8) == p.width && p.base < Pow256(p.width / 8)
  {
    BytesAndBits(p.width / 8);
  }

  /** The list is changed before it is saved: a failed save reports an error and leaves it changed. */
  function Unsaved(done: (Router, Outcome), saved: bool): (Router, Outcome) {
    if done.1 == Done && !saved then (done.0, SaveFailed) else done
  }

  // ------------------------------------------------------- the service

  class VPNService {
    var lans: seq<Address>
    var vlans: seq<Address>
    var openVpn: seq<Entry>
    var server: Option<Address>
    var publicKey: string
    var peers: seq<Peer>

    constructor (r: Router)
      ensures Abs() == r
    {
      lans, vlans, openVpn, server := r.lans, r.vlans, r.openVpn, r.server;
      publicKey, peers := r.publicKey, r.peers;
    }

    ghost function Abs(): Router
      reads this
    {
      Router(lans, vlans, openVpn, server, publicKey, peers)
    }

    method PeerNameTaken(name: string) returns (taken: bool)
      ensures taken == NameTaken(Abs(), name)
    {
      for i := 0 to |peers|
        invariant forall k :: 0 <= k < i ==> peers[k].name != name
      {
        if peers[i].name == name {
          return true;
        }
      }
      taken := false;
    }

    method ClaimedSubnets() returns (out: seq<Entry>)
      ensures out == Claimed(Abs())
    {
      out := Subnets(lans);
      if server.Some? {
        out := out + [AddressToSubnet(server.value)];
      }
      out := out + Subnets(vlans) + openVpn;
      var more := ClaimedByPeers();
      out := out + more;
    }

    method ClaimedByPeers() returns (out: seq<Entry>)
      ensures out == PeerSubnets(peers)
    {
      out := [];
      for i := 0 to |peers|
        invariant out == PeerSubnets(peers[..i])
      {
        assert peers[..i + 1][..i] == peers[..i];
        out := out + peers[i].allowed;
        out := out + peers[i].remote;
      }
      assert peers[..|peers|] == peers;
    }

    method SubnetsConflict(remote: seq<Entry>) returns (bad: bool)
      ensures bad == AnyClash(remote, Claimed(Abs()))
    {
      var locals := ClaimedSubnets();
      for i := 0 to |remote|
        invariant forall k, j :: 0 <= k < i && 0 <= j < |locals| ==> !Clash(remote[k], locals[j])
      {
        for j := 0 to |locals|
          invariant forall m :: 0 <= m < j ==> !Clash(remote[i], locals[m])
        {
          if Clash(remote[i], locals[j]) {
            return true;
          }
        }
      }
      bad := false;
    }

    method CheckRemoteSubnets(remote: seq<Entry>) returns (o: Outcome)
      ensures o == CheckRemote(Abs(), remote)
    {
      for i := 0 to |remote|
        invariant forall k :: 0 <= k < i ==> PrivateLan(remote[k])
      {
        if !PrivateLan(remote[i]) {
          return NotPrivate;
        }
      }
      var bad := SubnetsConflict(remote);
      o := if bad then Conflict else Done;
    }

    method CollectUsed(width: nat) returns (used: set<nat>)
      ensures used == UsedTunnelIPs(peers, width)
    {
      used := {};
      for i := 0 to |peers|
        invariant forall k :: 0 <= k < i && HasFirst(peers[k], width) ==> peers[k].allowed[0].addr.value in used
        invariant forall u :: u in used ==> exists k :: 0 <= k < i && HasFirst(peers[k], width) && peers[k].allowed[0].addr.value == u
      {
        if HasFirst(peers[i], width) {
          used := used + {peers[i].allowed[0].addr.value};
        }
      }
    }

    /** The base address of the pool as the bytes the search works on. */
    method PoolBytes(pool: Prefix) returns (poolIP: array<Byte>)
      requires ValidPrefix(pool)
      ensures fresh(poolIP) && 8 * poolIP.Length == pool.width && Value(poolIP[..]) == pool.base
    {
      BaseFits(pool);
      var bytes := Bytes(pool.base, pool.width / 8);
      poolIP := new Byte[|bytes|];
      forall k | 0 <= k < |bytes| {
        poolIP[k] := bytes[k];
      }
      assert poolIP[..] == bytes;
    }

    /** nextTunnelIP on the configured server address. */
    method Allocate() returns (v: Option<nat>)
      requires HasPool(Abs()) && Returns(Abs())
      ensures v == NextTunnel(Abs())
    {
      var pool := NetworkOf(server.value.addr, server.value.len);
      var poolIP := PoolBytes(pool);
      var used := CollectUsed(pool.width);
      v := NextTunnelIP(pool, poolIP, used + {server.value.addr.value});
    }

    /** AddPeer; `saved` says whether router.yaml was written after the peer was appended. */
    method Add(q: AddRequest, saved: bool) returns (o: Outcome)
      requires HasPool(Abs()) ==> Returns(Abs())
      modifies this`peers
      ensures (o == Done ==> saved) && (o == SaveFailed ==> !saved)
      ensures (Abs(), o) == Unsaved(AddPeer(old(Abs()), q), saved)
    {
      o := CheckRemoteSubnets(q.remote);
      if o != Done { return; }
      if !q.endpointOk { return BadEndpoint; }
      if !q.keysOk { return KeyError; }
      o := Commit(q, saved);
    }

    /** The part of AddPeer under the lock. */
    method Commit(q: AddRequest, saved: bool) returns (o: Outcome)
      requires HasPool(Abs()) ==> Returns(Abs())
      modifies this`peers
      ensures (o == Done ==> saved) && (o == SaveFailed ==> !saved)
      ensures (Abs(), o) == Unsaved(AddCommit(old(Abs()), q), saved)
    {
      var taken := PeerNameTaken(q.name);
      if taken { return NameInUse; }
      var configured := PoolConfigured();
      if !configured { return NoPool; }
      var v := Allocate();
      if v.None? { return NoFreeAddress; }
      o := AppendNew(q, v.value, saved);
    }

    method AppendNew(q: AddRequest, v: nat, saved: bool) returns (o: Outcome)
      requires HasPool(Abs())
      modifies this`peers
      ensures Abs() == old(Abs()).(peers := old(peers) + [NewPeer(old(Abs()), q, v)])
      ensures o == if saved then Done else SaveFailed
    {
      var peer := MakePeer(q, v);
      peers := peers + [peer];
      o := if saved then Done else SaveFailed;
    }

    /** The server address reads as a network. */
    method PoolConfigured() returns (ok: bool)
      ensures ok == HasPool(Abs())
    {
      if server.None? || !server.value.Masked? {
        return false;
      }
      ok := ValidAddr(server.value.addr) && server.value.len <= server.value.addr.width;
    }

    method MakePeer(q: AddRequest, v: nat) returns (peer: Peer)
      requires HasPool(Abs())
      ensures peer == NewPeer(Abs(), q, v)
    {
      var allowed := [Net(Addr(server.value.addr.width, v), 32)];
      if q.siteToSite && |q.remote| > 0 {
        allowed := allowed + q.remote;
      }
      peer := Peer(q.name, q.publicKey, q.privateKey, q.psk, allowed, q.remote, q.siteToSite, false, None);
    }

    method Append(p: Peer, saved: bool) returns (o: Outcome)
      modifies this`peers
      ensures (o == Done ==> saved) && (o == SaveFailed ==> !saved)
      ensures (Abs(), o) == Unsaved(AppendPeer(old(Abs()), p), saved)
    {
      var taken := PeerNameTaken(p.name);
      if taken { return NameInUse; }
      peers := peers + [p];
      o := if saved then Done else SaveFailed;
    }

    method CreateS2SInvite(q: InviteRequest, now: int, saved: bool) returns (token: Option<Invite>, o: Outcome)
      modifies this`peers
      ensures (o == Done ==> saved) && (o == SaveFailed ==> !saved)
      ensures (Abs(), o) == Unsaved(CreateInvite(old(Abs()), q, now), saved)
      ensures token == if o == Done then Some(InviteToken(old(Abs()), q, now)) else None
    {
      token := None;
      if !q.nameOk { return None, BadName; }
      if !q.endpointOk { return None, BadEndpoint; }
      if publicKey == "" { return None, NoServerKey; }
      if |q.expected| == 0 || |lans| == 0 { return None, NeedsSubnets; }
      o := CheckRemoteSubnets(q.expected);
      if o != Done { return; }
      if !q.keyOk { return None, KeyError; }
      o := Append(Peer(q.name, "", "", q.psk, q.expected, q.expected, true, true, Some(now + INVITE_TTL)), saved);
      if o != Done { return; }
      token := Some(Invite(INVITE_VERSION, q.name, publicKey, q.psk, Subnets(lans), q.expected, Some(now + INVITE_TTL), q.fieldsOk));
    }

    method Consume(inv: Invite, now: int, saved: bool) returns (ack: Option<Ack>, o: Outcome)
      modifies this`peers
      ensures (o == Done ==> saved) && (o == SaveFailed ==> !saved)
      ensures (Abs(), o) == Unsaved(ConsumeInvite(old(Abs()), inv, now), saved)
      ensures ack == if o == Done then Some(AckToken(old(Abs()), inv)) else None
    {
      ack := None;
      o := CheckInviteToken(inv, now);
      if o != Done { return; }
      var pub := publicKey;
      if pub == "" { return None, NoServerKey; }
      if !SameSubnets(inv.expected, Subnets(lans)) { return None, SubnetMismatch; }
      o := CheckRemoteSubnets(inv.remote);
      if o != Done { return; }
      o := Append(Peer(inv.name, inv.publicKey, "", inv.psk, inv.remote, inv.remote, true, false, None), saved);
      if o != Done { return; }
      ack := Some(Ack(INVITE_VERSION, inv.name, pub, inv.psk, true));
    }

    method FindPeer(name: string) returns (i: nat)
      ensures i == IndexOf(peers, name)
    {
      for k := 0 to |peers|
        invariant forall m :: 0 <= m < k ==> peers[m].name != name
      {
        if peers[k].name == name {
          return k;
        }
      }
      i := |peers|;
    }

    method Finalize(name: string, ack: Ack, now: int, saved: bool) returns (o: Outcome)
      modifies this`peers
      ensures (o == Done ==> saved) && (o == SaveFailed ==> !saved)
      ensures (Abs(), o) == Unsaved(FinalizeInvite(old(Abs()), name, ack, now), saved)
    {
      if ack.version != INVITE_VERSION || !ack.fieldsOk { return Malformed; }
      if ack.name != name { return Malformed; }
      var i := FindPeer(name);
      if i == |peers| { return NotFound; }
      if !peers[i].pending { return NotPending; }
      if peers[i].expires.Some? && now > peers[i].expires.value { return Expired; }
      if peers[i].psk != ack.macKey { return BadSignature; }
      peers := peers[i := peers[i].(publicKey := ack.publicKey, pending := false, expires := None)];
      o := if saved then Done else SaveFailed;
    }

    /** Nothing is written when there is no such peer, so nothing can fail then. */
    method Cancel(name: string, saved: bool) returns (o: Outcome)
      modifies this`peers
      ensures o == Done ==> saved || Abs() == old(Abs())
      ensures o == SaveFailed ==> !saved
      ensures Abs() == CancelInvite(old(Abs()), name).0
      ensures o == if Abs() != old(Abs()) && !saved then SaveFailed else CancelInvite(old(Abs()), name).1
    {
      var i := FindPeer(name);
      if i == |peers| { return Done; }
      if !peers[i].pending { return NotPending; }
      peers := peers[..i] + peers[i + 1..];
      o := if saved then Done else SaveFailed;
    }

    method Remove(name: string, saved: bool) returns (o: Outcome)
      modifies this`peers
      ensures (o == Done ==> saved) && (o == SaveFailed ==> !saved)
      ensures (Abs(), o) == Unsaved(RemovePeer(old(Abs()), name), saved)
    {
      var i := FindPeer(name);
      if i == |peers| { return NotFound; }
      peers := peers[..i] + peers[i + 1..];
      o := if saved then Done else SaveFailed;
    }

    /** GCExpiredInvites: compacts into a fresh list and reports how many were reaped. */
    method GCExpiredInvites(now: int) returns (reaped: nat)
      modifies this`peers
      ensures Abs() == GC(old(Abs()), now)
      ensures forall p :: p in peers <==> p in old(peers) && !RunOut(p, now)
      ensures reaped == |old(peers)| - |peers| == |RunOuts(old(peers), now)|
    {
      SweepKeepsExactlyTheLive(peers, now);
      ReapedAreTheRunOuts(peers, now);
      var kept := [];
      for i := 0 to |peers|
        invariant kept == Kept(peers[..i], now) && |kept| <= i
      {
        assert peers[..i + 1][..i] == peers[..i];
        if !(peers[i].pending && peers[i].expires.Some? && now > peers[i].expires.value) {
          kept := kept + [peers[i]];
        }
      }
      assert peers[..|peers|] == peers;
      reaped := |peers| - |kept|;
      peers := kept;
    }
  }
}
