/**
 When each operation on the peer list succeeds and what it leaves behind, said about single
 addresses and single peers rather than through the checks the operations make.
 */
module VpnOutcomes {
  import opened Core
  import opened Arith
  import opened Cidr
  import opened TunnelPool
  import opened Vpn

  // ------------------------------------------------------- addresses

  /** `x` agrees with `a` on the first `len` bits. */
  predicate SameBlock(a: Addr, len: nat, x: Addr) {
    && ValidAddr(a) && len <= a.width
    && x.width == a.width && x.value / Pow2(a.width - len) == a.value / Pow2(a.width - len)
  }

  predicate InEntry(e: Entry, x: Addr) {
    e.Net? && SameBlock(e.addr, e.len, x)
  }

  /** On the network of an interface; an IPv4 address without a mask stands for its /24. */
  predicate OnInterface(a: Address, x: Addr) {
    match a
    case Masked(addr, len) => SameBlock(addr, len, x)
    case Bare(addr) => addr.width == 32 && SameBlock(addr, 24, x)
    case Unreadable(_) => false
  }

  predicate InEntries(list: seq<Entry>, x: Addr) {
    exists i :: 0 <= i < |list| && InEntry(list[i], x)
  }

  predicate OnInterfaces(list: seq<Address>, x: Addr) {
    exists i :: 0 <= i < |list| && OnInterface(list[i], x)
  }

  /** An address the router or one of its peers already has a use for. */
  predicate Occupied(r: Router, x: Addr) {
    || OnInterfaces(r.lans, x)
    || OnInterfaces(r.vlans, x)
    || (r.server.Some? && OnInterface(r.server.value, x))
    || InEntries(r.openVpn, x)
    || exists k :: 0 <= k < |r.peers| && (InEntries(r.peers[k].allowed, x) || InEntries(r.peers[k].remote, x))
  }

  /** The entry is a network, and every address in it is private and unoccupied. */
  ghost predicate Fits(r: Router, e: Entry) {
    Parses(e) && forall x :: InEntry(e, x) ==> IsPrivate(x) && !Occupied(r, x)
  }

  ghost predicate Claimable(r: Router, remote: seq<Entry>) {
    forall i :: 0 <= i < |remote| ==> Fits(r, remote[i])
  }

  lemma SameQuotient(x: nat, a: nat, d: nat)
    requires d > 0
    ensures x / d == a / d <==> x - x % d == a - a % d
  {
    assert x == d * (x / d) + x % d && a == d * (a / d) + a % d;
    if x - x % d == a - a % d {
      MulMod(x / d, d);
      assert d * (x / d) == d * (a / d);
      SameFactor(x / d, a / d, d);
    }
  }

  lemma SameFactor(m: nat, n: nat, d: nat)
    requires d > 0 && d * m == d * n
    ensures m == n
  {
  }

  lemma InEntryIsContains(e: Entry, x: Addr)
    ensures InEntry(e, x) <==> Parses(e) && Contains(Network(e), x)
  {
    if Parses(e) {
      SameQuotient(x.value, e.addr.value, Pow2(e.addr.width - e.len));
    }
  }

  lemma SubnetIsInterface(a: Address, x: Addr)
    ensures InEntry(AddressToSubnet(a), x) <==> OnInterface(a, x)
  {
    match a
    case Masked(addr, len) => if ValidAddr(addr) && len <= addr.width { BaseSameBlock(addr, len, x); }
    case Bare(addr) => if ValidAddr(addr) && addr.width == 32 { BaseSameBlock(addr, 24, x); }
    case Unreadable(_) =>
  }

  lemma BaseSameBlock(a: Addr, len: nat, x: Addr)
    requires ValidAddr(a) && len <= a.width
    ensures SameBlock(BaseOf(NetworkOf(a, len)), len, x) <==> SameBlock(a, len, x)
  {
    BaseQuotient(a.value, Pow2(a.width - len));
  }

  lemma BaseQuotient(v: nat, d: nat)
    requires d > 0
    ensures 0 <= v - v % d <= v && (v - v % d) / d == v / d
  {
    var k := v / d;
    assert v == k * d + v % d;
    assert (k + 1) * d == k * d + d;
    DivUnique(k * d, k, d);
  }

  // ------------------------------------------------------- the remote networks

  lemma SubnetsAreInterfaces(list: seq<Address>, x: Addr)
    ensures InEntries(Subnets(list), x) <==> OnInterfaces(list, x)
  {
    forall i | 0 <= i < |list| ensures InEntry(Subnets(list)[i], x) <==> OnInterface(list[i], x) {
      SubnetIsInterface(list[i], x);
    }
    if InEntries(Subnets(list), x) {
      var i :| 0 <= i < |Subnets(list)| && InEntry(Subnets(list)[i], x);
      assert OnInterface(list[i], x);
    }
  }

  lemma InSum(a: seq<Entry>, b: seq<Entry>, x: Addr)
    ensures InEntries(a + b, x) <==> InEntries(a, x) || InEntries(b, x)
  {
    forall i | 0 <= i < |a| ensures (a + b)[i] == a[i] {
    }
    forall i | 0 <= i < |b| ensures (a + b)[|a| + i] == b[i] {
    }
    if InEntries(b, x) {
      var i :| 0 <= i < |b| && InEntry(b[i], x);
      assert InEntry((a + b)[|a| + i], x);
    }
  }

  predicate HasIn(p: Peer, x: Addr) {
    InEntries(p.allowed, x) || InEntries(p.remote, x)
  }

  lemma {:induction false} PeerSubnetsMean(peers: seq<Peer>, x: Addr)
    ensures InEntries(PeerSubnets(peers), x) <==> exists k :: 0 <= k < |peers| && HasIn(peers[k], x)
  {
    if peers != [] {
      var front, last := peers[..|peers| - 1], peers[|peers| - 1];
      PeerSubnetsMean(front, x);
      InSum(PeerSubnets(front), last.allowed, x);
      InSum(PeerSubnets(front) + last.allowed, last.remote, x);
      assert forall k :: 0 <= k < |front| ==> front[k] == peers[k];
      if HasIn(last, x) {
        assert HasIn(peers[|peers| - 1], x);
      }
    }
  }

  lemma ServerSubnetMeans(r: Router, x: Addr)
    ensures InEntries(ServerSubnet(r), x) <==> r.server.Some? && OnInterface(r.server.value, x)
  {
    if r.server.Some? {
      SubnetIsInterface(r.server.value, x);
      assert ServerSubnet(r)[0] == AddressToSubnet(r.server.value);
    }
  }

  lemma ClaimedIsOccupied(r: Router, x: Addr)
    ensures InEntries(Claimed(r), x) <==> Occupied(r, x)
  {
    var lans, server, vlans := Subnets(r.lans), ServerSubnet(r), Subnets(r.vlans);
    InSum(lans, server, x);
    InSum(lans + server, vlans, x);
    InSum(lans + server + vlans, r.openVpn, x);
    InSum(Locals(r), PeerSubnets(r.peers), x);
    SubnetsAreInterfaces(r.lans, x);
    SubnetsAreInterfaces(r.vlans, x);
    ServerSubnetMeans(r, x);
    PeerSubnetsMean(r.peers, x);
    assert forall k :: 0 <= k < |r.peers| ==>
             (HasIn(r.peers[k], x) <==> InEntries(r.peers[k].allowed, x) || InEntries(r.peers[k].remote, x));
  }

  lemma PrivateLanMeans(e: Entry)
    ensures PrivateLan(e) <==> Parses(e) && forall x :: InEntry(e, x) ==> IsPrivate(x)
  {
    if Parses(e) {
      var p := Network(e);
      ContainsIsRange(p, BaseOf(p));
      ContainsIsRange(p, LastOf(p));
      InEntryIsContains(e, BaseOf(p));
      InEntryIsContains(e, LastOf(p));
      if PrivateLan(e) {
        forall x | InEntry(e, x) ensures IsPrivate(x) {
          InEntryIsContains(e, x);
          PrivateEndsMeanPrivateBlock(p, x);
        }
      }
    }
  }

  lemma ClashMeans(e: Entry, claimed: seq<Entry>)
    ensures ClashesAny(e, claimed) <==> exists x :: InEntry(e, x) && InEntries(claimed, x)
  {
    if j :| 0 <= j < |claimed| && Clash(e, claimed[j]) {
      ClashIsShare(e, claimed[j]);
      var x :| Contains(Network(e), x) && Contains(Network(claimed[j]), x);
      InEntryIsContains(e, x);
      InEntryIsContains(claimed[j], x);
      assert InEntry(e, x) && InEntries(claimed, x);
    }
    if x :| InEntry(e, x) && InEntries(claimed, x) {
      var j :| 0 <= j < |claimed| && InEntry(claimed[j], x);
      InEntryIsContains(e, x);
      InEntryIsContains(claimed[j], x);
      ClashIsShare(e, claimed[j]);
    }
  }

  predicate ClashesAny(e: Entry, claimed: seq<Entry>) {
    exists j :: 0 <= j < |claimed| && Clash(e, claimed[j])
  }

  lemma EntryFits(r: Router, e: Entry)
    ensures Fits(r, e) <==> PrivateLan(e) && !ClashesAny(e, Claimed(r))
  {
    PrivateLanMeans(e);
    ClashMeans(e, Claimed(r));
    forall x ensures InEntries(Claimed(r), x) <==> Occupied(r, x) {
      ClaimedIsOccupied(r, x);
    }
  }

  lemma CheckMeans(r: Router, remote: seq<Entry>)
    ensures CheckRemote(r, remote) == Done <==>
            forall i :: 0 <= i < |remote| ==> PrivateLan(remote[i]) && !ClashesAny(remote[i], Claimed(r))
  {
  }

  /** The check of the remote networks passes exactly when every address in them is private and unoccupied. */
  lemma RemoteIsClaimableExactlyWhen(r: Router, remote: seq<Entry>)
    ensures CheckRemote(r, remote) == Done <==> Claimable(r, remote)
  {
    CheckMeans(r, remote);
    forall i | 0 <= i < |remote| ensures Fits(r, remote[i]) <==> PrivateLan(remote[i]) && !ClashesAny(remote[i], Claimed(r)) {
      EntryFits(r, remote[i]);
    }
  }

  // ------------------------------------------------------- adding and joining

  predicate Named(peers: seq<Peer>, name: string) {
    exists k :: 0 <= k < |peers| && peers[k].name == name
  }

  /** A tunnel address that is nobody's: not the server's, and the first entry of no peer. */
  predicate Unassigned(r: Router, v: nat)
    requires HasPool(r)
  {
    && v != r.server.value.addr.value
    && forall k :: 0 <= k < |r.peers| && HasFirst(r.peers[k], r.server.value.addr.width) ==>
         r.peers[k].allowed[0].addr.value != v
  }

  /** An address of the server's network, neither its first nor its last one. */
  predicate TunnelHost(r: Router, v: nat)
    requires HasPool(r)
  {
    var a, d := r.server.value.addr, Pow2(r.server.value.addr.width - r.server.value.len);
    v / d == a.value / d && v % d != 0 && v % d != d - 1
  }

  lemma HostMeans(r: Router, v: nat)
    requires HasPool(r)
    ensures TunnelHost(r, v) <==> IsHost(Pool(r), v)
  {
    var pool, a := Pool(r), r.server.value.addr;
    var d := Size(pool);
    SameQuotient(v, a.value, d);
    ContainsIsRange(pool, Addr(pool.width, v));
    assert pool.base == a.value - a.value % d;
    assert v - v % d == pool.base <==> pool.base <= v < pool.base + d;
  }

  /** The address handed to a new peer is the lowest unassigned host address, and there is one unless all are taken. */
  lemma TunnelIsLowestUnassigned(r: Router)
    requires HasPool(r) && Pool(r).len >= 1
    ensures NextTunnel(r).Some? <==> exists v :: TunnelHost(r, v) && Unassigned(r, v)
    ensures NextTunnel(r).Some? ==>
              var v := NextTunnel(r).value;
              TunnelHost(r, v) && Unassigned(r, v) && forall u :: TunnelHost(r, u) && Unassigned(r, u) ==> v <= u
  {
    var used := UsedTunnelIPs(r.peers, Pool(r).width) + {r.server.value.addr.value};
    forall v ensures TunnelHost(r, v) <==> IsHost(Pool(r), v) {
      HostMeans(r, v);
    }
    forall v: nat ensures Unassigned(r, v) <==> v !in used {
    }
  }

  /** AddPeer succeeds exactly then; the list is changed exactly when it succeeds, by this one peer. */
  lemma AddIsDoneExactlyWhen(r: Router, q: AddRequest)
    ensures AddPeer(r, q).1 == Done <==>
            && Claimable(r, q.remote) && q.endpointOk && q.keysOk && !Named(r.peers, q.name)
            && HasPool(r) && NextTunnel(r).Some?
    ensures AddPeer(r, q).1 != Done ==> AddPeer(r, q).0 == r
  {
    RemoteIsClaimableExactlyWhen(r, q.remote);
  }

  /** The peer an add appends carries the request's keys, and routes its tunnel address and, site to site, the networks. */
  lemma AddedPeer(r: Router, q: AddRequest)
    requires AddPeer(r, q).1 == Done
    ensures var r', n := AddPeer(r, q).0, |r.peers|;
            && |r'.peers| == n + 1 && r'.peers[..n] == r.peers && r'.(peers := r.peers) == r
            && r'.peers[n].name == q.name
            && r'.peers[n].publicKey == q.publicKey
            && r'.peers[n].privateKey == q.privateKey
            && r'.peers[n].psk == q.psk
            && r'.peers[n].remote == q.remote
            && r'.peers[n].siteToSite == q.siteToSite
            && !r'.peers[n].pending && r'.peers[n].expires.None?
            && |r'.peers[n].allowed| == 1 + (if q.siteToSite then |q.remote| else 0)
            && r'.peers[n].allowed[0] == Net(Addr(r.server.value.addr.width, NextTunnel(r).value), 32)
            && (q.siteToSite ==> r'.peers[n].allowed[1..] == q.remote)
  {
  }

  /** CreateS2SInvite succeeds exactly then. */
  lemma CreateIsDoneExactlyWhen(r: Router, q: InviteRequest, now: int)
    ensures CreateInvite(r, q, now).1 == Done <==>
            && q.nameOk && q.endpointOk && q.keyOk && r.publicKey != ""
            && q.expected != [] && r.lans != [] && Claimable(r, q.expected) && !Named(r.peers, q.name)
    ensures CreateInvite(r, q, now).1 != Done ==> CreateInvite(r, q, now).0 == r
  {
    RemoteIsClaimableExactlyWhen(r, q.expected);
  }

  /** The pending peer and the token of a new invite name each other's networks, under one key and until one time. */
  lemma CreatedInvite(r: Router, q: InviteRequest, now: int)
    requires CreateInvite(r, q, now).1 == Done
    ensures var r', n, token := CreateInvite(r, q, now).0, |r.peers|, InviteToken(r, q, now);
            && |r'.peers| == n + 1 && r'.peers[..n] == r.peers && r'.(peers := r.peers) == r
            && r'.peers[n].name == token.name == q.name
            && r'.peers[n].psk == token.psk == q.psk
            && r'.peers[n].publicKey == r'.peers[n].privateKey == "" && token.publicKey == r.publicKey
            && r'.peers[n].allowed == r'.peers[n].remote == token.expected == q.expected
            && r'.peers[n].pending && r'.peers[n].siteToSite
            && r'.peers[n].expires == token.expires == Some(now + 3600 * 1_000_000_000)
            && token.version == 2
            && (forall x :: InEntries(token.remote, x) <==> OnInterfaces(r.lans, x))
  {
    forall x ensures InEntries(Subnets(r.lans), x) <==> OnInterfaces(r.lans, x) {
      SubnetsAreInterfaces(r.lans, x);
    }
  }

  /** ConsumeInvite succeeds exactly then: in particular only up to the invite's expiry. */
  lemma ConsumeIsDoneExactlyWhen(r: Router, inv: Invite, now: int)
    ensures ConsumeInvite(r, inv, now).1 == Done <==>
            && inv.version == 2 && (inv.expires.Some? ==> now <= inv.expires.value)
            && inv.fieldsOk && inv.remote != [] && inv.expected != []
            && (forall i :: 0 <= i < |inv.expected| ==> Parses(inv.expected[i]))
            && r.publicKey != ""
            && Networks(inv.expected) == Networks(Subnets(r.lans))
            && Claimable(r, inv.remote) && !Named(r.peers, inv.name)
    ensures ConsumeInvite(r, inv, now).1 == Expired <==>
            inv.version == 2 && inv.expires.Some? && now > inv.expires.value
    ensures ConsumeInvite(r, inv, now).1 != Done ==> ConsumeInvite(r, inv, now).0 == r
  {
    RemoteIsClaimableExactlyWhen(r, inv.remote);
    SameSubnetsIsSetEquality(inv.expected, Subnets(r.lans));
  }

  /** The joining side registers the inviter's key and networks, and answers with its own key. */
  lemma JoinedRouter(r: Router, inv: Invite, now: int)
    requires ConsumeInvite(r, inv, now).1 == Done
    ensures var r', n, ack := ConsumeInvite(r, inv, now).0, |r.peers|, AckToken(r, inv);
            && |r'.peers| == n + 1 && r'.peers[..n] == r.peers && r'.(peers := r.peers) == r
            && r'.peers[n].name == ack.name == inv.name
            && r'.peers[n].publicKey == inv.publicKey && ack.publicKey == r.publicKey
            && r'.peers[n].psk == ack.macKey == inv.psk
            && r'.peers[n].privateKey == ""
            && r'.peers[n].allowed == r'.peers[n].remote == inv.remote
            && r'.peers[n].siteToSite && !r'.peers[n].pending && r'.peers[n].expires.None?
            && ack.version == 2 && ack.fieldsOk
  {
  }

  // ------------------------------------------------------- finalizing and removing

  predicate FirstNamed(peers: seq<Peer>, name: string, k: nat) {
    k < |peers| && peers[k].name == name && forall i :: 0 <= i < k ==> peers[i].name != name
  }

  /** FinalizeInvite succeeds exactly then, and changes that peer's key and its two flags. */
  lemma FinalizeIsDoneExactlyWhen(r: Router, name: string, ack: Ack, now: int)
    ensures FinalizeInvite(r, name, ack, now).1 == Done <==>
            && ack.version == 2 && ack.fieldsOk && ack.name == name
            && exists k: nat :: FirstNamed(r.peers, name, k) && Answers(r.peers[k], ack, now)
    ensures FinalizeInvite(r, name, ack, now).1 != Done ==> FinalizeInvite(r, name, ack, now).0 == r
    ensures FinalizeInvite(r, name, ack, now).1 == Done ==>
              forall k: nat :: FirstNamed(r.peers, name, k) ==>
                var p := r.peers[k];
                FinalizeInvite(r, name, ack, now).0 ==
                r.(peers := r.peers[k := Peer(name, ack.publicKey, p.privateKey, p.psk, p.allowed, p.remote,
                                              p.siteToSite, false, None)])
  {
    var i := IndexOf(r.peers, name);
    forall k: nat | FirstNamed(r.peers, name, k) ensures k == i {
    }
    if i < |r.peers| {
      assert FirstNamed(r.peers, name, i);
    }
  }

  predicate Answers(p: Peer, ack: Ack, now: int) {
    p.pending && (p.expires.Some? ==> now <= p.expires.value) && p.psk == ack.macKey
  }

  /** The peers of other names, in order. */
  function Others(peers: seq<Peer>, name: string): seq<Peer> {
    if peers == [] then []
    else (if peers[0].name == name then [] else [peers[0]]) + Others(peers[1..], name)
  }

  ghost predicate NamesDistinct(peers: seq<Peer>) {
    forall i, j :: 0 <= i < j < |peers| ==> peers[i].name != peers[j].name
  }

  lemma {:induction false} OthersWithoutName(peers: seq<Peer>, name: string)
    requires !Named(peers, name)
    ensures Others(peers, name) == peers
  {
    if peers != [] {
      assert peers[0].name != name;
      forall k | 0 <= k < |peers[1..]| ensures peers[1..][k].name != name {
        assert peers[1..][k] == peers[k + 1];
      }
      OthersWithoutName(peers[1..], name);
    }
  }

  lemma {:induction false} DropOne(peers: seq<Peer>, name: string, k: nat)
    requires k < |peers| && peers[k].name == name
    ensures Others(RemoveAt(peers, k), name) == Others(peers, name)
  {
    var left := RemoveAt(peers, k);
    if k == 0 {
      assert left == peers[1..];
    } else {
      assert left[0] == peers[0] && left[1..] == RemoveAt(peers[1..], k - 1);
      DropOne(peers[1..], name, k - 1);
    }
  }

  lemma OnlyOneDropped(peers: seq<Peer>, name: string, k: nat)
    requires NamesDistinct(peers) && k < |peers| && peers[k].name == name
    ensures RemoveAt(peers, k) == Others(peers, name)
  {
    var left := RemoveAt(peers, k);
    forall i | 0 <= i < |left| ensures left[i].name != name {
      assert left[i] == if i < k then peers[i] else peers[i + 1];
    }
    DropOne(peers, name, k);
    OthersWithoutName(left, name);
  }

  /** One peer of the name goes and nothing else; with distinct names the peers of other names are left, in order. */
  lemma RemoveLeavesTheOthers(r: Router, name: string)
    ensures var r' := RemovePeer(r, name).0;
            && (RemovePeer(r, name).1 == Done <==> Named(r.peers, name))
            && (RemovePeer(r, name).1 != Done ==> r' == r && RemovePeer(r, name).1 == NotFound)
            && r'.(peers := r.peers) == r
            && Others(r'.peers, name) == Others(r.peers, name)
            && |r'.peers| == |r.peers| - (if Named(r.peers, name) then 1 else 0)
            && (NamesDistinct(r.peers) ==> r'.peers == Others(r.peers, name))
  {
    var i := IndexOf(r.peers, name);
    if i < |r.peers| {
      DropOne(r.peers, name, i);
      if NamesDistinct(r.peers) {
        OnlyOneDropped(r.peers, name, i);
      }
    } else {
      OthersWithoutName(r.peers, name);
    }
  }

  /** The same for a cancel, which spares an established peer and says so. */
  lemma CancelLeavesTheOthers(r: Router, name: string)
    ensures var r', o := CancelInvite(r, name).0, CancelInvite(r, name).1;
            && o in {Done, NotPending}
            && (o == NotPending <==> exists k: nat :: FirstNamed(r.peers, name, k) && !r.peers[k].pending)
            && (o == NotPending ==> r' == r)
            && r'.(peers := r.peers) == r
            && Others(r'.peers, name) == Others(r.peers, name)
            && (o == Done ==> |r'.peers| == |r.peers| - (if Named(r.peers, name) then 1 else 0))
            && (o == Done && NamesDistinct(r.peers) ==> r'.peers == Others(r.peers, name))
  {
    var i := IndexOf(r.peers, name);
    RemoveLeavesTheOthers(r, name);
    forall k: nat | FirstNamed(r.peers, name, k) ensures k == i {
    }
    if i < |r.peers| {
      assert FirstNamed(r.peers, name, i);
    }
  }
}
