/**
 What every sequence of peer operations keeps: no two peers claim the same address, every
 remote subnet is wholly private and clear of the router's own networks, and tunnel
 addresses are never shared, even by concurrent adds.
 */
module PeerIsolation {
  import opened Core
  import opened Arith
  import opened Cidr
  import opened TunnelPool
  import opened Vpn

  // ------------------------------------------------------- the invariant

  ghost predicate ClearOf(e: Entry, list: seq<Entry>) {
    forall l :: l in list ==> !Share(e, l)
  }

  ghost predicate IsTunnel(r: Router, e: Entry) {
    HasPool(r) && e.Net? && e.len == 32 && e.addr.width == Pool(r).width && Contains(Pool(r), e.addr)
  }

  ghost predicate PeerOk(r: Router, p: Peer) {
    && (forall c :: c in p.remote ==> PrivateLan(c) && ClearOf(c, Locals(r)))
    && (forall k :: 0 <= k < |p.allowed| ==> p.allowed[k] in p.remote || (k == 0 && IsTunnel(r, p.allowed[0])))
  }

  ghost predicate Apart(p: Peer, q: Peer) {
    p.name != q.name && forall a, b :: a in p.allowed && b in q.allowed ==> !Share(a, b)
  }

  ghost predicate Isolated(r: Router) {
    && (forall i :: 0 <= i < |r.peers| ==> PeerOk(r, r.peers[i]))
    && (forall i, j :: 0 <= i < j < |r.peers| ==> Apart(r.peers[i], r.peers[j]))
  }

  predicate V4Pool(r: Router) {
    HasPool(r) ==> Pool(r).width == 32
  }

  // ------------------------------------------------------- the checks mean what they say

  lemma PeerSubnetsHolds(peers: seq<Peer>, i: nat, e: Entry)
    requires i < |peers| && (e in peers[i].allowed || e in peers[i].remote)
    ensures e in PeerSubnets(peers)
  {
    if i < |peers| - 1 {
      PeerSubnetsHolds(peers[..|peers| - 1], i, e);
    }
  }

  /** Remote subnets that pass the check are private and share no address with anything claimed. */
  lemma CheckedRemoteIsClear(r: Router, remote: seq<Entry>, c: Entry)
    requires CheckRemote(r, remote) == Done && c in remote
    ensures PrivateLan(c)
    ensures ClearOf(c, Locals(r))
    ensures forall i, e :: 0 <= i < |r.peers| && e in r.peers[i].allowed ==> !Share(c, e)
  {
    var k :| 0 <= k < |remote| && remote[k] == c;
    forall l | l in Claimed(r) ensures !Share(c, l) {
      var j :| 0 <= j < |Claimed(r)| && Claimed(r)[j] == l;
      ClashIsShare(remote[k], Claimed(r)[j]);
    }
    forall i, e | 0 <= i < |r.peers| && e in r.peers[i].allowed ensures !Share(c, e) {
      PeerSubnetsHolds(r.peers, i, e);
      assert e in Claimed(r);
    }
    assert forall l :: l in Locals(r) ==> l in Claimed(r);
  }

  /** The reserved server subnet is the pool itself. */
  lemma ServerSubnetIsPool(r: Router)
    requires HasPool(r)
    ensures AddressToSubnet(r.server.value) in Locals(r)
    ensures Parses(AddressToSubnet(r.server.value)) && Network(AddressToSubnet(r.server.value)) == Pool(r)
  {
    var e := AddressToSubnet(r.server.value);
    assert e == Net(BaseOf(Pool(r)), r.server.value.len);
    assert Locals(r)[|r.lans|] == e;
    ContainsIsRange(Pool(r), BaseOf(Pool(r)));
  }

  /** An IPv4 tunnel entry covers its own address and nothing else. */
  lemma HostRoute(e: Entry, a: Addr)
    requires Parses(e) && e.addr.width == 32 && e.len == 32
    ensures Contains(Network(e), a) <==> a == e.addr
  {
    assert Pow2(0) == 1;
    assert Size(Network(e)) == 1;
  }

  lemma TunnelParses(r: Router, e: Entry)
    requires IsTunnel(r, e)
    ensures Parses(e)
  {
    ContainsIsRange(Pool(r), e.addr);
    EndFits(Pool(r));
  }

  /** A tunnel address never lies in a remote subnet. */
  lemma TunnelClearOfRemote(r: Router, t: Entry, c: Entry)
    requires V4Pool(r) && IsTunnel(r, t) && Parses(c) && ClearOf(c, Locals(r))
    ensures !Share(t, c) && !Share(c, t)
  {
    TunnelParses(r, t);
    ServerSubnetIsPool(r);
    var s := AddressToSubnet(r.server.value);
    assert !Share(c, s);
    assert Contains(Network(s), t.addr);
    forall a | Contains(Network(t), a) ensures !Contains(Network(c), a) {
      HostRoute(t, a);
    }
  }

  lemma TunnelsApart(r: Router, t: Entry, u: Entry)
    requires V4Pool(r) && IsTunnel(r, t) && IsTunnel(r, u) && t.addr.value != u.addr.value
    ensures !Share(t, u)
  {
    TunnelParses(r, t);
    TunnelParses(r, u);
    forall a | Contains(Network(t), a) ensures !Contains(Network(u), a) {
      HostRoute(t, a);
      HostRoute(u, a);
    }
  }

  // ------------------------------------------------------- one operation

  lemma AppendKeeps(r: Router, p: Peer)
    requires Isolated(r) && PeerOk(r, p)
    requires forall i :: 0 <= i < |r.peers| ==> Apart(r.peers[i], p)
    ensures Isolated(r.(peers := r.peers + [p]))
  {
    var r' := r.(peers := r.peers + [p]);
    assert Locals(r') == Locals(r);
    forall i | 0 <= i < |r'.peers| ensures PeerOk(r', r'.peers[i]) {
      assert PeerOk(r, r'.peers[i]);
      SameOk(r, r', r'.peers[i]);
    }
  }

  /** Whether a peer is acceptable does not depend on the other peers. */
  lemma SameOk(r: Router, r': Router, p: Peer)
    requires r' == r.(peers := r'.peers) && PeerOk(r, p)
    ensures PeerOk(r', p)
  {
    assert Locals(r') == Locals(r);
    assert HasPool(r') == HasPool(r) && (HasPool(r) ==> Pool(r') == Pool(r));
  }

  lemma AddKeeps(r: Router, q: AddRequest)
    requires Isolated(r) && V4Pool(r)
    ensures Isolated(AddPeer(r, q).0)
  {
    if AddPeer(r, q).1 == Done {
      var v := NextTunnel(r).value;
      var p := NewPeer(r, q, v);
      var t := TunnelEntry(r, v);
      NewTunnelIsFresh(r, v);
      forall c | c in q.remote ensures PrivateLan(c) && ClearOf(c, Locals(r)) {
        CheckedRemoteIsClear(r, q.remote, c);
      }
      forall i | 0 <= i < |r.peers| ensures Apart(r.peers[i], p) {
        forall a, b | a in r.peers[i].allowed && b in p.allowed ensures !Share(a, b) {
          ClashIsShare(a, b);
          if b != t {
            CheckedRemoteIsClear(r, q.remote, b);
          } else {
            EntryClearOfTunnel(r, i, a, t);
          }
        }
      }
      AppendKeeps(r, p);
    }
  }

  lemma NewTunnelIsFresh(r: Router, v: nat)
    requires HasPool(r) && NextTunnel(r) == Some(v)
    ensures IsTunnel(r, TunnelEntry(r, v))
    ensures forall i :: 0 <= i < |r.peers| && HasFirst(r.peers[i], Pool(r).width) ==> r.peers[i].allowed[0].addr.value != v
  {
    HandedFits(Pool(r), UsedTunnelIPs(r.peers, Pool(r).width) + {r.server.value.addr.value});
    ContainsIsRange(Pool(r), Addr(Pool(r).width, v));
  }

  lemma EntryClearOfTunnel(r: Router, i: nat, a: Entry, t: Entry)
    requires Isolated(r) && V4Pool(r) && i < |r.peers| && a in r.peers[i].allowed && IsTunnel(r, t)
    requires HasFirst(r.peers[i], 32) ==> r.peers[i].allowed[0].addr.value != t.addr.value
    ensures !Share(a, t)
  {
    var k :| 0 <= k < |r.peers[i].allowed| && r.peers[i].allowed[k] == a;
    assert PeerOk(r, r.peers[i]);
    if a in r.peers[i].remote {
      TunnelClearOfRemote(r, t, a);
    } else {
      TunnelsApart(r, a, t);
    }
  }

  /** A wizard peer routes exactly its checked remote subnets. */
  lemma WizardPeerKeeps(r: Router, p: Peer)
    requires Isolated(r) && CheckRemote(r, p.remote) == Done && p.allowed == p.remote
    ensures Isolated(AppendPeer(r, p).0)
  {
    if !NameTaken(r, p.name) {
      forall c | c in p.remote ensures PrivateLan(c) && ClearOf(c, Locals(r)) {
        CheckedRemoteIsClear(r, p.remote, c);
      }
      forall i | 0 <= i < |r.peers| ensures Apart(r.peers[i], p) {
        forall a, b | a in r.peers[i].allowed && b in p.allowed ensures !Share(a, b) {
          CheckedRemoteIsClear(r, p.remote, b);
          ClashIsShare(a, b);
        }
      }
      AppendKeeps(r, p);
    }
  }

  lemma RemovalKeeps(r: Router, i: nat)
    requires Isolated(r) && i < |r.peers|
    ensures Isolated(r.(peers := RemoveAt(r.peers, i)))
  {
    var r' := r.(peers := RemoveAt(r.peers, i));
    forall k | 0 <= k < |r'.peers| ensures PeerOk(r', r'.peers[k]) {
      assert r'.peers[k] == r.peers[if k < i then k else k + 1];
      SameOk(r, r', r'.peers[k]);
    }
    forall k, m | 0 <= k < m < |r'.peers| ensures Apart(r'.peers[k], r'.peers[m]) {
      assert r'.peers[k] == r.peers[if k < i then k else k + 1];
      assert r'.peers[m] == r.peers[if m < i then m else m + 1];
    }
  }

  lemma {:induction false} SweepKeeps(r: Router, now: int)
    requires Isolated(r)
    ensures Isolated(GC(r, now))
    decreases |r.peers|
  {
    if r.peers != [] {
      var front := r.(peers := r.peers[..|r.peers| - 1]);
      var last := r.peers[|r.peers| - 1];
      RemovalKeeps(r, |r.peers| - 1);
      assert RemoveAt(r.peers, |r.peers| - 1) == front.peers;
      SweepKeeps(front, now);
      var swept := GC(front, now);
      SameOk(r, swept, last);
      forall i | 0 <= i < |swept.peers| ensures Apart(swept.peers[i], last) {
        SweptWasThere(front.peers, now, swept.peers[i]);
        var j :| 0 <= j < |front.peers| && front.peers[j] == swept.peers[i];
        assert Apart(r.peers[j], r.peers[|r.peers| - 1]);
      }
      AppendKeeps(swept, last);
    }
  }

  lemma FinalizeKeeps(r: Router, name: string, ack: Ack, now: int)
    requires Isolated(r)
    ensures Isolated(FinalizeInvite(r, name, ack, now).0)
  {
    var r' := FinalizeInvite(r, name, ack, now).0;
    assert |r'.peers| == |r.peers|;
    forall k | 0 <= k < |r'.peers| ensures PeerOk(r', r'.peers[k]) {
      assert r'.peers[k].allowed == r.peers[k].allowed && r'.peers[k].remote == r.peers[k].remote;
      SameOk(r, r', r.peers[k]);
    }
    forall k, m | 0 <= k < m < |r'.peers| ensures Apart(r'.peers[k], r'.peers[m]) {
      assert Apart(r.peers[k], r.peers[m]);
    }
  }

  // ------------------------------------------------------- every run

  datatype Op =
    | Add(add: AddRequest)
    | Create(create: InviteRequest, now: int)
    | Consume(invite: Invite, now: int)
    | Finalize(name: string, ack: Ack, now: int)
    | Cancel(name: string)
    | Remove(name: string)
    | Sweep(now: int)

  function Apply(r: Router, op: Op): Router {
    match op
    case Add(q) => AddPeer(r, q).0
    case Create(q, now) => CreateInvite(r, q, now).0
    case Consume(inv, now) => ConsumeInvite(r, inv, now).0
    case Finalize(name, ack, now) => FinalizeInvite(r, name, ack, now).0
    case Cancel(name) => CancelInvite(r, name).0
    case Remove(name) => RemovePeer(r, name).0
    case Sweep(now) => GC(r, now)
  }

  function Run(r: Router, ops: seq<Op>): Router
    decreases |ops|
  {
    if ops == [] then r else Run(Apply(r, ops[0]), ops[1..])
  }

  /** A run is its operations one after the other. */
  lemma {:induction false} RunMore(r: Router, ops: seq<Op>, op: Op)
    ensures Run(r, ops + [op]) == Apply(Run(r, ops), op)
    decreases |ops|
  {
    if ops == [] {
      assert ops + [op] == [op];
      assert Run(Apply(r, op), []) == Apply(r, op);
    } else {
      RunMore(Apply(r, ops[0]), ops[1..], op);
      assert (ops + [op])[1..] == ops[1..] + [op];
    }
  }

  lemma ApplyTouchesPeersOnly(r: Router, op: Op)
    ensures Apply(r, op) == r.(peers := Apply(r, op).peers)
  {
  }

  lemma PoolStays(r: Router, r': Router)
    requires r' == r.(peers := r'.peers) && V4Pool(r)
    ensures V4Pool(r')
  {
  }

  lemma CreateKeeps(r: Router, q: InviteRequest, now: int)
    requires Isolated(r)
    ensures Isolated(CreateInvite(r, q, now).0)
  {
    if CheckInviteRequest(r, q) == Done {
      WizardPeerKeeps(r, PendingPeer(q, now));
    }
  }

  lemma ConsumeKeeps(r: Router, inv: Invite, now: int)
    requires Isolated(r)
    ensures Isolated(ConsumeInvite(r, inv, now).0)
  {
    if CheckConsume(r, inv, now) == Done {
      WizardPeerKeeps(r, JoinedPeer(inv));
    }
  }

  lemma CancelAndRemoveKeep(r: Router, name: string)
    requires Isolated(r)
    ensures Isolated(CancelInvite(r, name).0) && Isolated(RemovePeer(r, name).0)
  {
    var i := IndexOf(r.peers, name);
    if i < |r.peers| {
      RemovalKeeps(r, i);
    }
  }

  lemma ApplyKeeps(r: Router, op: Op)
    requires Isolated(r) && V4Pool(r)
    ensures Isolated(Apply(r, op))
  {
    match op
    case Add(q) => AddKeeps(r, q);
    case Create(q, now) => CreateKeeps(r, q, now);
    case Consume(inv, now) => ConsumeKeeps(r, inv, now);
    case Finalize(name, ack, now) => FinalizeKeeps(r, name, ack, now);
    case Cancel(name) => CancelAndRemoveKeep(r, name);
    case Remove(name) => CancelAndRemoveKeep(r, name);
    case Sweep(now) => SweepKeeps(r, now);
  }

  lemma {:induction false} RunKeeps(r: Router, ops: seq<Op>)
    requires Isolated(r) && V4Pool(r)
    ensures Isolated(Run(r, ops))
    ensures Run(r, ops) == r.(peers := Run(r, ops).peers)
    decreases |ops|
  {
    if ops != [] {
      ApplyKeeps(r, ops[0]);
      ApplyTouchesPeersOnly(r, ops[0]);
      PoolStays(r, Apply(r, ops[0]));
      RunKeeps(Apply(r, ops[0]), ops[1..]);
    }
  }

  /**
   After any sequence of operations on an IPv4 pool, starting from peers that are isolated, such as
   none at all: no address lies in the AllowedIPs of two peers, and every address of every remote
   subnet is private and outside every network of the router itself.
   */
  lemma PeersStayIsolated(r: Router, ops: seq<Op>, i: nat, j: nat, a: Addr, e: Entry)
    requires Isolated(r) && V4Pool(r)
    requires i < |Run(r, ops).peers| && j < |Run(r, ops).peers|
    requires Parses(e) && Contains(Network(e), a)
    ensures i != j && e in Run(r, ops).peers[i].allowed ==>
              forall f :: f in Run(r, ops).peers[j].allowed && Parses(f) ==> !Contains(Network(f), a)
    ensures e in Run(r, ops).peers[i].remote ==>
              && IsPrivate(a)
              && forall l :: l in Locals(r) && Parses(l) ==> !Contains(Network(l), a)
  {
    var r' := Run(r, ops);
    RunKeeps(r, ops);
    assert Locals(r') == Locals(r);
    if i != j && e in r'.peers[i].allowed {
      forall f | f in r'.peers[j].allowed && Parses(f) ensures !Contains(Network(f), a) {
        ClashIsShare(e, f);
        assert i < j ==> Apart(r'.peers[i], r'.peers[j]);
        assert j < i ==> Apart(r'.peers[j], r'.peers[i]);
        assert !Share(e, f);
      }
    }
    if e in r'.peers[i].remote {
      assert PeerOk(r', r'.peers[i]);
      PrivateEndsMeanPrivateBlock(Network(e), a);
      forall l | l in Locals(r) && Parses(l) ensures !Contains(Network(l), a) {
        assert !Share(e, l);
      }
    }
  }

  // ------------------------------------------------------- IPv6 pools

  /** The /32 network around an IPv6 pool. */
  function Around(r: Router): Entry
    requires HasPool(r)
  {
    Net(BaseOf(Pool(r)), 32)
  }

  /** The entry text ends in "/32" at both widths, so every IPv6 tunnel entry is the network around the pool. */
  lemma WideTunnelEntry(r: Router, t: Entry)
    requires HasPool(r) && Pool(r).width == 128 && Pool(r).len >= 32 && IsTunnel(r, t)
    ensures Parses(t) && Parses(Around(r)) && Network(t) == Network(Around(r))
  {
    TunnelParses(r, t);
    ContainsIsRange(Pool(r), BaseOf(Pool(r)));
    Nested(Pool(r), Network(t), t.addr);
    Nested(Network(t), Network(Around(r)), BaseOf(Pool(r)));
    Nested(Network(Around(r)), Network(t), BaseOf(Pool(r)));
  }

  ghost predicate RoutedBySomePeer(r: Router, e: Entry) {
    exists i, a :: 0 <= i < |r.peers| && a in r.peers[i].allowed && Share(a, e)
  }

  /** The entry the next peer would get. */
  function NextEntry(r: Router): Entry
    requires HasPool(r) && NextTunnel(r).Some?
  {
    TunnelEntry(r, NextTunnel(r).value)
  }

  /**
   An add that is accepted keeps the peers isolated exactly when no peer routes anything in the
   network of its new tunnel entry. On an IPv4 pool that is always so. On an IPv6 pool of length 32
   or more that network is the /32 around the pool, and once one peer was added it never is again.
   */
  lemma AddKeepsIsolationExactlyWhen(r: Router, q: AddRequest)
    requires Isolated(r) && AddPeer(r, q).1 == Done
    ensures Isolated(AddPeer(r, q).0) <==> !RoutedBySomePeer(r, NextEntry(r))
    ensures Pool(r).width == 32 ==> !RoutedBySomePeer(r, NextEntry(r))
    ensures Pool(r).width == 128 && Pool(r).len >= 32 ==>
              && (RoutedBySomePeer(r, NextEntry(r)) <==> RoutedBySomePeer(r, Around(r)))
              && RoutedBySomePeer(AddPeer(r, q).0, Around(r))
  {
    if RoutedBySomePeer(r, NextEntry(r)) {
      AddCollides(r, q);
    } else {
      AddStaysClear(r, q);
    }
    if Pool(r).width == 32 {
      AddKeeps(r, q);
    } else if Pool(r).len >= 32 {
      WideEntryStays(r, q);
    }
  }

  lemma AddedPeer(r: Router, q: AddRequest)
    requires AddPeer(r, q).1 == Done
    ensures HasPool(r) && NextTunnel(r).Some?
    ensures AddPeer(r, q).0.peers == r.peers + [NewPeer(r, q, NextTunnel(r).value)]
    ensures NextEntry(r) in NewPeer(r, q, NextTunnel(r).value).allowed
  {
    assert NewPeer(r, q, NextTunnel(r).value).allowed[0] == NextEntry(r);
  }

  lemma AddCollides(r: Router, q: AddRequest)
    requires AddPeer(r, q).1 == Done && RoutedBySomePeer(r, NextEntry(r))
    ensures !Isolated(AddPeer(r, q).0)
  {
    var r' := AddPeer(r, q).0;
    AddedPeer(r, q);
    var i, a :| 0 <= i < |r.peers| && a in r.peers[i].allowed && Share(a, NextEntry(r));
    assert r'.peers[i] == r.peers[i];
    assert !Apart(r'.peers[i], r'.peers[|r.peers|]);
  }

  lemma AddStaysClear(r: Router, q: AddRequest)
    requires Isolated(r) && AddPeer(r, q).1 == Done && !RoutedBySomePeer(r, NextEntry(r))
    ensures Isolated(AddPeer(r, q).0)
  {
    var p, t := NewPeer(r, q, NextTunnel(r).value), NextEntry(r);
    AddedPeer(r, q);
    NewTunnelIsFresh(r, NextTunnel(r).value);
    forall c | c in q.remote ensures PrivateLan(c) && ClearOf(c, Locals(r)) {
      CheckedRemoteIsClear(r, q.remote, c);
    }
    forall i | 0 <= i < |r.peers| ensures Apart(r.peers[i], p) {
      forall a, b | a in r.peers[i].allowed && b in p.allowed ensures !Share(a, b) {
        if b != t {
          ClashIsShare(a, b);
          CheckedRemoteIsClear(r, q.remote, b);
        }
      }
    }
    AppendKeeps(r, p);
  }

  lemma WideEntryStays(r: Router, q: AddRequest)
    requires AddPeer(r, q).1 == Done && Pool(r).width == 128 && Pool(r).len >= 32
    ensures RoutedBySomePeer(r, NextEntry(r)) <==> RoutedBySomePeer(r, Around(r))
    ensures RoutedBySomePeer(AddPeer(r, q).0, Around(r))
  {
    var t, r' := NextEntry(r), AddPeer(r, q).0;
    AddedPeer(r, q);
    NewTunnelIsFresh(r, NextTunnel(r).value);
    WideTunnelEntry(r, t);
    assert forall a :: Share(a, t) <==> Share(a, Around(r));
    assert Contains(Network(t), t.addr);
    assert t in r'.peers[|r.peers|].allowed && Share(t, Around(r));
  }

  /** With at most one peer about, a pool of some size has an address left. */
  lemma AddressLeft(r: Router)
    requires HasPool(r) && Pool(r).len >= 1 && Size(Pool(r)) >= 8 && |r.peers| <= 1
    ensures NextTunnel(r).Some?
  {
    var pool := Pool(r);
    var used := UsedTunnelIPs(r.peers, pool.width) + {r.server.value.addr.value};
    var u := FreeOfThree(used, pool.base + 1, r.server.value.addr.value,
                         if |r.peers| == 1 && HasFirst(r.peers[0], pool.width) then r.peers[0].allowed[0].addr.value else 0);
    assert IsHost(pool, u);
  }

  lemma FreeOfThree(used: set<nat>, from: nat, a: nat, b: nat) returns (u: nat)
    requires forall x :: x in used ==> x == a || x == b
    ensures from <= u <= from + 2 && u !in used
  {
    u := if from != a && from != b then from else if from + 1 != a && from + 1 != b then from + 1 else from + 2;
  }

  /** A request for a road warrior: no subnets behind it, and everything about it in order. */
  function RoadWarrior(name: string): AddRequest {
    AddRequest(name, false, [], true, true, "public", "private", "psk")
  }

  /** A router whose server address is fd00::1 in a pool of fd00::/64, with no peers yet. */
  predicate IsWideRouter(r: Router) {
    r == Router([], [], [], Some(Masked(Addr(128, 0xFD00_0000_0000_0000_0000_0000_0000_0001), 64)), "key", [])
  }

  lemma WideRouterHasPool(r: Router)
    requires IsWideRouter(r)
    ensures HasPool(r) && Pool(r).width == 128 && Pool(r).len == 64 && Size(Pool(r)) >= 8
  {
    WidePowers();
    Powers();
    Pow2Sum(32, 32);
  }

  /** On that router two road warriors are added one after the other, and their routes overlap. */
  lemma SecondWarriorCollides() returns (r: Router, r1: Router, r2: Router)
    ensures IsWideRouter(r) && Isolated(r)
    ensures AddPeer(r, RoadWarrior("a")) == (r1, Done) && Isolated(r1)
    ensures AddPeer(r1, RoadWarrior("b")) == (r2, Done) && !Isolated(r2)
  {
    r := Router([], [], [], Some(Masked(Addr(128, 0xFD00_0000_0000_0000_0000_0000_0000_0001), 64)), "key", []);
    WideRouterHasPool(r);
    r1, r2 := TwoWarriors(r, "a", "b");
  }

  /** The same on every IPv6 pool of length 32 or more that is not tiny. */
  lemma TwoWarriors(r: Router, a: string, b: string) returns (r1: Router, r2: Router)
    requires HasPool(r) && Pool(r).width == 128 && Pool(r).len >= 32 && Size(Pool(r)) >= 8 && r.peers == [] && a != b
    ensures AddPeer(r, RoadWarrior(a)) == (r1, Done) && Isolated(r1)
    ensures AddPeer(r1, RoadWarrior(b)) == (r2, Done) && !Isolated(r2)
  {
    r1, r2 := BothCommit(r, RoadWarrior(a), RoadWarrior(b));
    WarriorPasses(r, a);
    WarriorPasses(r1, b);
    FirstWarrior(r, RoadWarrior(a));
    AddKeepsIsolationExactlyWhen(r1, RoadWarrior(b));
  }

  lemma WarriorPasses(r: Router, name: string)
    ensures AddPeer(r, RoadWarrior(name)) == AddCommit(r, RoadWarrior(name))
  {
  }

  lemma FirstWarrior(r: Router, q: AddRequest)
    requires HasPool(r) && Pool(r).width == 128 && Pool(r).len >= 32 && r.peers == [] && AddPeer(r, q).1 == Done
    ensures var r1 := AddPeer(r, q).0;
            Isolated(r1) && HasPool(r1) && Pool(r1) == Pool(r) && RoutedBySomePeer(r1, Around(r1))
  {
    AddKeepsIsolationExactlyWhen(r, q);
    assert Pool(AddPeer(r, q).0) == Pool(r);
  }

  // ------------------------------------------------------- concurrent adds

  /** What can happen under the lock, whatever was checked before it. */
  datatype Locked =
    | Commit(add: AddRequest)
    | Append(peer: Peer)
    | Drop(index: nat)

  function Under(r: Router, x: Locked): Router {
    match x
    case Commit(q) => AddCommit(r, q).0
    case Append(p) => AppendPeer(r, p).0
    case Drop(i) => if i < |r.peers| then r.(peers := RemoveAt(r.peers, i)) else r
  }

  function Interleaved(r: Router, xs: seq<Locked>): Router {
    if xs == [] then r else Under(Interleaved(r, xs[..|xs| - 1]), xs[|xs| - 1])
  }

  /** Peers that AddPeer made hold the private key it generated; wizard peers hold none. */
  predicate Issued(p: Peer) {
    p.privateKey != ""
  }

  predicate LockedOk(x: Locked) {
    && (x.Commit? ==> x.add.privateKey != "")
    && (x.Append? ==> !Issued(x.peer))
  }

  ghost predicate TunnelsDistinct(r: Router) {
    && (forall i :: 0 <= i < |r.peers| && Issued(r.peers[i]) ==>
          HasPool(r) && HasFirst(r.peers[i], Pool(r).width))
    && (forall i, j :: 0 <= i < j < |r.peers| && Issued(r.peers[i]) && Issued(r.peers[j]) ==>
          r.peers[i].allowed[0].addr != r.peers[j].allowed[0].addr)
  }

  lemma CommitKeepsDistinct(r: Router, q: AddRequest)
    requires TunnelsDistinct(r) && q.privateKey != ""
    ensures TunnelsDistinct(AddCommit(r, q).0) && AddCommit(r, q).0 == r.(peers := AddCommit(r, q).0.peers)
  {
    if AddCommit(r, q).1 == Done {
      NewTunnelIsFresh(r, NextTunnel(r).value);
    }
  }

  lemma DropKeepsDistinct(r: Router, i: nat)
    requires TunnelsDistinct(r) && i < |r.peers|
    ensures TunnelsDistinct(r.(peers := RemoveAt(r.peers, i)))
  {
    var after := RemoveAt(r.peers, i);
    assert forall k :: 0 <= k < |after| ==> after[k] == r.peers[if k < i then k else k + 1];
  }

  /**
   However the critical sections of concurrent adds, joins and removals interleave, no two issued
   peers share a tunnel address.
   */
  lemma {:induction false} ConcurrentAddsNeverShareAnAddress(r: Router, xs: seq<Locked>)
    requires TunnelsDistinct(r)
    requires forall k :: 0 <= k < |xs| ==> LockedOk(xs[k])
    ensures TunnelsDistinct(Interleaved(r, xs))
    ensures Interleaved(r, xs) == r.(peers := Interleaved(r, xs).peers)
  {
    if xs != [] {
      var front, last := xs[..|xs| - 1], xs[|xs| - 1];
      ConcurrentAddsNeverShareAnAddress(r, front);
      var b := Interleaved(r, front);
      match last
      case Commit(q) => CommitKeepsDistinct(b, q);
      case Append(p) =>
      case Drop(i) => if i < |b.peers| { DropKeepsDistinct(b, i); }
    }
  }

  // ------------------------------------------------------- checks that have gone stale

  /** What a request routes beyond its tunnel address. */
  function Claims(q: AddRequest): seq<Entry> {
    if q.siteToSite then q.remote else []
  }

  lemma NewPeerParts(r: Router, q: AddRequest, e: Entry)
    requires HasPool(r) && NextTunnel(r).Some?
    ensures e in NewPeer(r, q, NextTunnel(r).value).allowed <==> e == NextEntry(r) || e in Claims(q)
  {
    var p := NewPeer(r, q, NextTunnel(r).value);
    assert p.allowed == [NextEntry(r)] + Claims(q);
  }

  /**
   The subnet check runs before the lock. An add that was checked against an earlier peer list, and
   commits whatever has happened to the list since, keeps the peers isolated exactly when no peer now
   routes anything in its tunnel entry or in a subnet it claims.
   */
  lemma StaleAddKeepsExactlyWhen(checked: Router, r: Router, q: AddRequest)
    requires r == checked.(peers := r.peers) && AddCheck(checked, q) == Done
    requires Isolated(r) && AddCommit(r, q).1 == Done
    ensures Isolated(AddCommit(r, q).0) <==>
            !RoutedBySomePeer(r, NextEntry(r)) && forall c :: c in Claims(q) ==> !RoutedBySomePeer(r, c)
  {
    var p, r' := NewPeer(r, q, NextTunnel(r).value), AddCommit(r, q).0;
    if e :| e in p.allowed && RoutedBySomePeer(r, e) {
      RoutedTwice(r, p, e);
    } else {
      NewTunnelIsFresh(r, NextTunnel(r).value);
      StaleClaimsAreFine(checked, r, q.remote);
      assert PeerOk(r, p);
      forall i | 0 <= i < |r.peers| ensures Apart(r.peers[i], p) {
        forall a, b | a in r.peers[i].allowed && b in p.allowed ensures !Share(a, b) {
          assert !RoutedBySomePeer(r, b);
        }
      }
      AppendKeeps(r, p);
    }
    forall e ensures e in p.allowed <==> e == NextEntry(r) || e in Claims(q) {
      NewPeerParts(r, q, e);
    }
  }

  lemma RoutedTwice(r: Router, p: Peer, e: Entry)
    requires e in p.allowed && RoutedBySomePeer(r, e)
    ensures !Isolated(r.(peers := r.peers + [p]))
  {
    var r' := r.(peers := r.peers + [p]);
    var i, a :| 0 <= i < |r.peers| && a in r.peers[i].allowed && Share(a, e);
    assert r'.peers[i] == r.peers[i] && r'.peers[|r.peers|] == p;
    assert !Apart(r'.peers[i], r'.peers[|r.peers|]);
  }

  lemma StaleClaimsAreFine(checked: Router, r: Router, remote: seq<Entry>)
    requires r == checked.(peers := r.peers) && CheckRemote(checked, remote) == Done
    ensures forall c :: c in remote ==> PrivateLan(c) && ClearOf(c, Locals(r))
  {
    assert Locals(r) == Locals(checked);
    forall c | c in remote ensures PrivateLan(c) && ClearOf(c, Locals(r)) {
      CheckedRemoteIsClear(checked, remote, c);
    }
  }

  /** The same for the peer of an invite or a join, which routes its remote subnets alone. */
  lemma StaleWizardKeepsExactlyWhen(checked: Router, r: Router, p: Peer)
    requires r == checked.(peers := r.peers) && CheckRemote(checked, p.remote) == Done && p.allowed == p.remote
    requires Isolated(r)
    ensures Isolated(AppendPeer(r, p).0) <==>
            NameTaken(r, p.name) || forall c :: c in p.remote ==> !RoutedBySomePeer(r, c)
  {
    if !NameTaken(r, p.name) {
      if c :| c in p.remote && RoutedBySomePeer(r, c) {
        RoutedTwice(r, p, c);
      } else {
        StaleClaimsAreFine(checked, r, p.remote);
        forall i | 0 <= i < |r.peers| ensures Apart(r.peers[i], p) {
          forall a, b | a in r.peers[i].allowed && b in p.allowed ensures !Share(a, b) {
            assert !RoutedBySomePeer(r, b);
          }
        }
        AppendKeeps(r, p);
      }
    }
  }

  /** Two requests claim an address in common. */
  ghost predicate ClaimsMeet(q: AddRequest, q': AddRequest) {
    exists a, b :: a in Claims(q) && b in Claims(q') && Share(a, b)
  }

  /**
   Two adds on an IPv4 pool that were both checked before either took the lock leave the peers isolated
   exactly when the subnets they claim share no address.
   */
  lemma RacingAddsExactlyWhen(r: Router, q: AddRequest, q': AddRequest)
    requires Isolated(r) && V4Pool(r) && AddCheck(r, q) == Done && AddCheck(r, q') == Done
    requires AddCommit(r, q).1 == Done && AddCommit(AddCommit(r, q).0, q').1 == Done
    ensures Isolated(AddCommit(r, q).0)
    ensures Isolated(AddCommit(AddCommit(r, q).0, q').0) <==> !ClaimsMeet(q, q')
  {
    var r1 := AddCommit(r, q).0;
    assert AddPeer(r, q) == AddCommit(r, q);
    AddKeeps(r, q);
    StaleAddKeepsExactlyWhen(r, r1, q');
    V4EntryIsFree(r1);
    forall c | c in Claims(q') ensures RoutedBySomePeer(r1, c) <==> exists a :: a in Claims(q) && Share(a, c) {
      RoutedByTheRacer(r, q, q', c);
    }
  }

  /** On an IPv4 pool no peer routes the address that is handed out next. */
  lemma V4EntryIsFree(r: Router)
    requires Isolated(r) && V4Pool(r) && HasPool(r) && NextTunnel(r).Some?
    ensures !RoutedBySomePeer(r, NextEntry(r))
  {
    NewTunnelIsFresh(r, NextTunnel(r).value);
    forall i, a | 0 <= i < |r.peers| && a in r.peers[i].allowed ensures !Share(a, NextEntry(r)) {
      EntryClearOfTunnel(r, i, a, NextEntry(r));
    }
  }

  /** Of the peers after the first commit only the new one can route what the second checked before. */
  lemma RoutedByTheRacer(r: Router, q: AddRequest, q': AddRequest, c: Entry)
    requires Isolated(r) && V4Pool(r) && AddCheck(r, q') == Done && AddCommit(r, q).1 == Done && c in Claims(q')
    ensures RoutedBySomePeer(AddCommit(r, q).0, c) <==> exists a :: a in Claims(q) && Share(a, c)
  {
    var r1, p, t := AddCommit(r, q).0, NewPeer(r, q, NextTunnel(r).value), NextEntry(r);
    CheckedRemoteIsClear(r, q'.remote, c);
    NewTunnelIsFresh(r, NextTunnel(r).value);
    TunnelClearOfRemote(r, t, c);
    forall e ensures e in p.allowed <==> e == t || e in Claims(q) {
      NewPeerParts(r, q, e);
    }
    if a :| a in Claims(q) && Share(a, c) {
      assert a in r1.peers[|r.peers|].allowed;
    }
    forall i, a | 0 <= i < |r.peers| && a in r.peers[i].allowed ensures !Share(a, c) {
      ClashIsShare(a, c);
    }
    if RoutedBySomePeer(r1, c) {
      var i, a :| 0 <= i < |r1.peers| && a in r1.peers[i].allowed && Share(a, c);
      assert r1.peers == r.peers + [p];
    }
  }

  // ------------------------------------------------------- a race that happens

  /** Two adds of one network that pass the check together both commit, and their routes overlap. */
  lemma SameNetworkTwice(r: Router, q: AddRequest, q': AddRequest) returns (r1: Router, r2: Router)
    requires HasPool(r) && Pool(r).width == 32 && Pool(r).len >= 1 && Size(Pool(r)) >= 8 && r.peers == []
    requires AddCheck(r, q) == Done && AddCheck(r, q') == Done && q.name != q'.name
    requires q.siteToSite && q'.siteToSite && q.remote == q'.remote && q.remote != []
    ensures AddCommit(r, q) == (r1, Done) && AddCommit(r1, q') == (r2, Done) && !Isolated(r2)
  {
    r1, r2 := BothCommit(r, q, q');
    ClaimsMeetThemselves(r, q, q');
    RacingAddsExactlyWhen(r, q, q');
  }

  lemma BothCommit(r: Router, q: AddRequest, q': AddRequest) returns (r1: Router, r2: Router)
    requires HasPool(r) && Pool(r).len >= 1 && Size(Pool(r)) >= 8 && r.peers == [] && q.name != q'.name
    ensures AddCommit(r, q) == (r1, Done) && AddCommit(r1, q') == (r2, Done)
  {
    AddressLeft(r);
    r1 := AddCommit(r, q).0;
    assert Pool(r1) == Pool(r) && |r1.peers| == 1 && r1.peers[0].name == q.name;
    AddressLeft(r1);
    r2 := AddCommit(r1, q').0;
  }

  lemma ClaimsMeetThemselves(r: Router, q: AddRequest, q': AddRequest)
    requires AddCheck(r, q) == Done && q.siteToSite && q'.siteToSite && q.remote == q'.remote && q.remote != []
    ensures ClaimsMeet(q, q')
  {
    var c := q.remote[0];
    CheckedRemoteIsClear(r, q.remote, c);
    assert Contains(Network(c), c.addr);
    assert Share(c, c) && c in Claims(q) && c in Claims(q');
  }

  /** A router whose server address is 10.8.0.1 in a pool of 10.8.0.0/24, with no peers yet. */
  predicate IsNarrowRouter(r: Router) {
    && r.lans == [] && r.vlans == [] && r.openVpn == [] && r.peers == []
    && r.server == Some(Masked(Addr(32, 0x0A08_0001), 24))
  }

  /** A request that claims 192.168.5.0/24. */
  predicate IsBranch(q: AddRequest) {
    q.siteToSite && q.endpointOk && q.keysOk && q.remote == [Net(Addr(32, 0xC0A8_0500), 24)]
  }

  lemma NarrowPool(r: Router)
    requires IsNarrowRouter(r)
    ensures HasPool(r) && Pool(r) == Prefix(32, 0x0A08_0000, 24) && Size(Pool(r)) == 256
  {
    Powers();
    assert Pow2(8) == 256;
  }

  lemma BranchNetwork(e: Entry)
    requires e == Net(Addr(32, 0xC0A8_0500), 24)
    ensures Parses(e) && Network(e) == Prefix(32, 0xC0A8_0500, 24) && Size(Network(e)) == 256
  {
    Powers();
    assert Pow2(8) == 256;
  }

  lemma BranchIsPrivate(e: Entry)
    requires Parses(e) && Network(e) == Prefix(32, 0xC0A8_0500, 24) && Size(Network(e)) == 256
    ensures PrivateLan(e)
  {
    PrivateRanges(BaseOf(Network(e)));
    PrivateRanges(LastOf(Network(e)));
  }

  lemma BranchIsChecked(r: Router, q: AddRequest)
    requires IsNarrowRouter(r) && IsBranch(q)
    ensures AddCheck(r, q) == Done
  {
    NarrowPool(r);
    BranchNetwork(q.remote[0]);
    BranchIsPrivate(q.remote[0]);
    LoneNetworkIsChecked(r, q, q.remote[0]);
  }

  /** A private network past the pool, on a router with no other networks. */
  lemma LoneNetworkIsChecked(r: Router, q: AddRequest, e: Entry)
    requires q.remote == [e] && q.endpointOk && q.keysOk && PrivateLan(e)
    requires HasPool(r) && r.lans == [] && r.vlans == [] && r.openVpn == [] && r.peers == []
    requires Pool(r).base + Size(Pool(r)) <= Network(e).base
    ensures AddCheck(r, q) == Done
  {
    ServerSubnetIsPool(r);
    NoClashPast(e, AddressToSubnet(r.server.value));
    LoneServer(r);
    LoneCheck(r, q, e, AddressToSubnet(r.server.value));
  }

  lemma NoClashPast(e: Entry, s: Entry)
    requires Parses(e) && Parses(s) && Network(s).base + Size(Network(s)) <= Network(e).base
    ensures !Clash(e, s)
  {
    FarApart(Network(e), Network(s));
  }

  lemma LoneCheck(r: Router, q: AddRequest, e: Entry, s: Entry)
    requires q.remote == [e] && q.endpointOk && q.keysOk && PrivateLan(e) && Claimed(r) == [s] && !Clash(e, s)
    ensures AddCheck(r, q) == Done
  {
  }

  lemma LoneServer(r: Router)
    requires HasPool(r) && r.lans == [] && r.vlans == [] && r.openVpn == [] && r.peers == []
    ensures Claimed(r) == [AddressToSubnet(r.server.value)]
  {
  }

  lemma FarApart(p: Prefix, q: Prefix)
    requires ValidPrefix(p) && ValidPrefix(q) && q.base + Size(q) <= p.base
    ensures !Contains(p, BaseOf(q)) && !Contains(q, BaseOf(p))
  {
    ContainsIsRange(p, BaseOf(q));
    ContainsIsRange(q, BaseOf(p));
  }

  /** Two adds of that branch on that router race, and their routes overlap. */
  lemma RacingAddsOverlap(r: Router, q: AddRequest, q': AddRequest) returns (r1: Router, r2: Router)
    requires IsNarrowRouter(r) && IsBranch(q) && IsBranch(q') && q.name != q'.name
    ensures Isolated(r) && AddCheck(r, q) == Done && AddCheck(r, q') == Done
    ensures AddCommit(r, q) == (r1, Done) && AddCommit(r1, q') == (r2, Done) && !Isolated(r2)
  {
    NarrowPool(r);
    BranchIsChecked(r, q);
    BranchIsChecked(r, q');
    r1, r2 := SameNetworkTwice(r, q, q');
  }

  /** There are such a router and such requests. */
  lemma RaceHappens() returns (r: Router, q: AddRequest, q': AddRequest, r1: Router, r2: Router)
    ensures IsNarrowRouter(r) && IsBranch(q) && IsBranch(q')
    ensures Isolated(r) && AddCheck(r, q) == Done && AddCheck(r, q') == Done
    ensures AddCommit(r, q) == (r1, Done) && AddCommit(r1, q') == (r2, Done) && !Isolated(r2)
  {
    r := Router([], [], [], Some(Masked(Addr(32, 0x0A08_0001), 24)), "key", []);
    q := AddRequest("a", true, [Net(Addr(32, 0xC0A8_0500), 24)], true, true, "public", "private", "psk");
    q' := q.(name := "b");
    r1, r2 := RacingAddsOverlap(r, q, q');
  }
}
