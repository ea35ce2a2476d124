/**
 The site-to-site join between any number of routers: invite, consume, finalize, with
 cancels, removals, sweeps, LAN edits and manual adds interleaved in any order.

 Tokens may be lost, delayed, replayed and handed to any router. A preshared key is fresh
 when generated. An outsider knows none of the generated ones, so it can make up tokens
 only under other keys (the MAC is symbolic).
 */
module SiteToSite {
  import opened Cidr
  import opened Core
  import opened Vpn
  import opened VpnOutcomes

  /** An invite a router issued, with the LAN networks it announced. */
  datatype Issued = Issued(who: nat, invite: Invite, lans: set<Prefix>)

  /** An ack a router made and when, with the invite it answers, its LAN networks then and the peer it registered. */
  datatype Made = Made(who: nat, ack: Ack, at: int, invite: Invite, lans: set<Prefix>, peer: Peer)

  /** `keys` are all preshared keys seen so far; `generated` are those a router drew itself. */
  datatype Sys = Sys(
    routers: map<nat, Router>,
    keys: set<string>,
    generated: set<string>,
    issued: set<Issued>,
    made: set<Made>
  )

  datatype Event =
    | Create(id: nat, create: InviteRequest, now: int)
    | AddManual(id: nat, add: AddRequest)
    | Consume(id: nat, invite: Invite, now: int)
    | Finalize(id: nat, name: string, ack: Ack, now: int)
    | Cancel(id: nat, name: string)
    | Remove(id: nat, name: string)
    | Sweep(id: nat, now: int)
    | SetLans(id: nat, lans: seq<Address>)
    | EnsureKey(id: nat, publicKey: string)

  /**
   Generated keys are new; tokens carrying a generated key are ones a router really made. An add whose
   key could not be drawn goes on with an empty one, which anybody can guess.
   */
  ghost predicate Admissible(s: Sys, e: Event) {
    && e.id in s.routers
    && (match e
        case Create(_, q, _) => q.psk != "" && q.psk !in s.keys
        case AddManual(_, q) => q.psk == "" || q.psk !in s.keys
        case Consume(_, inv, _) => inv.psk in s.generated ==> exists i :: i in s.issued && i.invite == inv
        case Finalize(_, _, ack, _) => ack.macKey in s.generated ==> exists m :: m in s.made && m.ack == ack
        case _ => true)
  }

  function LanNetworks(r: Router): set<Prefix> {
    Networks(Subnets(r.lans))
  }

  function Step(s: Sys, e: Event): Sys
    requires e.id in s.routers
  {
    var r := s.routers[e.id];
    match e
    case Create(id, q, now) =>
      var (r', o) := CreateInvite(r, q, now);
      s.(routers := s.routers[id := r'],
         keys := s.keys + {q.psk}, generated := s.generated + {q.psk},
         issued := if o == Done then s.issued + {Issued(id, InviteToken(r, q, now), LanNetworks(r))} else s.issued)
    case AddManual(id, q) =>
      s.(routers := s.routers[id := AddPeer(r, q).0],
         keys := s.keys + {q.psk}, generated := s.generated + ({q.psk} - {""}))
    case Consume(id, inv, now) =>
      var (r', o) := ConsumeInvite(r, inv, now);
      s.(routers := s.routers[id := r'],
         keys := s.keys + {inv.psk},
         made := if o != Done then s.made
                 else s.made + {Made(id, AckToken(r, inv), now, inv, LanNetworks(r), JoinedPeer(inv))})
    case Finalize(id, name, ack, now) => s.(routers := s.routers[id := FinalizeInvite(r, name, ack, now).0])
    case Cancel(id, name) => s.(routers := s.routers[id := CancelInvite(r, name).0])
    case Remove(id, name) => s.(routers := s.routers[id := RemovePeer(r, name).0])
    case Sweep(id, now) => s.(routers := s.routers[id := GC(r, now)])
    case SetLans(id, lans) => s.(routers := s.routers[id := r.(lans := lans)])
    case EnsureKey(id, publicKey) =>
      s.(routers := s.routers[id := if r.publicKey == "" then r.(publicKey := publicKey) else r])
  }

  /** A run; an event that cannot happen is skipped. */
  ghost function Run(s0: Sys, es: seq<Event>): Sys {
    if es == [] then s0
    else
      var b := Run(s0, es[..|es| - 1]);
      if Admissible(b, es[|es| - 1]) then Step(b, es[|es| - 1]) else b
  }

  /** Routers that have not exchanged anything yet. */
  predicate Untouched(s: Sys) {
    s.issued == {} && s.made == {} && "" !in s.generated && forall id :: id in s.routers ==> s.routers[id].peers == []
  }

  // ------------------------------------------------------- the invariant

  /** What an issued invite still says about its issuer. */
  ghost predicate IssuedOk(s: Sys, i: Issued) {
    && i.who in s.routers
    && i.invite.publicKey == s.routers[i.who].publicKey != ""
    && i.invite.psk in s.keys && i.invite.psk in s.generated
    && i.invite.expires.Some?
    && i.lans == Networks(i.invite.remote)
  }

  /** What an ack says about its maker and the invite it answers. */
  ghost predicate MadeOk(s: Sys, m: Made) {
    && m.who in s.routers
    && m.ack.publicKey == s.routers[m.who].publicKey != ""
    && m.ack.name == m.invite.name
    && m.ack.macKey == m.invite.psk && m.invite.psk in s.keys
    && (m.invite.expires.Some? ==> m.at <= m.invite.expires.value)
    && m.lans == Networks(m.invite.expected)
    && m.peer == JoinedPeer(m.invite)
    && (forall i :: i in s.issued && i.invite.psk == m.invite.psk ==> i.invite == m.invite)
    && (forall k :: 0 <= k < |s.routers[m.who].peers| ==> !Awaits(s.routers[m.who].peers[k], m.invite.psk))
  }

  /** A router never waits for an answer under a key it has itself joined with. */
  predicate Awaits(p: Peer, psk: string) {
    p.pending && p.psk == psk
  }

  /** Where a peer of router `id` comes from. */
  ghost predicate PeerFrom(s: Sys, id: nat, p: Peer) {
    && p.psk in s.keys
    && (p.pending ==> exists i :: i in s.issued && i.who == id && Pends(i.invite, p))
    && (forall i :: i in s.issued && i.invite.psk == p.psk && i.who != id ==> p == JoinedPeer(i.invite))
  }

  /** `p` is the pending peer `inv` was issued with. */
  predicate Pends(inv: Invite, p: Peer) {
    inv.psk == p.psk && inv.name == p.name && inv.expected == p.allowed && inv.expires == p.expires && p.pending
  }

  ghost predicate Inv(s: Sys) {
    && "" !in s.generated
    && (forall i :: i in s.issued ==> IssuedOk(s, i))
    && (forall i, j :: i in s.issued && j in s.issued && i.invite.psk == j.invite.psk ==> i == j)
    && (forall m :: m in s.made ==> MadeOk(s, m))
    && (forall id, k :: id in s.routers && 0 <= k < |s.routers[id].peers| ==> PeerFrom(s, id, s.routers[id].peers[k]))
  }

  // ------------------------------------------------------- steps keep it

  /** A step that changes one router's peers, keeps its key, and adds no token. */
  lemma PeersOnly(s: Sys, s': Sys, id: nat)
    requires Inv(s) && id in s.routers
    requires id in s'.routers && s'.routers == s.routers[id := s'.routers[id]]
    requires s'.issued == s.issued && s'.made == s.made && s.keys <= s'.keys && s.generated <= s'.generated
    requires "" !in s'.generated
    requires forall p :: p in s'.routers[id].peers && p.pending ==> p in s.routers[id].peers
    requires s'.routers[id].publicKey == s.routers[id].publicKey || s.routers[id].publicKey == ""
    requires forall k :: 0 <= k < |s'.routers[id].peers| ==> PeerFrom(s', id, s'.routers[id].peers[k])
    ensures Inv(s')
  {
    forall i | i in s'.issued ensures IssuedOk(s', i) { assert IssuedOk(s, i); }
    forall m | m in s'.made ensures MadeOk(s', m) { StillMade(s, s', id, m); }
    forall x, k | x in s'.routers && 0 <= k < |s'.routers[x].peers| ensures PeerFrom(s', x, s'.routers[x].peers[k]) {
      if x != id { assert PeerFrom(s, x, s.routers[x].peers[k]); }
    }
  }

  /** An ack is as good as before when its maker waits for nothing new. */
  lemma StillMade(s: Sys, s': Sys, id: nat, m: Made)
    requires MadeOk(s, m) && id in s.routers
    requires id in s'.routers && s'.routers == s.routers[id := s'.routers[id]]
    requires s'.issued == s.issued && s.keys <= s'.keys
    requires s'.routers[id].publicKey == s.routers[id].publicKey || s.routers[id].publicKey == ""
    requires forall p :: p in s'.routers[id].peers && p.pending ==> p in s.routers[id].peers
    ensures MadeOk(s', m)
  {
    var now, was := s'.routers[m.who].peers, s.routers[m.who].peers;
    forall k | 0 <= k < |now| ensures !Awaits(now[k], m.invite.psk) {
      if now[k].pending {
        assert now[k] in was;
        var j :| 0 <= j < |was| && was[j] == now[k];
        assert !Awaits(was[j], m.invite.psk);
      }
    }
  }

  lemma KeepsPart(s: Sys, s': Sys, id: nat)
    requires Inv(s) && id in s.routers
    requires id in s'.routers && s' == s.(routers := s.routers[id := s'.routers[id]])
    requires s'.routers[id].publicKey == s.routers[id].publicKey || s.routers[id].publicKey == ""
    requires forall p :: p in s'.routers[id].peers ==> p in s.routers[id].peers
    ensures Inv(s')
  {
    forall k | 0 <= k < |s'.routers[id].peers| ensures PeerFrom(s', id, s'.routers[id].peers[k]) {
      var p := s'.routers[id].peers[k];
      assert p in s.routers[id].peers;
      var j :| 0 <= j < |s.routers[id].peers| && s.routers[id].peers[j] == p;
      assert PeerFrom(s, id, s.routers[id].peers[j]);
    }
    PeersOnly(s, s', id);
  }

  lemma CreateKeeps(s: Sys, e: Event)
    requires Inv(s) && e.Create? && Admissible(s, e)
    ensures Inv(Step(s, e))
  {
    var s' := Step(s, e);
    var r, r' := s.routers[e.id], s'.routers[e.id];
    if CreateInvite(r, e.create, e.now).1 == Done {
      var mine := Issued(e.id, InviteToken(r, e.create, e.now), LanNetworks(r));
      assert IssuedOk(s', mine);
      forall i | i in s'.issued ensures IssuedOk(s', i) {
        if i != mine { assert IssuedOk(s, i); }
      }
      forall i, j | i in s'.issued && j in s'.issued && i.invite.psk == j.invite.psk ensures i == j {
        if i != mine { assert IssuedOk(s, i); }
        if j != mine { assert IssuedOk(s, j); }
      }
      forall m | m in s'.made ensures MadeOk(s', m) { MadeBefore(s, e, m); }
      forall x, k | x in s'.routers && 0 <= k < |s'.routers[x].peers| ensures PeerFrom(s', x, s'.routers[x].peers[k]) {
        var p := s'.routers[x].peers[k];
        if x == e.id && k == |r.peers| {
          assert p == PendingPeer(e.create, e.now) && Pends(mine.invite, p);
          assert forall i :: i in s.issued ==> IssuedOk(s, i) && i.invite.psk != e.create.psk;
        } else {
          assert p == s.routers[x].peers[k];
          assert PeerFrom(s, x, s.routers[x].peers[k]);
        }
      }
    } else {
      forall k | 0 <= k < |r'.peers| ensures PeerFrom(s', e.id, r'.peers[k]) {
        assert PeerFrom(s, e.id, r.peers[k]);
      }
      PeersOnly(s, s', e.id);
    }
  }

  /** A new invite is under a key no ack was made for. */
  lemma MadeBefore(s: Sys, e: Event, m: Made)
    requires Inv(s) && e.Create? && Admissible(s, e) && m in s.made
    ensures MadeOk(Step(s, e), m)
  {
    var s' := Step(s, e);
    assert MadeOk(s, m);
    var now, was := s'.routers[m.who].peers, s.routers[m.who].peers;
    forall k | 0 <= k < |now| ensures !Awaits(now[k], m.invite.psk) {
      if k < |was| {
        assert now[k] == was[k];
        assert !Awaits(was[k], m.invite.psk);
      }
    }
  }

  lemma AddManualKeeps(s: Sys, e: Event)
    requires Inv(s) && e.AddManual? && Admissible(s, e)
    ensures Inv(Step(s, e))
  {
    var s' := Step(s, e);
    var r, r' := s.routers[e.id], s'.routers[e.id];
    forall k | 0 <= k < |r'.peers| ensures PeerFrom(s', e.id, r'.peers[k]) {
      if k < |r.peers| {
        assert r'.peers[k] == r.peers[k];
        assert PeerFrom(s, e.id, r.peers[k]);
      } else {
        assert r'.peers[k].psk == e.add.psk && !r'.peers[k].pending;
        assert forall i :: i in s.issued ==> IssuedOk(s, i) && i.invite.psk != e.add.psk;
      }
    }
    PeersOnly(s, s', e.id);
  }

  /** A router that waits under the key of an invite has its name taken, and does not join. */
  lemma NotAwaited(s: Sys, e: Event)
    requires Inv(s) && e.Consume? && Admissible(s, e)
    ensures var r := s.routers[e.id];
            ConsumeInvite(r, e.invite, e.now).1 == Done ==>
            forall k :: 0 <= k < |ConsumeInvite(r, e.invite, e.now).0.peers| ==>
              !Awaits(ConsumeInvite(r, e.invite, e.now).0.peers[k], e.invite.psk)
  {
    var r := s.routers[e.id];
    forall k | 0 <= k < |r.peers| && Awaits(r.peers[k], e.invite.psk) ensures r.peers[k].name == e.invite.name {
      assert PeerFrom(s, e.id, r.peers[k]);
      var i :| i in s.issued && i.who == e.id && Pends(i.invite, r.peers[k]);
      assert IssuedOk(s, i);
      var j :| j in s.issued && j.invite == e.invite;
    }
  }

  /** An invite under a key that some invite was issued with is that invite. */
  lemma GenuineInvite(s: Sys, e: Event)
    requires Inv(s) && e.Consume? && Admissible(s, e)
    ensures forall i :: i in s.issued && i.invite.psk == e.invite.psk ==> i.invite == e.invite
  {
    forall i | i in s.issued && i.invite.psk == e.invite.psk ensures i.invite == e.invite {
      assert IssuedOk(s, i);
    }
  }

  /** The join but for the ack it leaves. */
  lemma JoinKeeps(s: Sys, e: Event)
    requires Inv(s) && e.Consume? && Admissible(s, e)
    ensures Inv(Step(s, e).(made := s.made))
  {
    var quiet := Step(s, e).(made := s.made);
    var r, r' := s.routers[e.id], quiet.routers[e.id];
    GenuineInvite(s, e);
    forall k | 0 <= k < |r'.peers| ensures PeerFrom(quiet, e.id, r'.peers[k]) {
      if k < |r.peers| {
        assert r'.peers[k] == r.peers[k];
        assert PeerFrom(s, e.id, r.peers[k]);
      } else {
        assert r'.peers[k] == JoinedPeer(e.invite);
      }
    }
    PeersOnly(s, quiet, e.id);
  }

  lemma NewAckIsOk(s: Sys, e: Event)
    requires Inv(s) && e.Consume? && Admissible(s, e)
    ensures forall m :: m in Step(s, e).made && m !in s.made ==> MadeOk(Step(s, e), m)
  {
    GenuineInvite(s, e);
    SameSubnetsIsSetEquality(e.invite.expected, Subnets(s.routers[e.id].lans));
    NotAwaited(s, e);
  }

  lemma ConsumeKeeps(s: Sys, e: Event)
    requires Inv(s) && e.Consume? && Admissible(s, e)
    ensures Inv(Step(s, e))
  {
    var s' := Step(s, e);
    var quiet := s'.(made := s.made);
    JoinKeeps(s, e);
    NewAckIsOk(s, e);
    forall m | m in s'.made ensures MadeOk(s', m) {
      if m in s.made { assert MadeOk(quiet, m); }
    }
    forall i | i in s'.issued ensures IssuedOk(s', i) { assert IssuedOk(quiet, i); }
    forall x, k | x in s'.routers && 0 <= k < |s'.routers[x].peers| ensures PeerFrom(s', x, s'.routers[x].peers[k]) {
      assert PeerFrom(quiet, x, quiet.routers[x].peers[k]);
    }
  }

  lemma FinalizeStepKeeps(s: Sys, e: Event)
    requires Inv(s) && e.Finalize? && Admissible(s, e)
    ensures Inv(Step(s, e))
  {
    var s' := Step(s, e);
    var r, r' := s.routers[e.id], s'.routers[e.id];
    assert |r'.peers| == |r.peers|;
    forall k | 0 <= k < |r'.peers| ensures PeerFrom(s', e.id, r'.peers[k]) {
      assert PeerFrom(s, e.id, r.peers[k]);
      if r'.peers[k] != r.peers[k] {
        assert r.peers[k].pending && r'.peers[k].psk == r.peers[k].psk && !r'.peers[k].pending;
        var i :| i in s.issued && i.who == e.id && Pends(i.invite, r.peers[k]);
        assert forall j :: j in s.issued && j.invite.psk == r.peers[k].psk ==> j == i;
      }
    }
    PeersOnly(s, s', e.id);
  }

  lemma StepKeeps(s: Sys, e: Event)
    requires Inv(s) && Admissible(s, e)
    ensures Inv(Step(s, e))
  {
    match e
    case Create(_, _, _) => CreateKeeps(s, e);
    case AddManual(_, _) => AddManualKeeps(s, e);
    case Consume(_, _, _) => ConsumeKeeps(s, e);
    case Finalize(_, _, _, _) => FinalizeStepKeeps(s, e);
    case Sweep(id, now) =>
      SweepKeepsExactlyTheLive(s.routers[id].peers, now);
      KeepsPart(s, Step(s, e), id);
    case _ => KeepsPart(s, Step(s, e), e.id);
  }

  lemma {:induction false} RunKeeps(s0: Sys, es: seq<Event>)
    requires Untouched(s0)
    ensures Inv(Run(s0, es))
  {
    if es != [] {
      var b := Run(s0, es[..|es| - 1]);
      RunKeeps(s0, es[..|es| - 1]);
      if Admissible(b, es[|es| - 1]) {
        StepKeeps(b, es[|es| - 1]);
      }
    }
  }

  /** In every run, no ack is made after the expiry of the invite it answers. */
  lemma NoAckAfterExpiry(s0: Sys, es: seq<Event>)
    requires Untouched(s0)
    ensures forall m :: m in Run(s0, es).made && m.invite.expires.Some? ==> m.at <= m.invite.expires.value
  {
    RunKeeps(s0, es);
    assert forall m :: m in Run(s0, es).made ==> MadeOk(Run(s0, es), m);
  }

  // ------------------------------------------------------- agreement

  /** The two ends of a link agree: `p` on router `a`, `m.peer` as router `m.who` registered it. */
  ghost predicate Agree(s: Sys, a: nat, p: Peer, m: Made, i: Issued) {
    && a in s.routers && m.who in s.routers
    && i.who == a && m.invite == i.invite
    // each side holds the other's server key, and both the same preshared key
    && p.publicKey == s.routers[m.who].publicKey != ""
    && m.peer.publicKey == s.routers[a].publicKey != ""
    && p.psk == m.peer.psk
    // each side routes exactly the other's LANs
    && Networks(p.allowed) == m.lans
    && Networks(m.peer.allowed) == i.lans
    // the joining side holds nothing else under this key
    && (forall q :: q in s.routers[m.who].peers && q.psk == p.psk ==> q == m.peer)
  }

  /** The finalized peer stays where it was, with the ack's key. */
  lemma FinalizedInPlace(r: Router, name: string, ack: Ack, now: int)
    requires FinalizeInvite(r, name, ack, now).1 == Done
    ensures
      var r', k := FinalizeInvite(r, name, ack, now).0, IndexOf(r.peers, name);
      && k < |r.peers| == |r'.peers| && IndexOf(r'.peers, name) == k
      && r'.peers[k] == Finalized(r.peers[k], ack.publicKey)
  {
    var r', k := FinalizeInvite(r, name, ack, now).0, IndexOf(r.peers, name);
    assert r'.peers[k].name == name;
    assert forall x :: 0 <= x < k ==> r'.peers[x] == r.peers[x];
  }

  lemma OnlyTheJoinedPeer(s: Sys, m: Made, i: Issued, psk: string)
    requires Inv(s) && m in s.made && i in s.issued && m.invite == i.invite && m.who != i.who
    requires m.who in s.routers && psk == i.invite.psk
    ensures forall q :: q in s.routers[m.who].peers && q.psk == psk ==> q == m.peer
  {
    assert MadeOk(s, m) && IssuedOk(s, i);
    forall q | q in s.routers[m.who].peers && q.psk == psk ensures q == m.peer {
      var x :| 0 <= x < |s.routers[m.who].peers| && s.routers[m.who].peers[x] == q;
      assert PeerFrom(s, m.who, s.routers[m.who].peers[x]);
    }
  }

  /**
   Whatever happened before, a finalize that succeeds on router `e.id` answers an unexpired invite
   of that router, with an ack another router made for that very invite, and leaves the two ends in
   agreement.
   */
  lemma FinalizeMeansAgreement(s0: Sys, es: seq<Event>, s: Sys, e: Event) returns (m: Made, i: Issued)
    requires Untouched(s0) && s == Run(s0, es)
    requires e.Finalize? && Admissible(s, e)
    requires FinalizeInvite(s.routers[e.id], e.name, e.ack, e.now).1 == Done
    ensures m in s.made && m.ack == e.ack && m.who != e.id && i in s.issued
    ensures i.invite.expires.Some? && m.at <= i.invite.expires.value && e.now <= i.invite.expires.value
    ensures
      var s' := Step(s, e);
      var k := IndexOf(s'.routers[e.id].peers, e.name);
      && k < |s'.routers[e.id].peers|
      && !s'.routers[e.id].peers[k].pending
      && Agree(s', e.id, s'.routers[e.id].peers[k], m, i)
  {
    RunKeeps(s0, es);
    var s' := Step(s, e);
    StepKeeps(s, e);
    var r := s.routers[e.id];
    var k := IndexOf(r.peers, e.name);
    FinalizedInPlace(r, e.name, e.ack, e.now);
    assert PeerFrom(s, e.id, r.peers[k]);
    i :| i in s.issued && i.who == e.id && Pends(i.invite, r.peers[k]);
    m :| m in s.made && m.ack == e.ack;
    assert MadeOk(s, m) && IssuedOk(s, i) && MadeOk(s', m) && IssuedOk(s', i);
    assert Awaits(r.peers[k], m.invite.psk);
    OnlyTheJoinedPeer(s', m, i, r.peers[k].psk);
  }

  // ------------------------------------------------------- a join goes through

  /** What the inviting router needs. */
  ghost predicate CanInvite(r: Router, q: InviteRequest) {
    && q.nameOk && q.endpointOk && q.keyOk && q.fieldsOk && r.publicKey != ""
    && q.expected != [] && r.lans != [] && Claimable(r, q.expected) && !Named(r.peers, q.name)
  }

  /** What the joining router needs: the networks expected of it are its LANs, and the others' LANs are claimable. */
  ghost predicate CanJoin(r: Router, q: InviteRequest, lans: seq<Address>) {
    && r.publicKey != "" && Networks(q.expected) == LanNetworks(r)
    && Claimable(r, Subnets(lans)) && !Named(r.peers, q.name)
  }

  lemma InviteIsIssued(s: Sys, a: nat, q: InviteRequest, now: int)
    requires Inv(s) && a in s.routers && q.psk != "" && q.psk !in s.keys && CanInvite(s.routers[a], q)
    ensures Admissible(s, Create(a, q, now))
    ensures var r, s1 := s.routers[a], Step(s, Create(a, q, now));
            && s1.routers == s.routers[a := r.(peers := r.peers + [PendingPeer(q, now)])]
            && Issued(a, InviteToken(r, q, now), LanNetworks(r)) in s1.issued
  {
    CreateIsDoneExactlyWhen(s.routers[a], q, now);
  }

  lemma InviteIsJoined(s: Sys, b: nat, q: InviteRequest, issuer: Router, from: int, now: int)
    requires b in s.routers && CanInvite(issuer, q) && CanJoin(s.routers[b], q, issuer.lans)
    requires now <= from + INVITE_TTL
    requires exists i :: i in s.issued && i.invite == InviteToken(issuer, q, from)
    ensures var inv := InviteToken(issuer, q, from);
            var r, s2 := s.routers[b], Step(s, Consume(b, inv, now));
            && Admissible(s, Consume(b, inv, now))
            && s2.routers == s.routers[b := r.(peers := r.peers + [JoinedPeer(inv)])]
            && s2.issued == s.issued
            && Made(b, AckToken(r, inv), now, inv, LanNetworks(r), JoinedPeer(inv)) in s2.made
  {
    var inv := InviteToken(issuer, q, from);
    assert inv.remote != [];
    assert forall i :: 0 <= i < |q.expected| ==> Fits(issuer, q.expected[i]);
    ConsumeIsDoneExactlyWhen(s.routers[b], inv, now);
  }

  lemma AckIsTaken(r: Router, peers: seq<Peer>, q: InviteRequest, ack: Ack, from: int, now: int)
    requires r.peers == peers + [PendingPeer(q, from)] && !Named(peers, q.name) && now <= from + INVITE_TTL
    requires ack.version == INVITE_VERSION && ack.fieldsOk && ack.name == q.name && ack.macKey == q.psk
    ensures FinalizeInvite(r, q.name, ack, now) ==
            (r.(peers := peers + [Finalized(PendingPeer(q, from), ack.publicKey)]), Done)
  {
    var n := |peers|;
    assert r.peers[n] == PendingPeer(q, from);
    assert forall k :: 0 <= k < n ==> r.peers[k] == peers[k];
    assert FirstNamed(r.peers, q.name, n);
    FinalizeIsDoneExactlyWhen(r, q.name, ack, now);
    assert Answers(r.peers[n], ack, now);
    assert r.peers[n := Finalized(PendingPeer(q, from), ack.publicKey)] ==
           peers + [Finalized(PendingPeer(q, from), ack.publicKey)];
  }

  /**
   From any state two routers that meet the conditions join in three steps, all of them possible: each
   ends with one more peer, established, with the other's server key, the one preshared key and the
   other's LANs.
   */
  lemma JoinCompletes(s: Sys, a: nat, b: nat, q: InviteRequest, t0: int, t1: int, t2: int)
    requires Inv(s) && a in s.routers && b in s.routers && a != b && q.psk != "" && q.psk !in s.keys
    requires CanInvite(s.routers[a], q) && CanJoin(s.routers[b], q, s.routers[a].lans)
    requires t1 <= t0 + INVITE_TTL && t2 <= t0 + INVITE_TTL
    ensures
      var ra, rb := s.routers[a], s.routers[b];
      var inv := InviteToken(ra, q, t0);
      var s1 := Step(s, Create(a, q, t0));
      var s2 := Step(s1, Consume(b, inv, t1));
      var s3 := Step(s2, Finalize(a, q.name, AckToken(rb, inv), t2));
      && Admissible(s, Create(a, q, t0)) && Admissible(s1, Consume(b, inv, t1))
      && Admissible(s2, Finalize(a, q.name, AckToken(rb, inv), t2))
      && s3.routers[a] == ra.(peers := ra.peers + [Peer(q.name, rb.publicKey, "", q.psk, q.expected, q.expected, true, false, None)])
      && s3.routers[b] == rb.(peers := rb.peers + [Peer(q.name, ra.publicKey, "", q.psk, Subnets(ra.lans), Subnets(ra.lans), true, false, None)])
  {
    var ra, rb := s.routers[a], s.routers[b];
    var inv := InviteToken(ra, q, t0);
    var s1 := Step(s, Create(a, q, t0));
    InviteIsIssued(s, a, q, t0);
    assert Issued(a, inv, LanNetworks(ra)).invite == inv;
    InviteIsJoined(s1, b, q, ra, t0, t1);
    var s2 := Step(s1, Consume(b, inv, t1));
    var made := Made(b, AckToken(rb, inv), t1, inv, LanNetworks(rb), JoinedPeer(inv));
    assert made in s2.made && made.ack == AckToken(rb, inv);
    AckIsTaken(s2.routers[a], ra.peers, q, AckToken(rb, inv), t0, t2);
  }

  // ------------------------------------------------------- an invite that is closed

  ghost predicate AllDistinct(s: Sys) {
    forall id :: id in s.routers ==> NamesDistinct(s.routers[id].peers)
  }

  lemma {:induction false} SweepKeepsNames(peers: seq<Peer>, now: int)
    requires NamesDistinct(peers)
    ensures NamesDistinct(Kept(peers, now))
  {
    if peers != [] {
      var front, last := peers[..|peers| - 1], peers[|peers| - 1];
      SweepKeepsNames(front, now);
      var kept := Kept(front, now);
      forall i | 0 <= i < |kept| ensures kept[i].name != last.name {
        SweptWasThere(front, now, kept[i]);
      }
    }
  }

  lemma RemoveKeepsNames(peers: seq<Peer>, i: nat)
    requires NamesDistinct(peers) && i < |peers|
    ensures NamesDistinct(RemoveAt(peers, i))
  {
    var left := RemoveAt(peers, i);
    assert forall k :: 0 <= k < |left| ==> left[k] == if k < i then peers[k] else peers[k + 1];
  }

  lemma AppendKeepsNames(peers: seq<Peer>, p: Peer)
    requires NamesDistinct(peers) && !Named(peers, p.name)
    ensures NamesDistinct(peers + [p])
  {
  }

  lemma DropKeepsNames(r: Router, name: string)
    requires NamesDistinct(r.peers)
    ensures NamesDistinct(CancelInvite(r, name).0.peers) && NamesDistinct(RemovePeer(r, name).0.peers)
  {
    var i := IndexOf(r.peers, name);
    if i < |r.peers| {
      RemoveKeepsNames(r.peers, i);
    }
  }

  lemma CreateKeepsNames(r: Router, q: InviteRequest, now: int)
    requires NamesDistinct(r.peers)
    ensures NamesDistinct(CreateInvite(r, q, now).0.peers)
  {
    if !Named(r.peers, q.name) {
      AppendKeepsNames(r.peers, PendingPeer(q, now));
    }
  }

  lemma AddKeepsNames(r: Router, q: AddRequest)
    requires NamesDistinct(r.peers)
    ensures NamesDistinct(AddPeer(r, q).0.peers)
  {
    if !Named(r.peers, q.name) && HasPool(r) && NextTunnel(r).Some? {
      AppendKeepsNames(r.peers, NewPeer(r, q, NextTunnel(r).value));
    }
  }

  lemma JoinKeepsNames(r: Router, inv: Invite, now: int)
    requires NamesDistinct(r.peers)
    ensures NamesDistinct(ConsumeInvite(r, inv, now).0.peers)
  {
    if !Named(r.peers, inv.name) {
      AppendKeepsNames(r.peers, JoinedPeer(inv));
    }
  }

  lemma FinalizeKeepsNames(r: Router, name: string, ack: Ack, now: int)
    requires NamesDistinct(r.peers)
    ensures NamesDistinct(FinalizeInvite(r, name, ack, now).0.peers)
  {
    var r' := FinalizeInvite(r, name, ack, now).0;
    assert |r'.peers| == |r.peers| && forall k :: 0 <= k < |r.peers| ==> r'.peers[k].name == r.peers[k].name;
  }

  lemma NamesStayDistinct(s: Sys, e: Event)
    requires AllDistinct(s) && e.id in s.routers
    ensures AllDistinct(Step(s, e))
  {
    var r := s.routers[e.id];
    assert NamesDistinct(Step(s, e).routers[e.id].peers) by {
      match e
      case Create(_, q, now) => CreateKeepsNames(r, q, now);
      case AddManual(_, q) => AddKeepsNames(r, q);
      case Consume(_, inv, now) => JoinKeepsNames(r, inv, now);
      case Finalize(_, name, ack, now) => FinalizeKeepsNames(r, name, ack, now);
      case Sweep(_, now) => SweepKeepsNames(r.peers, now);
      case Cancel(_, name) => DropKeepsNames(r, name);
      case Remove(_, name) => DropKeepsNames(r, name);
      case _ =>
    }
  }

  /** In every run no router has two peers of one name. */
  lemma {:induction false} NamesAreDistinct(s0: Sys, es: seq<Event>)
    requires Untouched(s0)
    ensures AllDistinct(Run(s0, es))
  {
    if es != [] {
      NamesAreDistinct(s0, es[..|es| - 1]);
      if Admissible(Run(s0, es[..|es| - 1]), es[|es| - 1]) {
        NamesStayDistinct(Run(s0, es[..|es| - 1]), es[|es| - 1]);
      }
    }
  }

  /** A name that is gone, or is that of an established peer, is not finalized. */
  lemma NothingToFinalize(r: Router, name: string, ack: Ack, now: int)
    requires forall k :: 0 <= k < |r.peers| && r.peers[k].name == name ==> !r.peers[k].pending
    ensures FinalizeInvite(r, name, ack, now).1 != Done
  {
  }

  lemma NothingPendingLeft(r: Router, name: string)
    requires NamesDistinct(r.peers)
    ensures forall k :: 0 <= k < |RemovePeer(r, name).0.peers| ==> RemovePeer(r, name).0.peers[k].name != name
    ensures var peers := CancelInvite(r, name).0.peers;
            forall k :: 0 <= k < |peers| && peers[k].name == name ==> !peers[k].pending
  {
    RemoveLeavesTheOthers(r, name);
    OthersHaveOtherNames(r.peers, name);
  }

  /** After any run, once a peer is removed or its invite cancelled no ack finalizes that name. */
  lemma ClosedInviteIsNotFinalized(s0: Sys, es: seq<Event>, e: Event, ack: Ack, now: int)
    requires Untouched(s0) && (e.Cancel? || e.Remove?) && e.id in Run(s0, es).routers
    ensures FinalizeInvite(Step(Run(s0, es), e).routers[e.id], e.name, ack, now).1 != Done
  {
    var r := Run(s0, es).routers[e.id];
    NamesAreDistinct(s0, es);
    NothingPendingLeft(r, e.name);
    if e.Cancel? {
      NothingToFinalize(CancelInvite(r, e.name).0, e.name, ack, now);
    } else {
      NothingToFinalize(RemovePeer(r, e.name).0, e.name, ack, now);
    }
  }

  lemma {:induction false} OthersHaveOtherNames(peers: seq<Peer>, name: string)
    ensures !Named(Others(peers, name), name)
  {
    if peers != [] {
      OthersHaveOtherNames(peers[1..], name);
    }
  }

  /** Once a sweep has run after an invite's expiry, its pending peer is gone from that router. */
  lemma ExpiredInviteIsSwept(s: Sys, id: nat, now: int)
    requires id in s.routers
    ensures var peers := Step(s, Sweep(id, now)).routers[id].peers;
            && (forall p :: p in peers ==> !RunOut(p, now))
            && (forall p :: p in s.routers[id].peers && !RunOut(p, now) ==> p in peers)
  {
    SweepKeepsExactlyTheLive(s.routers[id].peers, now);
  }

  /** A server key, once it is there, never changes; an edit of the LANs is what the next invite announces. */
  lemma EditsTakeEffect(s: Sys, id: nat, publicKey: string, lans: seq<Address>, q: InviteRequest, now: int)
    requires id in s.routers && publicKey != ""
    ensures var key := Step(s, EnsureKey(id, publicKey)).routers[id].publicKey;
            key == (if s.routers[id].publicKey == "" then publicKey else s.routers[id].publicKey) && key != ""
    ensures forall x :: InEntries(InviteToken(Step(s, SetLans(id, lans)).routers[id], q, now).remote, x) <==> OnInterfaces(lans, x)
  {
    forall x ensures InEntries(Subnets(lans), x) <==> OnInterfaces(lans, x) {
      SubnetsAreInterfaces(lans, x);
    }
  }
}
