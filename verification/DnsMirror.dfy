/**
 Static DHCP leases and the DNS records that mirror them: the records kept up to date lease by lease,
 against the rebuild of the whole set.
 */
module DnsMirror {
  import opened Core

  /** A DNS record; those with Source "dhcp-static" are mirrored. */
  datatype Record = Record(name: string, ip: string, mirrored: bool)

  datatype Lease = Lease(mac: string, ip: string, hostname: string)

  /** Case folding by character, as strings.EqualFold applies it, and the system domain. */
  datatype Env = Env(fold: char -> char, domain: string)

  const MAX_STATIC_RECORDS := 500

  function Folded(env: Env, s: string): (r: string)
    ensures |r| == |s| && forall i :: 0 <= i < |s| ==> r[i] == env.fold(s[i])
  {
    if s == "" then "" else [env.fold(s[0])] + Folded(env, s[1..])
  }

  predicate EqualFold(env: Env, a: string, b: string) {
    Folded(env, a) == Folded(env, b)
  }

  function Fqdn(env: Env, hostname: string): string {
    hostname + "." + (if env.domain == "" then "lan" else env.domain)
  }

  /** Hostnames clash exactly when the names built from them do. */
  lemma FqdnKeepsNamesApart(env: Env, a: string, b: string)
    ensures EqualFold(env, Fqdn(env, a), Fqdn(env, b)) <==> EqualFold(env, a, b)
  {
    var x, y := Fqdn(env, a), Fqdn(env, b);
    if EqualFold(env, x, y) {
      assert |x| == |Folded(env, x)| == |y|;
      assert |a| == |b|;
      forall i | 0 <= i < |a| ensures env.fold(a[i]) == env.fold(b[i]) {
        assert Folded(env, x)[i] == Folded(env, y)[i];
        assert x[i] == a[i] && y[i] == b[i];
      }
    }
    if EqualFold(env, a, b) {
      assert |a| == |Folded(env, a)| == |b|;
      forall i | 0 <= i < |x| ensures env.fold(x[i]) == env.fold(y[i]) {
        if i < |a| {
          assert Folded(env, a)[i] == Folded(env, b)[i];
        }
      }
    }
  }

  // ------------------------------------------------------- lists

  function Without<T>(s: seq<T>, i: int): seq<T>
    requires 0 <= i < |s|
  {
    s[..i] + s[i + 1..]
  }

  /** The mirrored records, in order. */
  function Owned(rs: seq<Record>): seq<Record> {
    if rs == [] then []
    else Owned(rs[..|rs| - 1]) + (if rs[|rs| - 1].mirrored then [rs[|rs| - 1]] else [])
  }

  /** The other records, in order. */
  function Users(rs: seq<Record>): seq<Record> {
    if rs == [] then []
    else Users(rs[..|rs| - 1]) + (if rs[|rs| - 1].mirrored then [] else [rs[|rs| - 1]])
  }

  function MirrorOf(env: Env, l: Lease): Record {
    Record(Fqdn(env, l.hostname), l.ip, true)
  }

  /** The records the leases call for, in order. */
  function Mirror(env: Env, ls: seq<Lease>): seq<Record> {
    if ls == [] then []
    else Mirror(env, ls[..|ls| - 1]) +
         (if ls[|ls| - 1].hostname == "" then [] else [MirrorOf(env, ls[|ls| - 1])])
  }

  lemma {:induction false} Filters(rs: seq<Record>)
    ensures forall r :: r in Owned(rs) <==> r in rs && r.mirrored
    ensures forall r :: r in Users(rs) <==> r in rs && !r.mirrored
    ensures |Owned(rs)| + |Users(rs)| == |rs|
  {
    if rs != [] {
      var front, last := rs[..|rs| - 1], rs[|rs| - 1];
      Filters(front);
      assert forall r :: r in rs <==> r in front || r == last by {
        assert rs == front + [last];
      }
    }
  }

  lemma {:induction false} OwnedOfSum(a: seq<Record>, b: seq<Record>)
    ensures Owned(a + b) == Owned(a) + Owned(b)
  {
    if b == [] {
      assert a + b == a;
    } else {
      var sum, front, last := a + b, b[..|b| - 1], b[|b| - 1];
      OwnedOfSum(a, front);
      assert sum[..|sum| - 1] == a + front && sum[|sum| - 1] == last;
      assert Owned(a) + (Owned(front) + [last]) == (Owned(a) + Owned(front)) + [last];
    }
  }

  lemma {:induction false} UsersOfSum(a: seq<Record>, b: seq<Record>)
    ensures Users(a + b) == Users(a) + Users(b)
  {
    if b == [] {
      assert a + b == a;
    } else {
      var sum, front, last := a + b, b[..|b| - 1], b[|b| - 1];
      UsersOfSum(a, front);
      assert sum[..|sum| - 1] == a + front && sum[|sum| - 1] == last;
      assert Users(a) + (Users(front) + [last]) == (Users(a) + Users(front)) + [last];
    }
  }

  lemma FiltersOfSum(a: seq<Record>, b: seq<Record>)
    ensures Owned(a + b) == Owned(a) + Owned(b)
    ensures Users(a + b) == Users(a) + Users(b)
  {
    OwnedOfSum(a, b);
    UsersOfSum(a, b);
  }

  lemma {:induction false} MirrorOfSum(env: Env, a: seq<Lease>, b: seq<Lease>)
    ensures Mirror(env, a + b) == Mirror(env, a) + Mirror(env, b)
  {
    if b == [] {
      assert a + b == a;
    } else {
      var front := b[..|b| - 1];
      MirrorOfSum(env, a, front);
      assert (a + b)[..|a + b| - 1] == a + front;
    }
  }

  lemma {:induction false} AllMirrored(rs: seq<Record>)
    requires forall r :: r in rs ==> r.mirrored
    ensures Owned(rs) == rs && Users(rs) == []
  {
    if rs != [] {
      AllMirrored(rs[..|rs| - 1]);
      assert rs[|rs| - 1] in rs;
      assert rs == rs[..|rs| - 1] + [rs[|rs| - 1]];
    }
  }

  lemma {:induction false} NoneMirrored(rs: seq<Record>)
    requires forall r :: r in rs ==> !r.mirrored
    ensures Owned(rs) == [] && Users(rs) == rs
  {
    if rs != [] {
      NoneMirrored(rs[..|rs| - 1]);
      assert rs[|rs| - 1] in rs;
      assert rs == rs[..|rs| - 1] + [rs[|rs| - 1]];
    }
  }

  lemma AllOfOneKind(rs: seq<Record>, mirrored: bool)
    requires forall r :: r in rs ==> r.mirrored == mirrored
    ensures Owned(rs) == (if mirrored then rs else [])
    ensures Users(rs) == (if mirrored then [] else rs)
  {
    if mirrored {
      AllMirrored(rs);
    } else {
      NoneMirrored(rs);
    }
  }

  lemma FiltersAround(a: seq<Record>, x: Record, b: seq<Record>)
    ensures Owned(a + ([x] + b)) == Owned(a) + ((if x.mirrored then [x] else []) + Owned(b))
    ensures Users(a + ([x] + b)) == Users(a) + ((if x.mirrored then [] else [x]) + Users(b))
  {
    FiltersOfSum(a, [x] + b);
    FiltersOfSum([x], b);
    AllOfOneKind([x], x.mirrored);
  }

  lemma WithoutMiddle<T>(a: seq<T>, x: T, b: seq<T>)
    ensures Without(a + ([x] + b), |a|) == a + b
  {
  }

  lemma OwnedWithoutMiddle(a: seq<Record>, x: Record, b: seq<Record>)
    requires x.mirrored
    ensures var all, o := Owned(a + ([x] + b)), |Owned(a)|;
            o < |all| && all[o] == x && Owned(a + b) == Without(all, o)
    ensures Users(a + b) == Users(a + ([x] + b))
  {
    FiltersAround(a, x, b);
    FiltersOfSum(a, b);
    WithoutMiddle(Owned(a), x, Owned(b));
  }

  /** Leaving one record out of the list leaves it out of its filter and out of nothing else. */
  lemma FiltersWithout(rs: seq<Record>, i: int)
    requires 0 <= i < |rs|
    ensures var o := |Owned(rs[..i])|;
            rs[i].mirrored ==>
              o < |Owned(rs)| && Owned(rs)[o] == rs[i] && Owned(Without(rs, i)) == Without(Owned(rs), o)
    ensures rs[i].mirrored ==> Users(Without(rs, i)) == Users(rs)
    ensures !rs[i].mirrored ==> Owned(Without(rs, i)) == Owned(rs)
  {
    var a, x, b := rs[..i], rs[i], rs[i + 1..];
    assert rs == a + ([x] + b) && Without(rs, i) == a + b;
    if x.mirrored {
      OwnedWithoutMiddle(a, x, b);
    } else {
      FiltersAround(a, x, b);
      FiltersOfSum(a, b);
    }
  }

  lemma MirrorAround(env: Env, a: seq<Lease>, x: Lease, b: seq<Lease>)
    ensures Mirror(env, a + ([x] + b)) ==
            Mirror(env, a) + ((if x.hostname == "" then [] else [MirrorOf(env, x)]) + Mirror(env, b))
  {
    MirrorOfSum(env, a, [x] + b);
    MirrorOfSum(env, [x], b);
    assert [x][..0] == [];
    assert Mirror(env, [x]) == if x.hostname == "" then [] else [MirrorOf(env, x)];
  }

  lemma MirrorWithoutMiddle(env: Env, a: seq<Lease>, x: Lease, b: seq<Lease>)
    requires x.hostname != ""
    ensures var all, o := Mirror(env, a + ([x] + b)), |Mirror(env, a)|;
            o < |all| && all[o] == MirrorOf(env, x) && Mirror(env, a + b) == Without(all, o)
  {
    MirrorAround(env, a, x, b);
    MirrorOfSum(env, a, b);
    WithoutMiddle(Mirror(env, a), MirrorOf(env, x), Mirror(env, b));
  }

  lemma MirrorWithout(env: Env, ls: seq<Lease>, i: int)
    requires 0 <= i < |ls|
    ensures var o := |Mirror(env, ls[..i])|;
            if ls[i].hostname == "" then Mirror(env, Without(ls, i)) == Mirror(env, ls)
            else o < |Mirror(env, ls)| && Mirror(env, ls)[o] == MirrorOf(env, ls[i])
                 && Mirror(env, Without(ls, i)) == Without(Mirror(env, ls), o)
  {
    var a, x, b := ls[..i], ls[i], ls[i + 1..];
    assert ls == a + ([x] + b) && Without(ls, i) == a + b;
    if x.hostname != "" {
      MirrorWithoutMiddle(env, a, x, b);
    } else {
      MirrorAround(env, a, x, b);
      MirrorOfSum(env, a, b);
    }
  }

  // ------------------------------------------------------- the operations

  datatype State = State(records: seq<Record>, leases: seq<Lease>)

  predicate Taken(env: Env, rs: seq<Record>, name: string) {
    exists i :: 0 <= i < |rs| && EqualFold(env, rs[i].name, name)
  }

  /** AddStaticRecord succeeds. */
  predicate Fits(env: Env, rs: seq<Record>, name: string) {
    |rs| < MAX_STATIC_RECORDS && !Taken(env, rs, name)
  }

  function AddRecord(env: Env, rs: seq<Record>, r: Record): seq<Record> {
    if Fits(env, rs, r.name) then rs + [r] else rs
  }

  function AddMirror(env: Env, rs: seq<Record>, l: Lease): seq<Record> {
    if l.hostname == "" then rs else AddRecord(env, rs, MirrorOf(env, l))
  }

  predicate LeaseClash(env: Env, ls: seq<Lease>, l: Lease) {
    exists i :: 0 <= i < |ls| && (EqualFold(env, ls[i].mac, l.mac) || ls[i].ip == l.ip)
  }

  /** AddStaticLease; `saved` says whether router.yaml was written after the lease was appended. */
  function AddLease(env: Env, st: State, l: Lease, valid: bool, saved: bool): State {
    if !valid || LeaseClash(env, st.leases, l) then st
    else State(if saved then AddMirror(env, st.records, l) else st.records, st.leases + [l])
  }

  predicate Hit(env: Env, r: Record, name: string) {
    r.mirrored && EqualFold(env, r.name, name)
  }

  /** FindStaticRecordIndexBySource: the first mirrored record of that name, or the length. */
  function FindMirrored(env: Env, rs: seq<Record>, name: string): (i: nat)
    ensures i <= |rs| && (i < |rs| ==> Hit(env, rs[i], name))
    ensures forall k :: 0 <= k < i ==> !Hit(env, rs[k], name)
  {
    if rs == [] || Hit(env, rs[0], name) then 0 else 1 + FindMirrored(env, rs[1..], name)
  }

  function DropMirror(env: Env, rs: seq<Record>, name: string): seq<Record> {
    var i := FindMirrored(env, rs, name);
    if i < |rs| then Without(rs, i) else rs
  }

  function RemoveLease(env: Env, st: State, index: int, saved: bool): State {
    if index < 0 || index >= |st.leases| then st
    else
      var l := st.leases[index];
      State(if saved && l.hostname != "" then DropMirror(env, st.records, Fqdn(env, l.hostname)) else st.records,
            Without(st.leases, index))
  }

  /** SyncStaticDNSRecords after its strip loop: the leases are added one by one. */
  function AddAll(env: Env, rs: seq<Record>, ls: seq<Lease>): seq<Record> {
    if ls == [] then rs else AddMirror(env, AddAll(env, rs, ls[..|ls| - 1]), ls[|ls| - 1])
  }

  function Sync(env: Env, st: State): State {
    State(AddAll(env, Users(st.records), st.leases), st.leases)
  }

  // ------------------------------------------------------- the rebuild, from any state

  lemma {:induction false} AddAllKeepsUsers(env: Env, rs: seq<Record>, ls: seq<Lease>)
    ensures rs <= AddAll(env, rs, ls)
    ensures Users(AddAll(env, rs, ls)) == Users(rs)
    ensures |AddAll(env, rs, ls)| <= Max(|rs|, MAX_STATIC_RECORDS)
  {
    if ls != [] {
      AddAllKeepsUsers(env, rs, ls[..|ls| - 1]);
    }
  }

  lemma UsersOfUsers(rs: seq<Record>)
    ensures Users(Users(rs)) == Users(rs)
  {
    Filters(rs);
    AllOfOneKind(Users(rs), false);
  }

  /** From any state, a rebuild keeps the user's records in order at the front, and rebuilding again changes nothing. */
  lemma SyncIsIdempotent(env: Env, st: State)
    ensures Users(st.records) <= Sync(env, st).records
    ensures Users(Sync(env, st).records) == Users(st.records)
    ensures Sync(env, Sync(env, st)) == Sync(env, st)
  {
    UsersOfUsers(st.records);
    AddAllKeepsUsers(env, Users(st.records), st.leases);
  }

  predicate Named(env: Env, rs: seq<Record>, l: Lease) {
    l.hostname == "" || Taken(env, rs, Fqdn(env, l.hostname))
  }

  /** From any state, a rebuild leaves every named lease with a record of its name, unless the list is full. */
  lemma {:induction false} SyncNamesEveryLease(env: Env, rs: seq<Record>, ls: seq<Lease>)
    requires |AddAll(env, rs, ls)| < MAX_STATIC_RECORDS
    ensures forall i :: 0 <= i < |ls| ==> Named(env, AddAll(env, rs, ls), ls[i])
  {
    if ls != [] {
      var front, last := ls[..|ls| - 1], ls[|ls| - 1];
      var was, now := AddAll(env, rs, front), AddAll(env, rs, ls);
      SyncNamesEveryLease(env, rs, front);
      assert now == was || now == was + [MirrorOf(env, last)];
      forall i | 0 <= i < |ls| ensures Named(env, now, ls[i]) {
        if i < |front| {
          TakenStays(env, was, now, Fqdn(env, ls[i].hostname));
        } else if now == was + [MirrorOf(env, last)] {
          assert now[|was|].name == Fqdn(env, last.hostname);
        }
      }
    }
  }

  lemma TakenStays(env: Env, a: seq<Record>, b: seq<Record>, name: string)
    requires a <= b
    ensures Taken(env, a, name) ==> Taken(env, b, name)
  {
    if i :| 0 <= i < |a| && EqualFold(env, a[i].name, name) {
      assert b[i] == a[i];
    }
  }

  // ------------------------------------------------------- lease by lease

  predicate Distinct(env: Env, rs: seq<Record>) {
    forall i, j :: 0 <= i < j < |rs| ==> !EqualFold(env, rs[i].name, rs[j].name)
  }

  /** The mirrored records are those of the leases. */
  predicate InStep(env: Env, st: State) {
    Owned(st.records) == Mirror(env, st.leases)
  }

  /** The record resolves the lease's name in the system domain, "lan" by default, to the lease's address. */
  predicate Resolves(env: Env, r: Record, l: Lease) {
    && r.mirrored && r.ip == l.ip && l.hostname != ""
    && r.name == l.hostname + "." + (if env.domain == "" then "lan" else env.domain)
  }

  lemma {:induction false} MirrorResolves(env: Env, ls: seq<Lease>)
    ensures forall i :: 0 <= i < |ls| && ls[i].hostname != "" ==> exists r :: r in Mirror(env, ls) && Resolves(env, r, ls[i])
    ensures forall r :: r in Mirror(env, ls) ==> exists i :: 0 <= i < |ls| && Resolves(env, r, ls[i])
  {
    if ls != [] {
      var front, last := ls[..|ls| - 1], ls[|ls| - 1];
      MirrorResolves(env, front);
      assert forall i :: 0 <= i < |front| ==> front[i] == ls[i];
      if last.hostname != "" {
        assert Resolves(env, MirrorOf(env, last), last) && MirrorOf(env, last) in Mirror(env, ls);
      }
      forall i | 0 <= i < |ls| && ls[i].hostname != "" ensures exists r :: r in Mirror(env, ls) && Resolves(env, r, ls[i]) {
        if i < |front| {
          var r :| r in Mirror(env, front) && Resolves(env, r, front[i]);
          assert r in Mirror(env, ls) && Resolves(env, r, ls[i]);
        }
      }
      forall r | r in Mirror(env, ls) ensures exists i :: 0 <= i < |ls| && Resolves(env, r, ls[i]) {
        if r in Mirror(env, front) {
          var i :| 0 <= i < |front| && Resolves(env, r, front[i]);
          assert Resolves(env, r, ls[i]);
        } else {
          assert Resolves(env, r, ls[|ls| - 1]);
        }
      }
    }
  }

  /** In step, every named lease has a record that resolves it, and every mirrored record resolves some lease. */
  lemma InStepResolvesEveryLease(env: Env, st: State)
    requires InStep(env, st)
    ensures forall i :: 0 <= i < |st.leases| && st.leases[i].hostname != "" ==>
              exists r :: r in st.records && Resolves(env, r, st.leases[i])
    ensures forall r :: r in st.records && r.mirrored ==>
              exists i :: 0 <= i < |st.leases| && Resolves(env, r, st.leases[i])
  {
    MirrorResolves(env, st.leases);
    Filters(st.records);
    forall i | 0 <= i < |st.leases| && st.leases[i].hostname != ""
      ensures exists r :: r in st.records && Resolves(env, r, st.leases[i])
    {
      var r :| r in Mirror(env, st.leases) && Resolves(env, r, st.leases[i]);
      assert r in st.records;
    }
  }

  predicate Kept(env: Env, st: State) {
    InStep(env, st) && Distinct(env, st.records) && |st.records| <= MAX_STATIC_RECORDS
  }

  lemma AddKeepsDistinct(env: Env, rs: seq<Record>, r: Record)
    requires Distinct(env, rs)
    ensures Distinct(env, AddRecord(env, rs, r))
  {
  }

  /** Adding a lease keeps the mirror in step exactly when it has no name, or its name is free and there is room. */
  lemma AddLeaseKeepsExactlyWhen(env: Env, st: State, l: Lease, valid: bool, saved: bool)
    requires InStep(env, st)
    ensures InStep(env, AddLease(env, st, l, valid, saved)) <==>
            !valid || LeaseClash(env, st.leases, l) || l.hostname == ""
            || (saved && Fits(env, st.records, Fqdn(env, l.hostname)))
    ensures Distinct(env, st.records) ==> Distinct(env, AddLease(env, st, l, valid, saved).records)
  {
    var after := AddLease(env, st, l, valid, saved);
    if after != st {
      assert after.leases[..|after.leases| - 1] == st.leases;
      if saved && l.hostname != "" {
        var r := MirrorOf(env, l);
        FiltersOfSum(st.records, [r]);
        AllOfOneKind([r], true);
      }
    }
  }

  lemma OwnedIsClear(env: Env, rs: seq<Record>, r: Record)
    requires Distinct(env, rs + [r])
    ensures Distinct(env, rs)
    ensures forall i :: 0 <= i < |Owned(rs)| ==> !EqualFold(env, Owned(rs)[i].name, r.name)
  {
    var all := rs + [r];
    assert forall k :: 0 <= k < |rs| ==> all[k] == rs[k];
    Filters(rs);
    forall i | 0 <= i < |Owned(rs)| ensures !EqualFold(env, Owned(rs)[i].name, r.name) {
      assert Owned(rs)[i] in rs;
      var k :| 0 <= k < |rs| && rs[k] == Owned(rs)[i];
      assert all[k] == rs[k] && all[|rs|] == r;
    }
  }

  lemma {:induction false} OwnedDistinct(env: Env, rs: seq<Record>)
    requires Distinct(env, rs)
    ensures Distinct(env, Owned(rs))
  {
    if rs != [] {
      var front, last := rs[..|rs| - 1], rs[|rs| - 1];
      assert rs == front + [last];
      OwnedIsClear(env, front, last);
      OwnedDistinct(env, front);
    }
  }

  /** The record found by name is the one at the lease's place among the mirrored records. */
  lemma FoundAtItsPlace(env: Env, rs: seq<Record>, o: nat)
    requires Distinct(env, rs) && o < |Owned(rs)|
    ensures var i := FindMirrored(env, rs, Owned(rs)[o].name); i < |rs| && |Owned(rs[..i])| == o
  {
    var name := Owned(rs)[o].name;
    Filters(rs);
    OwnedDistinct(env, rs);
    var k :| 0 <= k < |rs| && rs[k] == Owned(rs)[o];
    var i := FindMirrored(env, rs, name);
    assert Hit(env, rs[k], name);
    FiltersWithout(rs, i);
  }

  lemma WithoutKeepsDistinct(env: Env, rs: seq<Record>, i: int)
    requires Distinct(env, rs) && 0 <= i < |rs|
    ensures Distinct(env, Without(rs, i))
  {
    var w := Without(rs, i);
    forall a, b | 0 <= a < b < |w| ensures !EqualFold(env, w[a].name, w[b].name) {
      var x, y := if a < i then a else a + 1, if b < i then b else b + 1;
      assert w[a] == rs[x] && w[b] == rs[y];
    }
  }

  /** Removing a lease drops its record and no other. */
  lemma RemoveLeaseKeeps(env: Env, st: State, index: int)
    requires Kept(env, st)
    ensures Kept(env, RemoveLease(env, st, index, true))
    ensures Users(RemoveLease(env, st, index, true).records) == Users(st.records)
  {
    if 0 <= index < |st.leases| {
      var l := st.leases[index];
      MirrorWithout(env, st.leases, index);
      if l.hostname != "" {
        var o := |Mirror(env, st.leases[..index])|;
        FoundAtItsPlace(env, st.records, o);
        var i := FindMirrored(env, st.records, Fqdn(env, l.hostname));
        FiltersWithout(st.records, i);
        WithoutKeepsDistinct(env, st.records, i);
      }
    }
  }

  // ------------------------------------------------------- removal, from any state

  /** A lease without a name, or one whose own record is there. */
  predicate Served(env: Env, rs: seq<Record>, l: Lease) {
    l.hostname == "" || MirrorOf(env, l) in rs
  }

  /** The record that removing a lease drops is the only one like it and belongs to another lease. */
  predicate TakesFromAnother(env: Env, st: State, index: nat)
    requires index < |st.leases|
  {
    var rs, l := st.records, st.leases[index];
    var i := FindMirrored(env, rs, Fqdn(env, l.hostname));
    && l.hostname != "" && i < |rs| && rs[i] !in Without(rs, i)
    && exists j :: 0 <= j < |st.leases| && j != index && st.leases[j].hostname != "" && MirrorOf(env, st.leases[j]) == rs[i]
  }

  lemma WithoutHolds<T>(s: seq<T>, i: nat, x: T)
    requires i < |s|
    ensures x in s <==> x == s[i] || x in Without(s, i)
  {
    var a, b := s[..i], s[i + 1..];
    assert s == a + [s[i]] + b;
  }

  /**
   From any state: removing a lease leaves every other lease its record exactly when the first mirrored
   record of its name is not the one another lease has. Leases may share a name, so it can be.
   */
  lemma RemoveLeaseSparesOthersExactlyWhen(env: Env, st: State, index: nat)
    requires index < |st.leases|
    ensures var rs := RemoveLease(env, st, index, true).records;
            (forall j :: 0 <= j < |st.leases| && j != index && Served(env, st.records, st.leases[j]) ==>
               Served(env, rs, st.leases[j])) <==>
            !TakesFromAnother(env, st, index)
  {
    var rs, l, after := st.records, st.leases[index], RemoveLease(env, st, index, true).records;
    var i := FindMirrored(env, rs, Fqdn(env, l.hostname));
    if l.hostname != "" && i < |rs| {
      assert after == Without(rs, i);
      forall j | 0 <= j < |st.leases| && j != index && Served(env, rs, st.leases[j])
        ensures Served(env, after, st.leases[j]) <==>
                st.leases[j].hostname == "" || MirrorOf(env, st.leases[j]) != rs[i] || rs[i] in after
      {
        WithoutHolds(rs, i, MirrorOf(env, st.leases[j]));
      }
    }
  }

  lemma WithoutSame<T>(s: seq<T>, p: nat, q: nat)
    requires p < |s| && q < |s|
    ensures Without(s, p) == Without(s, q) <==> forall k :: p <= k <= q || q <= k <= p ==> s[k] == s[q]
  {
    var a, b := if p <= q then p else q, if p <= q then q else p;
    var x, y := Without(s, a), Without(s, b);
    assert forall k :: a <= k < b ==> x[k] == s[k + 1] && y[k] == s[k];
    if x == y {
      SameThroughout(s, a, b);
    }
  }

  lemma {:induction false} SameThroughout<T>(s: seq<T>, a: nat, b: nat)
    requires a <= b < |s| && forall k :: a <= k < b ==> s[k + 1] == s[k]
    ensures forall k :: a <= k <= b ==> s[k] == s[a]
  {
    if a < b {
      SameThroughout(s, a, b - 1);
      assert s[b - 1 + 1] == s[b - 1];
    }
  }

  /**
   From any state in which the mirrored records are those of the leases, names shared or not: removing
   a lease keeps it so exactly when the lease has no name, or the save succeeds and the record found by
   its name and the record at its own place are alike, and so is everything between them.
   */
  lemma RemoveLeaseKeepsExactlyWhen(env: Env, st: State, index: nat, saved: bool)
    requires InStep(env, st) && index < |st.leases|
    ensures var rs, l := st.records, st.leases[index];
            var own, found := |Mirror(env, st.leases[..index])|,
                              |Owned(rs[..FindMirrored(env, rs, Fqdn(env, l.hostname))])|;
            InStep(env, RemoveLease(env, st, index, saved)) <==>
            || l.hostname == ""
            || (saved && own < |Owned(rs)| && found < |Owned(rs)|
                && forall k :: found <= k <= own || own <= k <= found ==> Owned(rs)[k] == Owned(rs)[own])
  {
    var rs, l := st.records, st.leases[index];
    MirrorWithout(env, st.leases, index);
    if l.hostname != "" && saved {
      var own := |Mirror(env, st.leases[..index])|;
      RecordIsFound(env, rs, own);
      var i := FindMirrored(env, rs, Fqdn(env, l.hostname));
      FiltersWithout(rs, i);
      WithoutSame(Owned(rs), |Owned(rs[..i])|, own);
    }
  }

  /** Deleting a record on the DNS page keeps the mirror in step exactly when the record is not a mirrored one. */
  lemma RecordRemovalKeepsExactlyWhen(env: Env, st: State, i: nat)
    requires InStep(env, st) && i < |st.records|
    ensures InStep(env, State(Without(st.records, i), st.leases)) <==> !st.records[i].mirrored
  {
    FiltersWithout(st.records, i);
  }

  lemma RecordIsFound(env: Env, rs: seq<Record>, o: nat)
    requires o < |Owned(rs)|
    ensures FindMirrored(env, rs, Owned(rs)[o].name) < |rs|
  {
    Filters(rs);
    assert Owned(rs)[o] in rs;
    var k :| 0 <= k < |rs| && rs[k] == Owned(rs)[o];
    assert Hit(env, rs[k], Owned(rs)[o].name);
  }

  /** Two leases of one name: the second is not mirrored, and removing it takes the first one's record. */
  lemma SecondLeaseTakesTheFirstsRecord(env: Env, a: Lease, b: Lease)
    requires a.hostname == b.hostname != "" && !LeaseClash(env, [a], b)
    ensures var one := AddLease(env, State([], []), a, true, true);
            var two := AddLease(env, one, b, true, true);
            var back := RemoveLease(env, two, 1, true);
            && one == State([MirrorOf(env, a)], [a]) && two == State([MirrorOf(env, a)], [a, b])
            && back == State([], [a]) && TakesFromAnother(env, two, 1) && !InStep(env, back)
  {
    var r := MirrorOf(env, a);
    var one, two := State([r], [a]), State([r], [a, b]);
    assert !LeaseClash(env, [], a);
    assert !Taken(env, [], r.name);
    assert EqualFold(env, [r][0].name, r.name);
    assert AddLease(env, State([], []), a, true, true) == one;
    assert Taken(env, [r], Fqdn(env, b.hostname));
    assert AddLease(env, one, b, true, true) == two;
    assert FindMirrored(env, [r], Fqdn(env, b.hostname)) == 0;
    assert Without([a, b], 1) == [a] && Without([r], 0) == [];
    assert MirrorOf(env, two.leases[0]) == two.records[0];
    assert Mirror(env, [a]) == [r];
  }

  // ------------------------------------------------------- runs

  /** What the DHCP and the DNS page can do; `saved` says whether router.yaml was written after the lease change. */
  datatype Event =
    | LeaseAdded(lease: Lease, valid: bool, saved: bool)
    | LeaseRemoved(index: int, saved: bool)
    | RecordAdded(record: Record)
    | RecordRemoved(index: int)
    | Rebuilt

  /** The operations that keep the mirror: each is the exact condition of its own. */
  predicate Admissible(env: Env, st: State, e: Event) {
    match e
    case LeaseAdded(l, valid, saved) =>
      || !valid || LeaseClash(env, st.leases, l) || l.hostname == ""
      || (saved && Fits(env, st.records, Fqdn(env, l.hostname)))
    case LeaseRemoved(i, saved) => 0 <= i < |st.leases| ==> st.leases[i].hostname == "" || saved
    case RecordAdded(r) => r.mirrored ==> !Fits(env, st.records, r.name)
    case RecordRemoved(i) => 0 <= i < |st.records| ==> !st.records[i].mirrored
    case Rebuilt => true
  }

  function Step(env: Env, st: State, e: Event): State {
    match e
    case LeaseAdded(l, valid, saved) => AddLease(env, st, l, valid, saved)
    case LeaseRemoved(i, saved) => RemoveLease(env, st, i, saved)
    case RecordAdded(r) => State(AddRecord(env, st.records, r), st.leases)
    case RecordRemoved(i) => if 0 <= i < |st.records| then State(Without(st.records, i), st.leases) else st
    case Rebuilt => Sync(env, st)
  }

  function Run(env: Env, st: State, es: seq<Event>): State {
    if es == [] then st else Step(env, Run(env, st, es[..|es| - 1]), es[|es| - 1])
  }

  predicate AllAdmissible(env: Env, st: State, es: seq<Event>) {
    es == [] ||
    (AllAdmissible(env, st, es[..|es| - 1]) && Admissible(env, Run(env, st, es[..|es| - 1]), es[|es| - 1]))
  }

  lemma {:induction false} AddAllAddsAll(env: Env, base: seq<Record>, ls: seq<Lease>)
    requires Distinct(env, base + Mirror(env, ls)) && |base| + |Mirror(env, ls)| <= MAX_STATIC_RECORDS
    ensures AddAll(env, base, ls) == base + Mirror(env, ls)
  {
    if ls != [] {
      var front, last := ls[..|ls| - 1], ls[|ls| - 1];
      var was, all := base + Mirror(env, front), base + Mirror(env, ls);
      assert forall k :: 0 <= k < |was| ==> all[k] == was[k];
      AddAllAddsAll(env, base, front);
      if last.hostname != "" {
        assert all == was + [MirrorOf(env, last)];
        assert all[|was|] == MirrorOf(env, last);
        assert !Taken(env, was, Fqdn(env, last.hostname));
      }
    }
  }

  lemma GroupedIsClear(env: Env, rs: seq<Record>, r: Record)
    requires Distinct(env, rs + [r])
    ensures !Taken(env, Users(rs) + Owned(rs), r.name)
  {
    var grouped, all := Users(rs) + Owned(rs), rs + [r];
    Filters(rs);
    forall i | 0 <= i < |grouped| ensures !EqualFold(env, grouped[i].name, r.name) {
      assert grouped[i] in rs;
      var k :| 0 <= k < |rs| && rs[k] == grouped[i];
      assert all[k] == rs[k] && all[|rs|] == r;
    }
  }

  lemma {:induction false} RegroupKeepsDistinct(env: Env, rs: seq<Record>)
    requires Distinct(env, rs)
    ensures Distinct(env, Users(rs) + Owned(rs))
  {
    if rs != [] {
      var front, last := rs[..|rs| - 1], rs[|rs| - 1];
      assert rs == front + [last];
      RegroupKeepsDistinct(env, front);
      GroupedIsClear(env, front, last);
      InsertKeepsDistinct(env, Users(front), Owned(front), last);
      assert Users(rs) + Owned(rs) ==
             if last.mirrored then Users(front) + (Owned(front) + [last]) else (Users(front) + [last]) + Owned(front);
    }
  }

  lemma InsertKeepsDistinct(env: Env, a: seq<Record>, b: seq<Record>, r: Record)
    requires Distinct(env, a + b) && !Taken(env, a + b, r.name)
    ensures Distinct(env, (a + [r]) + b) && Distinct(env, a + (b + [r]))
  {
    var both, mid := a + b, (a + [r]) + b;
    assert a + (b + [r]) == both + [r];
    forall i, j | 0 <= i < j < |mid| ensures !EqualFold(env, mid[i].name, mid[j].name) {
      var x, y := if i <= |a| then i else i - 1, if j <= |a| then j else j - 1;
      assert i != |a| ==> mid[i] == both[x];
      assert j != |a| ==> mid[j] == both[y];
    }
  }

  /** In step, a rebuild gives the user's records followed by the leases' own. */
  lemma SyncAgrees(env: Env, st: State)
    requires Kept(env, st)
    ensures Sync(env, st).records == Users(st.records) + Owned(st.records)
    ensures Owned(Sync(env, st).records) == Owned(st.records)
    ensures Kept(env, Sync(env, st))
  {
    var u, o := Users(st.records), Owned(st.records);
    RegroupKeepsDistinct(env, st.records);
    Filters(st.records);
    AddAllAddsAll(env, u, st.leases);
    FiltersOfSum(u, o);
    AllOfOneKind(u, false);
    AllOfOneKind(o, true);
  }

  lemma AddRecordKeepsExactlyWhen(env: Env, st: State, r: Record)
    requires InStep(env, st)
    ensures InStep(env, State(AddRecord(env, st.records, r), st.leases)) <==>
            (r.mirrored ==> !Fits(env, st.records, r.name))
  {
    FiltersOfSum(st.records, [r]);
    AllOfOneKind([r], r.mirrored);
  }

  lemma UnsavedRemoval(env: Env, st: State, index: nat)
    requires Kept(env, st) && index < |st.leases|
    ensures Kept(env, RemoveLease(env, st, index, false)) <==> st.leases[index].hostname == ""
  {
    RemoveLeaseKeepsExactlyWhen(env, st, index, false);
  }

  /** From a mirror that is in step, one operation keeps it exactly when it is admissible. */
  lemma StepKeepsExactlyWhen(env: Env, st: State, e: Event)
    requires Kept(env, st)
    ensures Kept(env, Step(env, st, e)) <==> Admissible(env, st, e)
  {
    match e
    case LeaseAdded(l, valid, saved) => AddLeaseKeepsExactlyWhen(env, st, l, valid, saved);
    case LeaseRemoved(i, saved) =>
      if saved {
        RemoveLeaseKeeps(env, st, i);
      } else if 0 <= i < |st.leases| {
        UnsavedRemoval(env, st, i);
      }
    case RecordAdded(r) =>
      AddRecordKeepsExactlyWhen(env, st, r);
      AddKeepsDistinct(env, st.records, r);
    case RecordRemoved(i) =>
      if 0 <= i < |st.records| {
        RecordRemovalKeepsExactlyWhen(env, st, i);
        WithoutKeepsDistinct(env, st.records, i);
      }
    case Rebuilt => SyncAgrees(env, st);
  }

  /** The records kept lease by lease are the ones a rebuild would make. */
  predicate Agrees(env: Env, st: State) {
    Owned(Sync(env, st).records) == Owned(st.records)
  }

  predicate KeptThroughout(env: Env, st: State, es: seq<Event>) {
    forall k :: 0 <= k <= |es| ==> Kept(env, Run(env, st, es[..k]))
  }

  /**
   Over every run, the mirror is in step after every operation exactly when every operation is
   admissible; and then the records kept lease by lease are the ones a rebuild would make.
   */
  lemma {:induction false} IncrementalAgreesWithRebuild(env: Env, st: State, es: seq<Event>)
    requires Kept(env, st)
    ensures KeptThroughout(env, st, es) <==> AllAdmissible(env, st, es)
    ensures AllAdmissible(env, st, es) ==> Kept(env, Run(env, st, es)) && Agrees(env, Run(env, st, es))
  {
    assert es[..|es|] == es;
    if es == [] {
      SyncAgrees(env, st);
    } else {
      var front, last := es[..|es| - 1], es[|es| - 1];
      IncrementalAgreesWithRebuild(env, st, front);
      OneMoreOperation(env, st, front, last);
      assert es == front + [last];
      if AllAdmissible(env, st, front) {
        StepKeepsExactlyWhen(env, Run(env, st, front), last);
        if Admissible(env, Run(env, st, front), last) {
          SyncAgrees(env, Run(env, st, es));
        }
      }
    }
  }

  lemma OneMoreOperation(env: Env, st: State, front: seq<Event>, e: Event)
    ensures KeptThroughout(env, st, front + [e]) <==>
            KeptThroughout(env, st, front) && Kept(env, Run(env, st, front + [e]))
  {
    var es := front + [e];
    assert es[..|es|] == es;
    assert forall k :: 0 <= k <= |front| ==> es[..k] == front[..k];
    if KeptThroughout(env, st, es) {
      forall k | 0 <= k <= |front| ensures Kept(env, Run(env, st, front[..k])) {
        assert es[..k] == front[..k];
      }
    }
  }

  // ------------------------------------------------------- the leases

  predicate Apart(env: Env, a: Lease, b: Lease) {
    !EqualFold(env, a.mac, b.mac) && a.ip != b.ip
  }

  predicate LeasesApart(env: Env, ls: seq<Lease>) {
    forall i, j :: 0 <= i < j < |ls| ==> Apart(env, ls[i], ls[j])
  }

  /** A valid lease is appended exactly when it shares neither its hardware nor its IP address with another. */
  lemma LeaseIsAddedExactlyWhen(env: Env, st: State, l: Lease, valid: bool, saved: bool)
    ensures var fits := valid && forall i :: 0 <= i < |st.leases| ==> Apart(env, st.leases[i], l);
            && AddLease(env, st, l, valid, saved).leases == (if fits then st.leases + [l] else st.leases)
            && (!fits ==> AddLease(env, st, l, valid, saved) == st)
            && Users(AddLease(env, st, l, valid, saved).records) == Users(st.records)
  {
    if l.hostname != "" {
      FiltersOfSum(st.records, [MirrorOf(env, l)]);
      AllOfOneKind([MirrorOf(env, l)], true);
    }
  }

  /** A removal takes the lease at its place and no user's record. */
  lemma LeaseIsRemoved(env: Env, st: State, index: int, saved: bool)
    ensures var after := RemoveLease(env, st, index, saved);
            && (0 <= index < |st.leases| ==>
                  |after.leases| == |st.leases| - 1
                  && (forall k :: 0 <= k < index ==> after.leases[k] == st.leases[k])
                  && (forall k :: index <= k < |after.leases| ==> after.leases[k] == st.leases[k + 1]))
            && (!(0 <= index < |st.leases|) ==> after == st)
            && Users(after.records) == Users(st.records)
  {
    if 0 <= index < |st.leases| {
      var i := FindMirrored(env, st.records, Fqdn(env, st.leases[index].hostname));
      if i < |st.records| {
        FiltersWithout(st.records, i);
      }
    }
  }

  /** Over every run no two leases share a hardware or an IP address. */
  lemma {:induction false} LeasesStayApart(env: Env, st: State, es: seq<Event>)
    requires LeasesApart(env, st.leases)
    ensures LeasesApart(env, Run(env, st, es).leases)
  {
    if es != [] {
      var front, last := es[..|es| - 1], es[|es| - 1];
      LeasesStayApart(env, st, front);
      var b := Run(env, st, front);
      match last
      case LeaseAdded(l, valid, saved) => LeaseIsAddedExactlyWhen(env, b, l, valid, saved);
      case LeaseRemoved(i, saved) => LeaseIsRemoved(env, b, i, saved);
      case _ =>
    }
  }

  /** A mirrored record that is deleted stays away until the next rebuild, which puts it back. */
  lemma DeletedMirrorIsRebuilt(env: Env, st: State, i: nat)
    requires Kept(env, st) && i < |st.records| && st.records[i].mirrored
    ensures var after := State(Without(st.records, i), st.leases);
            !Agrees(env, after) && Owned(Sync(env, after).records) == Owned(st.records)
  {
    FiltersWithout(st.records, i);
    SyncAgrees(env, st);
  }

  // ------------------------------------------------------- the services

  class DNSService {
    const env: Env
    var records: seq<Record>

    constructor (env: Env, records: seq<Record>)
      ensures this.env == env && this.records == records
    {
      this.env := env;
      this.records := records;
    }

    method AddStaticRecord(rec: Record) returns (ok: bool)
      modifies this
      ensures ok == Fits(env, old(records), rec.name)
      ensures records == AddRecord(env, old(records), rec)
    {
      if |records| >= MAX_STATIC_RECORDS {
        return false;
      }
      for i := 0 to |records|
        invariant records == old(records)
        invariant forall k :: 0 <= k < i ==> !EqualFold(env, records[k].name, rec.name)
      {
        if EqualFold(env, records[i].name, rec.name) {
          return false;
        }
      }
      records := records + [rec];
      ok := true;
    }

    method RemoveStaticRecord(index: int) returns (ok: bool)
      modifies this
      ensures ok == (0 <= index < |old(records)|)
      ensures records == if ok then Without(old(records), index) else old(records)
    {
      if index < 0 || index >= |records| {
        return false;
      }
      records := records[..index] + records[index + 1..];
      ok := true;
    }

    method FindStaticRecordIndexBySource(name: string) returns (index: int)
      ensures index == if FindMirrored(env, records, name) < |records| then FindMirrored(env, records, name) else -1
    {
      for i := 0 to |records|
        invariant forall k :: 0 <= k < i ==> !Hit(env, records[k], name)
      {
        if records[i].mirrored && EqualFold(env, records[i].name, name) {
          return i;
        }
      }
      index := -1;
    }
  }

  class DHCPService {
    const env: Env
    const dns: DNSService
    var leases: seq<Lease>

    ghost predicate Valid()
      reads this
    {
      dns.env == env
    }

    ghost function Abs(): State
      reads this, dns
    {
      State(dns.records, leases)
    }

    constructor (dns: DNSService, leases: seq<Lease>)
      ensures Valid() && this.dns == dns && this.leases == leases
    {
      env := dns.env;
      this.dns := dns;
      this.leases := leases;
    }

    method Clashes(l: Lease) returns (clash: bool)
      ensures clash == LeaseClash(env, leases, l)
    {
      for i := 0 to |leases|
        invariant forall k :: 0 <= k < i ==> !(EqualFold(env, leases[k].mac, l.mac) || leases[k].ip == l.ip)
      {
        if EqualFold(env, leases[i].mac, l.mac) || leases[i].ip == l.ip {
          return true;
        }
      }
      clash := false;
    }

    method AddStaticLease(l: Lease, valid: bool, saved: bool) returns (ok: bool)
      requires Valid()
      modifies this, dns
      ensures Valid() && Abs() == AddLease(env, old(Abs()), l, valid, saved)
      ensures ok == (valid && saved && !LeaseClash(env, old(leases), l))
    {
      if !valid {
        return false;
      }
      var clash := Clashes(l);
      if clash {
        return false;
      }
      leases := leases + [l];
      if !saved {
        return false;
      }
      if l.hostname != "" {
        var _ := dns.AddStaticRecord(MirrorOf(env, l));
      }
      ok := true;
    }

    method RemoveStaticLease(index: int, saved: bool) returns (ok: bool)
      requires Valid()
      modifies this, dns
      ensures Valid() && Abs() == RemoveLease(env, old(Abs()), index, saved)
      ensures ok == (0 <= index < |old(leases)| && saved)
    {
      if index < 0 || index >= |leases| {
        return false;
      }
      var removed := leases[index];
      leases := leases[..index] + leases[index + 1..];
      if !saved {
        return false;
      }
      if removed.hostname != "" {
        var idx := dns.FindStaticRecordIndexBySource(Fqdn(env, removed.hostname));
        if idx >= 0 {
          var _ := dns.RemoveStaticRecord(idx);
        }
      }
      ok := true;
    }

    /** The strip loop: mirrored records are removed one at a time until none is left. */
    method Strip()
      requires Valid()
      modifies dns
      ensures Valid() && dns.records == Users(old(dns.records))
    {
      while true
        invariant Users(dns.records) == Users(old(dns.records))
        decreases |dns.records|
      {
        var idx := -1;
        for i := 0 to |dns.records|
          invariant forall k :: 0 <= k < i ==> !dns.records[k].mirrored
          invariant idx == -1
        {
          if dns.records[i].mirrored {
            idx := i;
            break;
          }
        }
        if idx < 0 {
          AllOfOneKind(dns.records, false);
          return;
        }
        FiltersWithout(dns.records, idx);
        var _ := dns.RemoveStaticRecord(idx);
      }
    }

    method SyncStaticDNSRecords()
      requires Valid()
      modifies dns
      ensures Valid() && Abs() == Sync(env, old(Abs()))
    {
      Strip();
      ghost var users := dns.records;
      for k := 0 to |leases|
        invariant dns.records == AddAll(env, users, leases[..k])
      {
        assert leases[..k + 1][..k] == leases[..k];
        if leases[k].hostname != "" {
          var _ := dns.AddStaticRecord(MirrorOf(env, leases[k]));
        }
      }
      assert leases[..|leases|] == leases;
    }
  }
}
