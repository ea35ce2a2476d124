/**
 The allocator of peer tunnel addresses: the byte-array successor and the search for the
 lowest free host address of the server's pool.
 */
module TunnelPool {
  import opened Core
  import opened Arith
  import opened Cidr

  type Byte = b: int | 0 <= b < 256

  /** The number a big-endian byte string stands for. */
  function Value(bytes: seq<Byte>): nat {
    if bytes == [] then 0
    else Value(bytes[..|bytes| - 1]) * 256 + bytes[|bytes| - 1]
  }

  function Pow256(n: nat): (r: nat)
    ensures r >= 1
  {
    if n == 0 then 1 else 256 * Pow256(n - 1)
  }

  lemma {:induction false} ValueBound(bytes: seq<Byte>)
    ensures Value(bytes) < Pow256(|bytes|)
  {
    if bytes != [] {
      ValueBound(bytes[..|bytes| - 1]);
    }
  }

  function Bytes(v: nat, n: nat): (r: seq<Byte>)
    requires v < Pow256(n)
    ensures |r| == n && Value(r) == v
  {
    if n == 0 then []
    else
      var front := Bytes(v / 256, n - 1);
      var r := front + [v % 256];
      assert r[..n - 1] == front;
      r
  }

  /** Add one at the right end, carrying out of every byte that is full. */
  function Successor(bytes: seq<Byte>): (r: seq<Byte>)
    ensures |r| == |bytes|
  {
    if bytes == [] then []
    else
      var front, last := bytes[..|bytes| - 1], bytes[|bytes| - 1];
      if last == 255 then Successor(front) + [0] else front + [last + 1]
  }

  /** The carry chain is addition modulo the width: the all-ones address wraps to zero. */
  lemma {:induction false} SuccessorIsPlusOne(bytes: seq<Byte>)
    ensures Value(Successor(bytes)) == (if Value(bytes) + 1 == Pow256(|bytes|) then 0 else Value(bytes) + 1)
  {
    if bytes != [] {
      var front, last := bytes[..|bytes| - 1], bytes[|bytes| - 1];
      SuccessorIsPlusOne(front);
      ValueBound(front);
      var next := Successor(bytes);
      assert next[..|next| - 1] == if last == 255 then Successor(front) else front;
      assert Pow256(|bytes|) == 256 * Pow256(|front|);
    }
  }

  /** nextIP: clones the address, then increments the clone in place. */
  method NextIP(ip: array<Byte>) returns (out: array<Byte>)
    ensures fresh(out) && out.Length == ip.Length
    ensures out[..] == Successor(ip[..])
    ensures Value(out[..]) == (if Value(ip[..]) + 1 == Pow256(ip.Length) then 0 else Value(ip[..]) + 1)
  {
    out := Clone(ip);
    ghost var was := ip[..];
    var i := out.Length - 1;
    while i >= 0
      invariant -1 <= i < out.Length == |was|
      invariant forall k :: 0 <= k <= i ==> out[k] == was[k]
      invariant forall k :: i < k < |was| ==> was[k] == 255 && out[k] == 0
    {
      var b: int := out[i];
      out[i] := (b + 1) % 256;
      if out[i] != 0 {
        break;
      }
      i := i - 1;
    }
    CarryChain(was, out[..], i);
    SuccessorIsPlusOne(was);
  }

  /** Full bytes to the right of `i` turned to zero, and byte `i` up by one, is the successor. */
  lemma {:induction false} CarryChain(was: seq<Byte>, out: seq<Byte>, i: int)
    requires |was| == |out| && -1 <= i < |was|
    requires forall k :: 0 <= k < i ==> out[k] == was[k]
    requires i >= 0 ==> was[i] != 255 && out[i] == was[i] + 1
    requires forall k :: i < k < |was| ==> was[k] == 255 && out[k] == 0
    ensures out == Successor(was)
  {
    if was != [] {
      var front := was[..|was| - 1];
      if i == |was| - 1 {
        assert out == front + [was[i] + 1];
      } else {
        CarryChain(front, out[..|out| - 1], i);
        assert out == out[..|out| - 1] + [0];
      }
    }
  }

  method Clone(ip: array<Byte>) returns (out: array<Byte>)
    ensures fresh(out) && out[..] == ip[..]
  {
    out := new Byte[ip.Length];
    forall k | 0 <= k < ip.Length {
      out[k] := ip[k];
    }
  }

  /** The lowest address of [v, last) that is not used. */
  function LowestFrom(v: nat, last: nat, used: set<nat>): (r: Option<nat>)
    requires v <= last
    ensures r.Some? ==> v <= r.value < last && r.value !in used && forall u :: v <= u < r.value ==> u in used
    ensures r.None? ==> forall u :: v <= u < last ==> u in used
    decreases last - v
  {
    if v == last then None
    else if v !in used then Some(v)
    else LowestFrom(v + 1, last, used)
  }

  /** Host addresses lie strictly between the network address and the last address. */
  predicate IsHost(pool: Prefix, v: nat)
    requires pool.len <= pool.width
  {
    pool.base < v < pool.base + Size(pool) - 1
  }

  function LowestFree(pool: Prefix, used: set<nat>): (r: Option<nat>)
    requires ValidPrefix(pool)
    ensures r.Some? ==> IsHost(pool, r.value) && r.value !in used
    ensures r.Some? ==> forall u :: IsHost(pool, u) && u !in used ==> r.value <= u
    ensures r.None? <==> forall u :: IsHost(pool, u) ==> u in used
  {
    if Size(pool) <= 2 then None
    else LowestFrom(pool.base + 1, pool.base + Size(pool) - 1, used)
  }

  lemma EndFits(p: Prefix)
    requires ValidPrefix(p)
    ensures p.base + Size(p) <= Pow2(p.width)
  {
    MulMod(1, Pow2(p.width));
    MultipleOfSmaller(Pow2(p.width), p.width, p.width - p.len);
    MultiplesApart(p.base, Pow2(p.width), Size(p));
  }

  /** A pool narrower than everything does not contain the address its last address wraps to. */
  lemma WrapLeavesPool(p: Prefix)
    requires ValidPrefix(p) && p.len >= 1
    ensures p.base + Size(p) == Pow2(p.width) ==> p.base > 0
  {
    Pow2Sum(p.len - 1, p.width - p.len);
    assert Pow2(p.width) == 2 * Pow2(p.width - 1);
    assert Pow2(p.width - 1) == Pow2(p.len - 1) * Size(p);
    Scaled(1, Pow2(p.len - 1), Size(p));
  }

  lemma {:induction false} BytesAndBits(n: nat)
    ensures Pow256(n) == Pow2(8 * n)
  {
    if n > 0 {
      BytesAndBits(n - 1);
      Pow2Sum(8, 8 * (n - 1));
      assert Pow2(8) == 256;
    }
  }

  /** The pool contains the address in the array. */
  method Holds(pool: Prefix, ip: array<Byte>) returns (b: bool)
    requires ValidPrefix(pool)
    ensures b == (pool.base <= Value(ip[..]) < pool.base + Size(pool))
  {
    var a := Addr(pool.width, Value(ip[..]));
    ContainsIsRange(pool, a);
    b := Contains(pool, a);
  }

  /** The first unused address of [1, top), or else zero. */
  function FirstAround(top: nat, used: set<nat>): (r: Option<nat>)
    requires top >= 1
    ensures r.Some? ==> r.value < top && r.value !in used
    ensures r.Some? && r.value > 0 ==> forall u :: 0 < u < r.value ==> u in used
    ensures r.None? || r.value == 0 ==> forall u :: 0 < u < top ==> u in used
    ensures r.None? ==> 0 in used
  {
    var r := LowestFrom(1, top, used);
    if r.Some? then r else if 0 !in used then Some(0) else None
  }

  /**
   What nextTunnelIP hands out. A pool that is the whole address space has no last address: there
   the walk passes every address and wraps to zero, and with all of them used it never returns.
   */
  function Handed(pool: Prefix, used: set<nat>): Option<nat>
    requires ValidPrefix(pool)
  {
    if pool.len >= 1 then LowestFree(pool, used) else FirstAround(Pow2(pool.width), used)
  }

  lemma WholeSpace(p: Prefix)
    requires ValidPrefix(p) && p.len == 0
    ensures p.base == 0 && Size(p) == Pow2(p.width)
  {
    if p.base > 0 {
      MulMod(1, Pow2(p.width));
      MultiplesApart(0, p.base, Pow2(p.width));
    }
  }

  /** What is handed out lies in the pool and is not used. */
  lemma HandedFits(pool: Prefix, used: set<nat>)
    requires ValidPrefix(pool) && Handed(pool, used).Some?
    ensures var v := Handed(pool, used).value; pool.base <= v < pool.base + Size(pool) && v !in used
  {
    if pool.len == 0 {
      WholeSpace(pool);
    }
  }

  lemma LowestFreeIs(pool: Prefix, used: set<nat>, v: nat)
    requires ValidPrefix(pool) && pool.base < v < pool.base + Size(pool)
    requires forall u :: pool.base < u < v ==> u in used
    ensures v < pool.base + Size(pool) - 1 && v !in used ==> LowestFree(pool, used) == Some(v)
    ensures v == pool.base + Size(pool) - 1 ==> LowestFree(pool, used).None?
  {
  }

  lemma FirstAroundIs(top: nat, used: set<nat>, at: nat)
    requires 0 < at <= top && forall u :: 0 < u < at ==> u in used
    ensures at < top && at !in used ==> FirstAround(top, used) == Some(at)
    ensures at == top && FirstAround(top, used).Some? ==> FirstAround(top, used) == Some(0)
  {
  }

  /** What the walk knows at `at`, with every address between the pool's first one and `at` used. */
  lemma HandedAt(pool: Prefix, used: set<nat>, at: nat, end: nat)
    requires ValidPrefix(pool) && end == pool.base + Size(pool) && pool.base < at <= end
    requires pool.len == 0 ==> pool.base == 0 && end == Pow2(pool.width)
    requires forall u :: pool.base < u < at ==> u in used
    ensures at < (if pool.len == 0 then end else end - 1) && at !in used ==> Handed(pool, used) == Some(at)
    ensures pool.len >= 1 && at == end - 1 ==> Handed(pool, used).None?
    ensures pool.len == 0 && at == end && Handed(pool, used).Some? ==> Handed(pool, used) == Some(0) && 0 !in used
  {
    if pool.len == 0 {
      FirstAroundIs(end, used, at);
    } else if at < end {
      LowestFreeIs(pool, used, at);
    }
  }

  /**
   nextTunnelIP: walks the pool address by address and stops at the first one that is
   neither the last address nor used. `used` holds the server's own address too.
   */
  method NextTunnelIP(pool: Prefix, poolIP: array<Byte>, used: set<nat>) returns (r: Option<nat>)
    requires ValidPrefix(pool)
    requires 8 * poolIP.Length == pool.width && Value(poolIP[..]) == pool.base
    requires pool.len == 0 ==> Handed(pool, used).Some?
    ensures r == Handed(pool, used)
  {
    BytesAndBits(poolIP.Length);
    EndFits(pool);
    if pool.len >= 1 {
      WrapLeavesPool(pool);
    } else {
      WholeSpace(pool);
    }
    r := Walk(pool, poolIP, used, pool.base + Size(pool));
  }

  /** The walk itself: `end` is one past the last address of the pool, which may be where addresses wrap. */
  method Walk(pool: Prefix, poolIP: array<Byte>, used: set<nat>, ghost end: nat) returns (r: Option<nat>)
    requires ValidPrefix(pool) && Value(poolIP[..]) == pool.base
    requires pool.base < end == pool.base + Size(pool) <= Pow256(poolIP.Length)
    requires if pool.len == 0 then
               pool.base == 0 && end == Pow256(poolIP.Length) == Pow2(pool.width) && Handed(pool, used).Some?
             else end == Pow256(poolIP.Length) ==> pool.base > 0
    ensures r == Handed(pool, used)
  {
    var ip := NextIP(poolIP);
    ghost var at := pool.base + 1;
    var inside := Holds(pool, ip);
    while inside
      invariant ip.Length == poolIP.Length
      invariant pool.base < at <= end
      invariant Value(ip[..]) == if at == Pow256(poolIP.Length) then 0 else at
      invariant inside <==> pool.len == 0 || at < end
      invariant forall u :: pool.base < u < at ==> u in used
      decreases end - at
    {
      var v := Value(ip[..]);
      HandedAt(pool, used, at, end);
      var following := NextIP(ip);
      var more := Holds(pool, following);
      if !more {
        return None;
      }
      if v !in used {
        return Some(v);
      }
      ip, inside := following, more;
      at := at + 1;
    }
    EmptyWalk(pool, used);
    r := None;
  }

  /** The address the search looks at in its round `n`. */
  function Looked(poolIP: seq<Byte>, n: nat): (ip: seq<Byte>)
    ensures |ip| == |poolIP|
  {
    Successor(if n == 0 then poolIP else Looked(poolIP, n - 1))
  }

  /** The rounds count up from the base, address by address, and wrap to zero at the end of the address space. */
  lemma {:induction false} LookedCountsUp(poolIP: seq<Byte>, n: nat)
    requires Value(poolIP) + n + 1 <= Pow256(|poolIP|)
    ensures Value(Looked(poolIP, n)) == if Value(poolIP) + n + 1 == Pow256(|poolIP|) then 0 else Value(poolIP) + n + 1
  {
    if n == 0 {
      SuccessorIsPlusOne(poolIP);
    } else {
      LookedCountsUp(poolIP, n - 1);
      SuccessorIsPlusOne(Looked(poolIP, n - 1));
    }
  }

  /**
   On a pool of every address with all of them used no round is the last: the address looked at and
   the one after it lie in the pool, and the address is taken.
   */
  lemma SearchGoesOnForEver(pool: Prefix, poolIP: seq<Byte>, used: set<nat>, n: nat)
    requires ValidPrefix(pool) && pool.len == 0 && 8 * |poolIP| == pool.width && Handed(pool, used).None?
    ensures var ip := Looked(poolIP, n);
            && Contains(pool, Addr(pool.width, Value(ip)))
            && Contains(pool, Addr(pool.width, Value(Successor(ip))))
            && Value(ip) in used
  {
    var ip := Looked(poolIP, n);
    InWholeSpace(pool, ip);
    InWholeSpace(pool, Successor(ip));
    AllAroundUsed(pool, used, Value(ip));
  }

  lemma AllAroundUsed(pool: Prefix, used: set<nat>, v: nat)
    requires ValidPrefix(pool) && pool.len == 0 && Handed(pool, used).None? && v < Pow2(pool.width)
    ensures v in used
  {
    assert FirstAround(Pow2(pool.width), used).None?;
  }

  lemma InWholeSpace(pool: Prefix, ip: seq<Byte>)
    requires ValidPrefix(pool) && pool.len == 0 && 8 * |ip| == pool.width
    ensures Contains(pool, Addr(pool.width, Value(ip))) && Value(ip) < Pow2(pool.width)
  {
    WholeSpace(pool);
    BytesAndBits(|ip|);
    ValueBound(ip);
    ContainsIsRange(pool, Addr(pool.width, Value(ip)));
  }

  /** A pool of one address has none to hand out. */
  lemma EmptyWalk(pool: Prefix, used: set<nat>)
    requires ValidPrefix(pool) && pool.len >= 1
    ensures Size(pool) == 1 ==> Handed(pool, used).None?
  {
  }
}
