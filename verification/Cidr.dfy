/**
 Addresses and CIDR networks as the numbers they stand for, at both widths (32 and 128).
 */
module Cidr {
  import opened Arith

  datatype Addr = Addr(width: nat, value: nat)

  predicate ValidAddr(a: Addr) {
    (a.width == 32 || a.width == 128) && a.value < Pow2(a.width)
  }

  /** A network: the base address has no bit set past the prefix length. */
  datatype Prefix = Prefix(width: nat, base: nat, len: nat)

  function Size(p: Prefix): nat
    requires p.len <= p.width
  {
    Pow2(p.width - p.len)
  }

  predicate ValidPrefix(p: Prefix) {
    && (p.width == 32 || p.width == 128)
    && p.len <= p.width
    && p.base < Pow2(p.width)
    && p.base % Size(p) == 0
  }

  function BaseOf(p: Prefix): Addr {
    Addr(p.width, p.base)
  }

  function LastOf(p: Prefix): Addr
    requires p.len <= p.width
  {
    Addr(p.width, p.base + Size(p) - 1)
  }

  /** net.IPNet.Contains: the address masked to the prefix length is the base. */
  predicate Contains(p: Prefix, a: Addr)
    requires p.len <= p.width
  {
    a.width == p.width && a.value - a.value % Size(p) == p.base
  }

  /** net.ParseCIDR: the network an address with a prefix length lies in. */
  function NetworkOf(a: Addr, len: nat): (p: Prefix)
    requires ValidAddr(a) && len <= a.width
    ensures ValidPrefix(p) && Contains(p, a) && p.len == len
  {
    var size := Pow2(a.width - len);
    MaskIsMultiple(a.value, size);
    Prefix(a.width, a.value - a.value % size, len)
  }

  ghost predicate Overlaps(p: Prefix, q: Prefix)
    requires p.len <= p.width && q.len <= q.width
  {
    exists a :: Contains(p, a) && Contains(q, a)
  }

  // ------------------------------------------------------- containment

  /** Masking to the prefix length is the same as lying between the two ends. */
  lemma ContainsIsRange(p: Prefix, a: Addr)
    requires ValidPrefix(p)
    ensures Contains(p, a) <==> a.width == p.width && p.base <= a.value < p.base + Size(p)
  {
    MaskIsRange(a.value, p.base, Size(p));
  }

  /** Overlapping prefixes are nested: the longer one lies inside the shorter one. */
  lemma Nested(p: Prefix, q: Prefix, a: Addr)
    requires ValidPrefix(p) && ValidPrefix(q) && p.len >= q.len
    requires Contains(p, a) && Contains(q, a)
    ensures q.base <= p.base && p.base + Size(p) <= q.base + Size(q)
    ensures forall b :: Contains(p, b) ==> Contains(q, b)
  {
    EndsNest(p, q, a);
    InsideIsContained(p, q);
  }

  lemma EndsNest(p: Prefix, q: Prefix, a: Addr)
    requires ValidPrefix(p) && ValidPrefix(q) && p.len >= q.len
    requires Contains(p, a) && Contains(q, a)
    ensures q.base <= p.base && p.base + Size(p) <= q.base + Size(q)
  {
    ContainsIsRange(p, a);
    ContainsIsRange(q, a);
    MultipleOfSmaller(q.base, q.width - q.len, p.width - p.len);
    PowerDivides(q.width - q.len, p.width - p.len);
    StretchesNest(p.base, Size(p), q.base, Size(q), a.value);
  }

  lemma PowerDivides(big: nat, small: nat)
    requires small <= big
    ensures Pow2(big) % Pow2(small) == 0
  {
    MulMod(1, Pow2(big));
    MultipleOfSmaller(Pow2(big), big, small);
  }

  lemma InsideIsContained(p: Prefix, q: Prefix)
    requires ValidPrefix(p) && ValidPrefix(q) && p.width == q.width
    requires q.base <= p.base && p.base + Size(p) <= q.base + Size(q)
    ensures forall b :: Contains(p, b) ==> Contains(q, b)
  {
    forall b | Contains(p, b) ensures Contains(q, b) {
      ContainsIsRange(p, b);
      ContainsIsRange(q, b);
    }
  }

  /** The test the code makes, one base inside the other network, is exactly overlap. */
  lemma BaseContainmentIsOverlap(p: Prefix, q: Prefix)
    requires ValidPrefix(p) && ValidPrefix(q)
    ensures Contains(p, BaseOf(q)) || Contains(q, BaseOf(p)) <==> Overlaps(p, q)
  {
    ContainsIsRange(p, BaseOf(p));
    ContainsIsRange(q, BaseOf(q));
    if Overlaps(p, q) {
      var a :| Contains(p, a) && Contains(q, a);
      if p.len >= q.len {
        Nested(p, q, a);
      } else {
        Nested(q, p, a);
      }
    }
  }

  // ------------------------------------------------------- private ranges

  const TEN := Prefix(32, 0x0A00_0000, 8)
  const ONE_SEVEN_TWO := Prefix(32, 0xAC10_0000, 12)
  const ONE_NINE_TWO := Prefix(32, 0xC0A8_0000, 16)
  const ULA := Prefix(128, 0xFC00_0000_0000_0000_0000_0000_0000_0000, 7)

  /** net.IP.IsPrivate: section 3 of RFC 1918 for IPv4 and fc00::/7 for IPv6. */
  predicate IsPrivate(a: Addr) {
    Contains(TEN, a) || Contains(ONE_SEVEN_TWO, a) || Contains(ONE_NINE_TWO, a) || Contains(ULA, a)
  }

  lemma BlocksValid()
    ensures ValidPrefix(TEN) && ValidPrefix(ONE_SEVEN_TWO) && ValidPrefix(ONE_NINE_TWO) && ValidPrefix(ULA)
  {
    Powers();
    WidePowers();
  }

  lemma PrivateRanges(a: Addr)
    ensures IsPrivate(a) <==>
            || (a.width == 32 && 0x0A00_0000 <= a.value < 0x0B00_0000)
            || (a.width == 32 && 0xAC10_0000 <= a.value < 0xAC20_0000)
            || (a.width == 32 && 0xC0A8_0000 <= a.value < 0xC0A9_0000)
            || (a.width == 128 && 0xFC00_0000_0000_0000_0000_0000_0000_0000 <= a.value < 0xFE00_0000_0000_0000_0000_0000_0000_0000)
  {
    BlocksValid();
    Powers();
    WidePowers();
    ContainsIsRange(TEN, a);
    ContainsIsRange(ONE_SEVEN_TWO, a);
    ContainsIsRange(ONE_NINE_TWO, a);
    ContainsIsRange(ULA, a);
  }

  /** A network that starts where a private block starts but is wider is not private at its far end. */
  lemma WiderBlockLeaks(p: Prefix, block: Prefix)
    requires block in {TEN, ONE_SEVEN_TWO, ONE_NINE_TWO, ULA}
    requires ValidPrefix(p) && p.width == block.width && p.base == block.base && p.len < block.len
    ensures !IsPrivate(LastOf(p))
  {
    PrivateRanges(LastOf(p));
    if block == ULA {
      WideStep(p);
    } else {
      NarrowStep(p, block);
    }
  }

  lemma WideStep(p: Prefix)
    requires ValidPrefix(p) && p.width == 128 && p.base == ULA.base && p.len < 7
    ensures p.len == 6 && Size(p) == 0x400_0000_0000_0000_0000_0000_0000_0000
  {
    WidePowers();
    if p.len <= 5 { MultipleOfSmaller(p.base, 128 - p.len, 123); }
  }

  lemma NarrowStep(p: Prefix, block: Prefix)
    requires block in {TEN, ONE_SEVEN_TWO, ONE_NINE_TWO}
    requires ValidPrefix(p) && p.width == 32 && p.base == block.base && p.len < block.len
    ensures block != ONE_SEVEN_TWO
    ensures block == TEN ==> Size(p) == 0x200_0000
    ensures block == ONE_NINE_TWO ==> Size(p) in {0x2_0000, 0x4_0000, 0x8_0000}
  {
    Powers();
    if block == TEN {
      if p.len <= 6 { MultipleOfSmaller(p.base, 32 - p.len, 26); }
    } else if block == ONE_SEVEN_TWO {
      MultipleOfSmaller(p.base, 32 - p.len, 21);
    } else if p.len <= 12 {
      MultipleOfSmaller(p.base, 32 - p.len, 20);
    }
  }

  /** Checking both ends is enough: a network with private ends is private throughout. */
  lemma PrivateEndsMeanPrivateBlock(p: Prefix, a: Addr)
    requires ValidPrefix(p) && IsPrivate(BaseOf(p)) && IsPrivate(LastOf(p)) && Contains(p, a)
    ensures IsPrivate(a)
  {
    BlocksValid();
    var block :| block in {TEN, ONE_SEVEN_TWO, ONE_NINE_TWO, ULA} && Contains(block, BaseOf(p));
    ContainsIsRange(p, BaseOf(p));
    ContainsIsRange(block, BaseOf(p));
    if p.len >= block.len {
      Nested(p, block, BaseOf(p));
    } else {
      Nested(block, p, BaseOf(p));
      WiderBlockLeaks(p, block);
    }
  }
}
