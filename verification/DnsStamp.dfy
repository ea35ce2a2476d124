/**
 DNS stamps for DNS-over-HTTPS: the bytes built from a URL and the decoder that walks arbitrary bytes,
 against the grammar of the DNS-over-HTTPS section of the dnscrypt.info stamp specification.
 */
module DnsStamp {
  import opened Core

  type Byte = b: int | 0 <= b < 256

  type Bytes = seq<Byte>

  const SLASH: Byte := 47
  const DOH: Byte := 0x02
  const LONGEST := 127

  // ------------------------------------------------------- the grammar

  /** A length-prefixed field; the decoder ignores the high bit of the length. */
  datatype Field = Field(high: bool, body: Bytes)

  datatype Stamp = Stamp(
    protocol: Byte, props: Bytes, addr: Field, hashes: seq<Bytes>, host: Field, path: Field, tail: Bytes)

  function Frame(high: bool, body: Bytes): Bytes
    requires |body| <= LONGEST
  {
    [if high then 128 + |body| else |body|] + body
  }

  /** Entries of which each but the last has the high bit set. */
  function Chain(es: seq<Bytes>): Bytes
    requires es != [] && forall i :: 0 <= i < |es| ==> |es[i]| <= LONGEST
  {
    if |es| == 1 then Frame(false, es[0]) else Frame(true, es[0]) + Chain(es[1..])
  }

  predicate WellFormed(s: Stamp) {
    && |s.props| == 8 && s.hashes != []
    && |s.addr.body| <= LONGEST && |s.host.body| <= LONGEST && |s.path.body| <= LONGEST
    && forall i :: 0 <= i < |s.hashes| ==> |s.hashes[i]| <= LONGEST
  }

  function FieldBytes(f: Field): Bytes
    requires |f.body| <= LONGEST
  {
    Frame(f.high, f.body)
  }

  function Serialized(s: Stamp): Bytes
    requires WellFormed(s)
  {
    [s.protocol] + (s.props + (FieldBytes(s.addr) + (Chain(s.hashes) +
      (FieldBytes(s.host) + (FieldBytes(s.path) + s.tail)))))
  }

  function Slashed(p: Bytes): Bytes {
    if p != [] && p[0] == SLASH then p else [SLASH] + p
  }

  // ------------------------------------------------------- the decoder

  /** readLP: the field at the cursor and the cursor after it. */
  function ReadLP(raw: Bytes, cursor: nat): (r: Option<(Bytes, nat)>)
    ensures r.Some? ==> cursor < r.value.1 <= |raw|
  {
    if cursor >= |raw| then None
    else
      var n := raw[cursor] % 128;
      if cursor + 1 + n > |raw| then None
      else Some((raw[cursor + 1..cursor + 1 + n], cursor + 1 + n))
  }

  /** skipVLP: the cursor after the chain. */
  function SkipVLP(raw: Bytes, cursor: nat): (r: Option<nat>)
    ensures r.Some? ==> cursor < r.value <= |raw|
    decreases |raw| - cursor
  {
    if cursor >= |raw| then None
    else
      var next := cursor + 1 + raw[cursor] % 128;
      if next > |raw| then None
      else if raw[cursor] >= 128 then SkipVLP(raw, next)
      else Some(next)
  }

  /** decodeDoHStamp: the host and the path. */
  function Decode(raw: Bytes): Option<(Bytes, Bytes)> {
    if |raw| < 9 then None
    else
      var addr := ReadLP(raw, 9);
      if addr.None? then None
      else
        var hashes := SkipVLP(raw, addr.value.1);
        if hashes.None? then None
        else
          var host := ReadLP(raw, hashes.value);
          if host.None? then None
          else
            var path := ReadLP(raw, host.value.1);
            if path.None? then None else Some((host.value.0, Slashed(path.value.0)))
  }

  // ------------------------------------------------------- every stamp is decoded

  lemma ReadsField(pre: Bytes, f: Field, post: Bytes)
    requires |f.body| <= LONGEST
    ensures ReadLP(pre + (FieldBytes(f) + post), |pre|) == Some((f.body, |pre| + |FieldBytes(f)|))
  {
    var raw := pre + (FieldBytes(f) + post);
    assert raw[|pre|] == FieldBytes(f)[0];
    assert raw[|pre| + 1..|pre| + 1 + |f.body|] == f.body;
  }

  lemma {:induction false} SkipsChain(pre: Bytes, es: seq<Bytes>, post: Bytes)
    requires es != [] && forall i :: 0 <= i < |es| ==> |es[i]| <= LONGEST
    ensures SkipVLP(pre + (Chain(es) + post), |pre|) == Some(|pre| + |Chain(es)|)
    decreases |es|
  {
    var raw, first := pre + (Chain(es) + post), Frame(|es| > 1, es[0]);
    assert raw[|pre|] == first[0];
    if |es| > 1 {
      assert raw == (pre + first) + (Chain(es[1..]) + post);
      SkipsChain(pre + first, es[1..], post);
    }
  }

  /** Seven parts laid end to end, seen from each place where the decoder reads. */
  lemma Regroup(p: Bytes, q: Bytes, r: Bytes, s: Bytes, t: Bytes, u: Bytes, v: Bytes)
    ensures var raw := p + (q + (r + (s + (t + (u + v)))));
            && raw == (p + q) + (r + (s + (t + (u + v))))
            && raw == (p + q + r) + (s + (t + (u + v)))
            && raw == (p + q + r + s) + (t + (u + v))
            && raw == (p + q + r + s + t) + (u + v)
            && raw == (p + q + r + s + t + u) + v
  {
  }

  lemma DecodeByParts(raw: Bytes, addr: Bytes, i: nat, j: nat, host: Bytes, k: nat, path: Bytes, l: nat)
    requires |raw| >= 9 && ReadLP(raw, 9) == Some((addr, i)) && SkipVLP(raw, i) == Some(j)
    requires ReadLP(raw, j) == Some((host, k)) && ReadLP(raw, k) == Some((path, l))
    ensures Decode(raw) == Some((host, Slashed(path)))
  {
  }

  lemma ReadsHead(p: Bytes, addr: Field, hashes: seq<Bytes>, rest: Bytes)
    requires |addr.body| <= LONGEST && hashes != [] && forall i :: 0 <= i < |hashes| ==> |hashes[i]| <= LONGEST
    ensures var r, c := FieldBytes(addr), Chain(hashes);
            var raw := p + (r + (c + rest));
            ReadLP(raw, |p|) == Some((addr.body, |p + r|)) && SkipVLP(raw, |p + r|) == Some(|p + r + c|)
  {
    var r, c := FieldBytes(addr), Chain(hashes);
    ReadsField(p, addr, c + rest);
    SkipsChain(p + r, hashes, rest);
    assert p + (r + (c + rest)) == (p + r) + (c + rest);
  }

  lemma ReadsTail(p: Bytes, host: Field, path: Field, rest: Bytes)
    requires |host.body| <= LONGEST && |path.body| <= LONGEST
    ensures var h, u := FieldBytes(host), FieldBytes(path);
            var raw := p + (h + (u + rest));
            ReadLP(raw, |p|) == Some((host.body, |p + h|)) && ReadLP(raw, |p + h|) == Some((path.body, |p + h + u|))
  {
    var h, u := FieldBytes(host), FieldBytes(path);
    ReadsField(p, host, u + rest);
    ReadsField(p + h, path, rest);
    assert p + (h + (u + rest)) == (p + h) + (u + rest);
  }

  /** Whatever the protocol, the properties, the hashes and the tail, decoding gives the host and the path. */
  lemma DecodesEveryStamp(s: Stamp)
    requires WellFormed(s)
    ensures Decode(Serialized(s)) == Some((s.host.body, Slashed(s.path.body)))
  {
    var p, q, r, c := [s.protocol], s.props, FieldBytes(s.addr), Chain(s.hashes);
    var h, u, z := FieldBytes(s.host), FieldBytes(s.path), s.tail;
    Regroup(p, q, r, c, h, u, z);
    ReadsHead(p + q, s.addr, s.hashes, h + (u + z));
    ReadsTail(p + q + r + c, s.host, s.path, z);
    DecodeByParts(Serialized(s), s.addr.body, |p + q + r|, |p + q + r + c|, s.host.body, |p + q + r + c + h|,
                  s.path.body, |p + q + r + c + h + u|);
  }

  // ------------------------------------------------------- nothing else is decoded

  lemma FieldRead(raw: Bytes, cursor: nat)
    requires ReadLP(raw, cursor).Some?
    ensures var (body, next) := ReadLP(raw, cursor).value;
            |body| <= LONGEST && raw[cursor..next] == Frame(raw[cursor] >= 128, body)
  {
  }

  /** The entries skipVLP walks over. */
  function Skipped(raw: Bytes, cursor: nat): seq<Bytes>
    requires SkipVLP(raw, cursor).Some?
    decreases |raw| - cursor
  {
    var next := cursor + 1 + raw[cursor] % 128;
    [raw[cursor + 1..next]] + (if raw[cursor] >= 128 then Skipped(raw, next) else [])
  }

  lemma {:induction false} ChainRead(raw: Bytes, cursor: nat)
    requires SkipVLP(raw, cursor).Some?
    ensures var es := Skipped(raw, cursor); es != [] && forall i :: 0 <= i < |es| ==> |es[i]| <= LONGEST
    ensures raw[cursor..SkipVLP(raw, cursor).value] == Chain(Skipped(raw, cursor))
    decreases |raw| - cursor
  {
    var next, end := cursor + 1 + raw[cursor] % 128, SkipVLP(raw, cursor).value;
    if raw[cursor] >= 128 {
      ChainRead(raw, next);
      assert Skipped(raw, cursor)[1..] == Skipped(raw, next);
      assert raw[cursor..end] == raw[cursor..next] + raw[next..end];
      assert raw[cursor..next] == Frame(true, raw[cursor + 1..next]);
    } else {
      assert raw[cursor..next] == Frame(false, raw[cursor + 1..next]);
    }
  }

  /** The stamp that bytes the decoder accepts are the serialisation of. */
  function StampOf(raw: Bytes): Stamp
    requires Decode(raw).Some?
  {
    var addr := ReadLP(raw, 9).value;
    var hashes := SkipVLP(raw, addr.1).value;
    var host := ReadLP(raw, hashes).value;
    var path := ReadLP(raw, host.1).value;
    Stamp(raw[0], raw[1..9], Field(raw[9] >= 128, addr.0), Skipped(raw, addr.1),
          Field(raw[hashes] >= 128, host.0), Field(raw[host.1] >= 128, path.0), raw[path.1..])
  }

  lemma Cuts(raw: Bytes, i: nat, j: nat, k: nat, l: nat)
    requires 9 <= i <= j <= k <= l <= |raw|
    ensures raw == [raw[0]] + (raw[1..9] + (raw[9..i] + (raw[i..j] + (raw[j..k] + (raw[k..l] + raw[l..])))))
  {
  }

  lemma DecodedIsAStamp(raw: Bytes)
    requires Decode(raw).Some?
    ensures WellFormed(StampOf(raw)) && Serialized(StampOf(raw)) == raw
  {
    var addr := ReadLP(raw, 9).value;
    var hashes := SkipVLP(raw, addr.1).value;
    var host := ReadLP(raw, hashes).value;
    var path := ReadLP(raw, host.1).value;
    FieldRead(raw, 9);
    ChainRead(raw, addr.1);
    FieldRead(raw, hashes);
    FieldRead(raw, host.1);
    Cuts(raw, addr.1, hashes, host.1, path.1);
  }

  ghost predicate Reads(s: Stamp, raw: Bytes, host: Bytes, path: Bytes) {
    WellFormed(s) && Serialized(s) == raw && s.host.body == host && Slashed(s.path.body) == path
  }

  /** On arbitrary bytes the decoder answers exactly when they are a stamp, with that stamp's host and path. */
  lemma DecodesExactlyTheStamps(raw: Bytes, host: Bytes, path: Bytes)
    ensures Decode(raw) == Some((host, path)) <==> exists s :: Reads(s, raw, host, path)
  {
    if Decode(raw) == Some((host, path)) {
      DecodedIsAStamp(raw);
      assert Reads(StampOf(raw), raw, host, path);
    }
    if s :| Reads(s, raw, host, path) {
      DecodesEveryStamp(s);
    }
  }

  // ------------------------------------------------------- the encoder

  /** writeLP cuts what does not fit. */
  function Cut(b: Bytes): (r: Bytes)
    ensures |r| <= LONGEST && r <= b && (r == b <==> |b| <= LONGEST)
  {
    if |b| > LONGEST then b[..LONGEST] else b
  }

  function StampFor(addr: Bytes, host: Bytes, path: Bytes): Stamp {
    Stamp(DOH, [0, 0, 0, 0, 0, 0, 0, 0], Field(false, Cut(addr)), [[]], Field(false, Cut(host)), Field(false, Cut(path)), [])
  }

  method WriteLP(buf: Bytes, payload: Bytes) returns (out: Bytes)
    ensures out == buf + Frame(false, Cut(payload))
  {
    var p := payload;
    if |p| > 0x7f {
      p := p[..0x7f];
    }
    out := buf + [|p|];
    out := out + p;
  }

  /** The byte building of httpsURLToStamp; an address is given only for a literal IP. */
  method EncodeStamp(addr: Bytes, host: Bytes, path: Bytes) returns (buf: Bytes)
    ensures WellFormed(StampFor(addr, host, path)) && buf == Serialized(StampFor(addr, host, path))
  {
    buf := [DOH];
    buf := buf + [0, 0, 0, 0, 0, 0, 0, 0];
    buf := WriteLP(buf, addr);
    buf := buf + [0x00];
    buf := WriteLP(buf, host);
    buf := WriteLP(buf, path);
    ghost var st := StampFor(addr, host, path);
    assert Chain(st.hashes) == [0];
    Regroup([DOH], st.props, FieldBytes(st.addr), [0], FieldBytes(st.host), FieldBytes(st.path), []);
  }

  /** Decoding what was encoded gives the first 127 bytes of the host and of the path. */
  lemma RoundTrip(addr: Bytes, host: Bytes, path: Bytes)
    ensures WellFormed(StampFor(addr, host, path))
    ensures Decode(Serialized(StampFor(addr, host, path))) == Some((Cut(host), Slashed(Cut(path))))
  {
    DecodesEveryStamp(StampFor(addr, host, path));
  }

  /** It gives them back exactly when both fit in a length byte and the path starts with a slash. */
  lemma RoundTripsExactlyWhen(addr: Bytes, host: Bytes, path: Bytes)
    ensures WellFormed(StampFor(addr, host, path))
    ensures Decode(Serialized(StampFor(addr, host, path))) == Some((host, path)) <==>
            |host| <= LONGEST && |path| <= LONGEST && path != [] && path[0] == SLASH
  {
    RoundTrip(addr, host, path);
    assert Slashed(Cut(path))[0] == SLASH;
  }

  // ------------------------------------------------------- the decoder's loop

  method ReadField(raw: Bytes, cursor: nat) returns (ok: bool, body: Bytes, next: nat)
    ensures ok == ReadLP(raw, cursor).Some? && (ok ==> (body, next) == ReadLP(raw, cursor).value)
  {
    ok, body, next := false, [], 0;
    if cursor >= |raw| {
      return;
    }
    var n := raw[cursor] % 128;
    if cursor + 1 + n > |raw| {
      return;
    }
    ok, body, next := true, raw[cursor + 1..cursor + 1 + n], cursor + 1 + n;
  }

  method SkipChain(raw: Bytes, start: nat) returns (r: Option<nat>)
    ensures r == SkipVLP(raw, start)
  {
    var cursor := start;
    while true
      invariant SkipVLP(raw, start) == SkipVLP(raw, cursor)
      decreases |raw| - cursor
    {
      if cursor >= |raw| {
        return None;
      }
      var more, n := raw[cursor] >= 128, raw[cursor] % 128;
      if cursor + 1 + n > |raw| {
        return None;
      }
      cursor := cursor + 1 + n;
      if !more {
        return Some(cursor);
      }
    }
  }

  method DecodeStamp(raw: Bytes) returns (r: Option<(Bytes, Bytes)>)
    ensures r == Decode(raw)
  {
    if |raw| < 9 {
      return None;
    }
    var ok, addr, cursor := ReadField(raw, 9);
    if !ok {
      return None;
    }
    var skipped := SkipChain(raw, cursor);
    if skipped.None? {
      return None;
    }
    var host, path;
    ok, host, cursor := ReadField(raw, skipped.value);
    if !ok {
      return None;
    }
    ok, path, cursor := ReadField(raw, cursor);
    if !ok {
      return None;
    }
    r := Some((host, Slashed(path)));
  }
}
