/** The string functions the cron dialect is read with, and the numerals it is written with. */
module Text {
  import opened Core

  /** strings.Index for one character, or the length when it does not occur. */
  function IndexOf(s: string, c: char): (i: nat)
    ensures i <= |s|
    ensures i < |s| ==> s[i] == c
    ensures forall k :: 0 <= k < i ==> s[k] != c
  {
    if s == [] || s[0] == c then 0 else 1 + IndexOf(s[1..], c)
  }

  /** strings.Split on one character: never empty. */
  function Split(s: string, c: char): (r: seq<string>)
    ensures |r| >= 1
    decreases |s|
  {
    var i := IndexOf(s, c);
    if i == |s| then [s] else [s[..i]] + Split(s[i + 1..], c)
  }

  function Join(parts: seq<string>, c: char): string {
    if parts == [] then ""
    else if |parts| == 1 then parts[0]
    else parts[0] + [c] + Join(parts[1..], c)
  }

  lemma IndexIs(s: string, c: char, i: nat)
    requires i <= |s| && (forall k :: 0 <= k < i ==> s[k] != c) && (i < |s| ==> s[i] == c)
    ensures IndexOf(s, c) == i
  {
  }

  lemma SplitHead(head: string, rest: string, c: char)
    requires c !in head
    ensures Split(head + [c] + rest, c) == [head] + Split(rest, c)
  {
    var s := head + [c] + rest;
    assert forall k :: 0 <= k < |head| ==> s[k] == head[k] && head[k] in head;
    IndexIs(s, c, |head|);
    assert s[..|head|] == head && s[|head| + 1..] == rest;
  }

  /** Splitting what was joined gives the parts back. */
  lemma {:induction false} SplitJoin(parts: seq<string>, c: char)
    requires parts != [] && forall i :: 0 <= i < |parts| ==> c !in parts[i]
    ensures Split(Join(parts, c), c) == parts
  {
    if |parts| == 1 {
      var s := parts[0];
      assert forall k :: 0 <= k < |s| ==> s[k] in s;
      IndexIs(s, c, |s|);
    } else {
      SplitJoin(parts[1..], c);
      SplitHead(parts[0], Join(parts[1..], c), c);
    }
  }

  /** A character that is in none of the pieces is not in the whole, unless it is the separator. */
  lemma {:induction false} SplitCovers(s: string, c: char, x: char)
    requires x != c && forall p :: p in Split(s, c) ==> x !in p
    ensures x !in s
    decreases |s|
  {
    var i := IndexOf(s, c);
    if i == |s| {
      assert Split(s, c)[0] == s;
    } else {
      assert Split(s, c)[0] == s[..i];
      forall p | p in Split(s[i + 1..], c) ensures x !in p {
        assert p in Split(s, c);
      }
      SplitCovers(s[i + 1..], c, x);
      assert s == s[..i] + [c] + s[i + 1..];
    }
  }

  function TrimLeft(s: string): string {
    if s != [] && IsSpace(s[0]) then TrimLeft(s[1..]) else s
  }

  function TrimRight(s: string): string {
    if s != [] && IsSpace(s[|s| - 1]) then TrimRight(s[..|s| - 1]) else s
  }

  function TrimSpace(s: string): string {
    TrimRight(TrimLeft(s))
  }

  lemma TrimKeeps(s: string)
    requires s != [] && !IsSpace(s[0]) && !IsSpace(s[|s| - 1])
    ensures TrimSpace(s) == s
  {
  }

  lemma {:induction false} TrimLeftCovers(s: string, x: char)
    requires !IsSpace(x) && x !in TrimLeft(s)
    ensures x !in s
  {
    if s != [] && IsSpace(s[0]) {
      TrimLeftCovers(s[1..], x);
      assert s == [s[0]] + s[1..];
    }
  }

  lemma {:induction false} TrimRightCovers(s: string, x: char)
    requires !IsSpace(x) && x !in TrimRight(s)
    ensures x !in s
  {
    if s != [] && IsSpace(s[|s| - 1]) {
      TrimRightCovers(s[..|s| - 1], x);
      assert s == s[..|s| - 1] + [s[|s| - 1]];
    }
  }

  lemma TrimCovers(s: string, x: char)
    requires !IsSpace(x) && x !in TrimSpace(s)
    ensures x !in s
  {
    TrimRightCovers(TrimLeft(s), x);
    TrimLeftCovers(s, x);
  }

  /** The run of non-space characters at the front. */
  function Word(s: string): (n: nat)
    ensures n <= |s|
    ensures forall k :: 0 <= k < n ==> !IsSpace(s[k])
    ensures n < |s| ==> IsSpace(s[n])
  {
    if s == [] || IsSpace(s[0]) then 0 else 1 + Word(s[1..])
  }

  /** strings.Fields: the maximal runs of non-space characters. */
  function Fields(s: string): seq<string>
    decreases |s|
  {
    if s == [] then []
    else if IsSpace(s[0]) then Fields(s[1..])
    else [s[..Word(s)]] + Fields(s[Word(s)..])
  }

  lemma {:induction false} FieldsCover(s: string, x: char)
    requires !IsSpace(x) && forall p :: p in Fields(s) ==> x !in p
    ensures x !in s
    decreases |s|
  {
    if s != [] {
      if IsSpace(s[0]) {
        FieldsCover(s[1..], x);
        assert s == [s[0]] + s[1..];
      } else {
        var n := Word(s);
        assert Fields(s)[0] == s[..n];
        forall p | p in Fields(s[n..]) ensures x !in p {
          assert p in Fields(s);
        }
        FieldsCover(s[n..], x);
        assert s == s[..n] + s[n..];
      }
    }
  }

  // ------------------------------------------------------- numbers

  const MAX_INT := 0x7FFF_FFFF_FFFF_FFFF

  predicate IsDigit(c: char) {
    '0' <= c <= '9'
  }

  function Digit(c: char): nat
    requires IsDigit(c)
  {
    (c - '0') as nat
  }

  function DigitsValue(s: string): nat
    requires forall i :: 0 <= i < |s| ==> IsDigit(s[i])
  {
    if s == [] then 0 else DigitsValue(s[..|s| - 1]) * 10 + Digit(s[|s| - 1])
  }

  predicate AllDigits(s: string) {
    s != [] && forall i :: 0 <= i < |s| ==> IsDigit(s[i])
  }

  /** strconv.Atoi: an optional sign and decimal digits, within 64 bits. */
  function Atoi(s: string): Option<int> {
    if s == [] then None
    else
      var signed := s[0] == '-' || s[0] == '+';
      var digits := if signed then s[1..] else s;
      if !AllDigits(digits) then None
      else
        var v: int := if s[0] == '-' then 0 - DigitsValue(digits) else DigitsValue(digits);
        if -MAX_INT - 1 <= v <= MAX_INT then Some(v) else None
  }

  lemma AtoiCharacters(s: string, x: char)
    requires Atoi(s).Some? && !IsDigit(x) && x != '+' && x != '-'
    ensures x !in s
  {
    if s[0] == '-' || s[0] == '+' {
      assert s == [s[0]] + s[1..];
    }
  }

  /** The decimal numeral of a number. */
  function Numeral(n: nat): (s: string)
    ensures AllDigits(s)
  {
    if n < 10 then [('0' as int + n) as char]
    else Numeral(n / 10) + [('0' as int + n % 10) as char]
  }

  lemma {:induction false} NumeralValue(n: nat)
    ensures DigitsValue(Numeral(n)) == n
  {
    var s := Numeral(n);
    if n >= 10 {
      NumeralValue(n / 10);
      assert s[..|s| - 1] == Numeral(n / 10);
    }
  }

  /** Reading a numeral gives the number back. */
  lemma AtoiNumeral(n: nat)
    requires n <= MAX_INT
    ensures Atoi(Numeral(n)) == Some(n)
  {
    NumeralValue(n);
  }
}
