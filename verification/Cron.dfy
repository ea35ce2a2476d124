/**
 The reduced cron dialect: reading a field into a 64-bit set, deciding whether a minute matches,
 and searching for the next one that does.
 */
module Cron {
  import opened Core
  import opened Arith
  import opened Text

  // ------------------------------------------------------- 64-bit sets

  /** A uint64 as its bits, least significant first. */
  type Word64 = w: seq<bool> | |w| == 64 witness seq(64, k => false)

  function Zero(): Word64 {
    seq(64, k => false)
  }

  function Bit(i: int): Word64 {
    seq(64, k => k == i)
  }

  function Or(a: Word64, b: Word64): Word64 {
    seq(64, k requires 0 <= k < 64 => a[k] || b[k])
  }

  function And(a: Word64, b: Word64): Word64 {
    seq(64, k requires 0 <= k < 64 => a[k] && b[k])
  }

  /** fieldSet.has. */
  predicate Has(f: Word64, n: int) {
    0 <= n < 64 && And(f, Bit(n)) != Zero()
  }

  lemma HasIsBit(f: Word64, n: int)
    ensures Has(f, n) <==> 0 <= n < 64 && f[n]
  {
    if 0 <= n < 64 {
      var m := And(f, Bit(n));
      assert m[n] == f[n];
      if !f[n] {
        assert m == Zero();
      }
    }
  }

  lemma OrBit(f: Word64, i: int, n: int)
    requires 0 <= i < 64
    ensures Has(Or(f, Bit(i)), n) <==> Has(f, n) || n == i
  {
    HasIsBit(f, n);
    HasIsBit(Or(f, Bit(i)), n);
  }

  lemma NothingInZero(n: int)
    ensures !Has(Zero(), n)
  {
    HasIsBit(Zero(), n);
  }

  /** Two words with the same members are equal. */
  lemma SameMembers(f: Word64, g: Word64)
    requires forall n :: Has(f, n) <==> Has(g, n)
    ensures f == g
  {
    forall k | 0 <= k < 64 ensures f[k] == g[k] {
      HasIsBit(f, k);
      HasIsBit(g, k);
    }
  }

  // ------------------------------------------------------- reading one element

  datatype Range = Range(lo: int, hi: int, step: int)

  /** splitStep: what is before the slash, and the step after it. */
  function SplitStep(atom: string): Option<(string, int)> {
    var i := IndexOf(atom, '/');
    if i == |atom| then Some((atom[..i], 1))
    else
      var s := Atoi(atom[i + 1..]);
      if s.None? || s.value < 1 then None else Some((atom[..i], s.value))
  }

  /** parseRange: a star, two numbers around the first dash, or one number. */
  function ParseRange(base: string, min: int, max: int): Option<(int, int)> {
    if base == "*" then Some((min, max))
    else
      var i := IndexOf(base, '-');
      if i < |base| then
        var a, b := Atoi(base[..i]), Atoi(base[i + 1..]);
        if a.None? || b.None? then None else Some((a.value, b.value))
      else
        var n := Atoi(base);
        if n.None? then None else Some((n.value, n.value))
  }

  function ParseAtom(atom: string, min: int, max: int): (r: Option<Range>)
    ensures r.Some? ==> min <= r.value.lo <= r.value.hi <= max && 1 <= r.value.step <= MAX_INT
  {
    var s := SplitStep(atom);
    if s.None? then None
    else
      var r := ParseRange(s.value.0, min, max);
      if r.None? then None
      else if r.value.0 < min || r.value.1 > max || r.value.0 > r.value.1 then None
      else Some(Range(r.value.0, r.value.1, s.value.1))
  }

  /** The values an element covers: every step-th one from its low end. */
  predicate Covers(r: Range, n: int)
    requires r.step >= 1
  {
    r.lo <= n <= r.hi && (n - r.lo) % r.step == 0
  }

  // ------------------------------------------------------- reading a field

  /** A panic is the negative shift that follows when the loop counter passes the largest int. */
  datatype Parsed = Field(word: Word64) | Bad | Panics

  /** One comma-separated piece, trimmed: empty pieces are skipped. */
  datatype Element = Skipped | Unreadable | Reads(range: Range)

  function ReadElement(piece: string, min: int, max: int): (e: Element)
    ensures e.Reads? ==> min <= e.range.lo <= e.range.hi <= max && 1 <= e.range.step <= MAX_INT
  {
    var atom := TrimSpace(piece);
    if atom == "" then Skipped
    else if ParseAtom(atom, min, max).None? then Unreadable
    else Reads(ParseAtom(atom, min, max).value)
  }

  function ReadAll(pieces: seq<string>, min: int, max: int): (es: seq<Element>)
    ensures |es| == |pieces|
    ensures forall i :: 0 <= i < |es| ==> es[i] == ReadElement(pieces[i], min, max)
  {
    if pieces == [] then [] else [ReadElement(pieces[0], min, max)] + ReadAll(pieces[1..], min, max)
  }

  function Elements(spec: string, min: int, max: int): seq<Element> {
    ReadAll(Split(spec, ','), min, max)
  }

  predicate ElementCovers(e: Element, n: int) {
    e.Reads? && e.range.step >= 1 && Covers(e.range, n)
  }

  predicate SomeCovers(es: seq<Element>, n: int) {
    exists i :: 0 <= i < |es| && ElementCovers(es[i], n)
  }

  /** The set a field's text denotes. */
  predicate Denotes(spec: string, min: int, max: int, n: int) {
    if spec == "*" then min <= n <= max else SomeCovers(Elements(spec, min, max), n)
  }

  predicate Overflows(r: Range) {
    r.lo + r.step > MAX_INT
  }

  /** The elements are read in order; the first one that cannot be read, or runs over, decides. */
  function Verdict(es: seq<Element>): Parsed {
    if es == [] then Field(Zero())
    else
      var front, last := Verdict(es[..|es| - 1]), es[|es| - 1];
      if !front.Field? || last.Skipped? then front
      else if last.Unreadable? then Bad
      else if Overflows(last.range) then Panics
      else Field(Zero())
  }

  /** An element that is read, and whose first stride passes the largest integer. */
  predicate IsOverrun(e: Element) {
    e.Reads? && Overflows(e.range)
  }

  predicate IsFault(e: Element) {
    e.Unreadable? || IsOverrun(e)
  }

  predicate FirstFaultAt(es: seq<Element>, i: nat)
    requires i < |es|
  {
    IsFault(es[i]) && forall k :: 0 <= k < i ==> !IsFault(es[k])
  }

  /** The first element that is at fault decides: an overrun panics, an unreadable one is refused. */
  lemma {:induction false} FirstFaultDecides(es: seq<Element>)
    ensures Verdict(es) == Panics <==> exists i :: 0 <= i < |es| && FirstFaultAt(es, i) && IsOverrun(es[i])
    ensures Verdict(es) == Bad <==> exists i :: 0 <= i < |es| && FirstFaultAt(es, i) && es[i].Unreadable?
    ensures Verdict(es).Field? <==> forall i :: 0 <= i < |es| ==> !IsFault(es[i])
  {
    if es != [] {
      var front, n := es[..|es| - 1], |es| - 1;
      FirstFaultDecides(front);
      assert forall k :: 0 <= k < n ==> front[k] == es[k];
      forall i | 0 <= i < n ensures FirstFaultAt(front, i) <==> FirstFaultAt(es, i) {
      }
      if Verdict(front).Field? {
        assert FirstFaultAt(es, n) <==> IsFault(es[n]);
      } else {
        var i :| 0 <= i < n && FirstFaultAt(front, i);
        assert FirstFaultAt(es, i) && forall k :: 0 <= k < |es| && FirstFaultAt(es, k) ==> k == i;
      }
    }
  }

  function DenotedWord(spec: string, min: int, max: int): Word64 {
    seq(64, n => Denotes(spec, min, max, n))
  }

  predicate NamesNothing(es: seq<Element>) {
    forall i :: 0 <= i < |es| ==> es[i].Skipped?
  }

  function FieldOf(spec: string, min: int, max: int): Parsed {
    if spec == "*" then Field(DenotedWord(spec, min, max))
    else if !Verdict(Elements(spec, min, max)).Field? then Verdict(Elements(spec, min, max))
    else if NamesNothing(Elements(spec, min, max)) then Bad
    else Field(DenotedWord(spec, min, max))
  }

  /**
   For every text: the parser panics exactly when the first element that is at fault is an overrun, and
   refuses exactly when that element is unreadable or the text names nothing at all.
   */
  lemma PanicsExactlyWhen(spec: string, min: int, max: int)
    ensures var es := Elements(spec, min, max);
            FieldOf(spec, min, max) == Panics <==>
            spec != "*" && exists i :: 0 <= i < |es| && FirstFaultAt(es, i) && IsOverrun(es[i])
    ensures var es := Elements(spec, min, max);
            FieldOf(spec, min, max) == Bad <==>
            && spec != "*"
            && (NamesNothing(es) || exists i :: 0 <= i < |es| && FirstFaultAt(es, i) && es[i].Unreadable?)
  {
    var es := Elements(spec, min, max);
    FirstFaultDecides(es);
    if NamesNothing(es) {
      assert forall i :: 0 <= i < |es| ==> !IsFault(es[i]);
    }
  }

  /** A field that is accepted is not empty, stays in bounds and holds exactly what its text denotes. */
  lemma AcceptedFieldIsItsText(spec: string, min: int, max: int, n: int)
    requires 0 <= min <= max <= 59 && FieldOf(spec, min, max).Field?
    ensures Has(FieldOf(spec, min, max).word, n) <==> Denotes(spec, min, max, n)
    ensures Denotes(spec, min, max, n) ==> min <= n <= max
    ensures exists m :: min <= m <= max && Has(FieldOf(spec, min, max).word, m)
  {
    var w := FieldOf(spec, min, max).word;
    HasIsBit(w, n);
    if spec == "*" {
      HasIsBit(w, min);
    } else {
      var es := Elements(spec, min, max);
      var i :| 0 <= i < |es| && !es[i].Skipped?;
      AcceptedElementReads(es, i);
      var lo := es[i].range.lo;
      assert ElementCovers(es[i], lo);
      HasIsBit(w, lo);
    }
  }

  lemma {:induction false} AcceptedElementReads(es: seq<Element>, i: nat)
    requires i < |es| && !es[i].Skipped? && Verdict(es).Field?
    ensures es[i].Reads? && !Overflows(es[i].range)
  {
    if i < |es| - 1 {
      AcceptedElementReads(es[..|es| - 1], i);
    }
  }

  // ------------------------------------------------------- the loops

  lemma OrBits(f: Word64, i: int)
    requires 0 <= i < 64
    ensures forall n :: Has(Or(f, Bit(i)), n) <==> Has(f, n) || n == i
  {
    forall n ensures Has(Or(f, Bit(i)), n) <==> Has(f, n) || n == i {
      OrBit(f, i, n);
    }
  }

  /** makeFieldSet(min, max, true). */
  method MakeFieldSet(min: int, max: int) returns (f: Word64)
    requires 0 <= min <= max <= 59
    ensures forall n :: Has(f, n) <==> min <= n <= max
  {
    f := Zero();
    forall n ensures !Has(f, n) { NothingInZero(n); }
    for i := min to max + 1
      invariant forall n :: Has(f, n) <==> min <= n < i
    {
      OrBits(f, i);
      f := Or(f, Bit(i));
    }
  }

  lemma NextMultiple(lo: int, i: int, n: int, step: int)
    requires step >= 1 && lo <= i && (i - lo) % step == 0 && i <= n < i + step
    ensures (n - lo) % step == 0 <==> n == i
    ensures (i + step - lo) % step == 0
  {
    var k := (i - lo) / step;
    assert i - lo == k * step;
    assert (k + 1) * step == k * step + step;
    DivUnique(n - lo, k, step);
    MulMod(k + 1, step);
  }

  /** In the stride that starts at a covered value, that value is the only one covered. */
  lemma OneStride(r: Range, i: int)
    requires r.step >= 1 && r.lo <= i <= r.hi && (i - r.lo) % r.step == 0
    ensures forall n :: i <= n < i + r.step ==> (Covers(r, n) <==> n == i)
    ensures (i + r.step - r.lo) % r.step == 0
  {
    forall n | i <= n < i + r.step ensures Covers(r, n) <==> n == i {
      NextMultiple(r.lo, i, n, r.step);
    }
    NextMultiple(r.lo, i, i, r.step);
  }

  /** The members of a word once the values covered below `i` have been added to `f`. */
  ghost predicate Filled(g: Word64, f: Word64, r: Range, i: int)
    requires r.step >= 1
  {
    forall n :: Has(g, n) <==> Has(f, n) || (Covers(r, n) && n < i)
  }

  predicate OnStride(r: Range, i: int)
    requires r.step >= 1
  {
    r.lo <= i && (i - r.lo) % r.step == 0
  }

  lemma FillOne(g: Word64, f: Word64, r: Range, i: int)
    requires r.step >= 1 && 0 <= r.lo <= i <= r.hi <= 59 && OnStride(r, i) && Filled(g, f, r, i)
    ensures Filled(Or(g, Bit(i)), f, r, i + r.step) && OnStride(r, i + r.step)
  {
    OrBits(g, i);
    OneStride(r, i);
  }

  lemma FilledAtStart(f: Word64, r: Range)
    requires r.step >= 1
    ensures Filled(f, f, r, r.lo) && OnStride(r, r.lo)
  {
  }

  lemma FilledAtEnd(g: Word64, f: Word64, r: Range, i: int)
    requires r.step >= 1 && Filled(g, f, r, i) && i > r.hi
    ensures forall n :: Has(g, n) <==> Has(f, n) || Covers(r, n)
  {
  }

  /** Sets every step-th bit; false when the counter runs over and the next shift would panic. */
  method AddRange(f: Word64, r: Range) returns (g: Word64, ok: bool)
    requires 0 <= r.lo <= r.hi <= 59 && 1 <= r.step <= MAX_INT
    ensures ok == !Overflows(r)
    ensures ok ==> forall n :: Has(g, n) <==> Has(f, n) || Covers(r, n)
  {
    g := f;
    var i := r.lo;
    FilledAtStart(f, r);
    while i <= r.hi
      invariant OnStride(r, i)
      invariant i > r.lo ==> r.step <= i - r.lo && !Overflows(r)
      invariant Filled(g, f, r, i)
      decreases r.hi - i
    {
      FillOne(g, f, r, i);
      g := Or(g, Bit(i));
      if i + r.step > MAX_INT {
        return g, false;
      }
      i := i + r.step;
    }
    FilledAtEnd(g, f, r, i);
    ok := true;
  }

  /** `w` holds exactly what the elements cover. */
  ghost predicate Holds(w: Word64, es: seq<Element>) {
    forall n :: Has(w, n) <==> SomeCovers(es, n)
  }

  predicate InBounds(e: Element) {
    e.Reads? ==> 0 <= e.range.lo <= e.range.hi <= 59 && 1 <= e.range.step <= MAX_INT
  }

  lemma HoldsNothing()
    ensures Holds(Zero(), [])
  {
    forall n ensures !Has(Zero(), n) { NothingInZero(n); }
  }

  method AddElement(w: Word64, ghost es: seq<Element>, e: Element) returns (g: Word64, ok: bool)
    requires Holds(w, es) && InBounds(e) && !e.Unreadable?
    ensures ok == (e.Reads? ==> !Overflows(e.range))
    ensures ok ==> Holds(g, es + [e])
  {
    g, ok := w, true;
    if e.Reads? {
      g, ok := AddRange(w, e.range);
    }
    if ok {
      forall n ensures Has(g, n) <==> SomeCovers(es + [e], n) {
        CoversOneMore(es, e, n);
      }
    }
  }

  /** parseField's loop over the elements it reads. */
  method Collect(es: seq<Element>) returns (p: Parsed, named: bool)
    requires forall i :: 0 <= i < |es| ==> InBounds(es[i])
    ensures p.Field? == Verdict(es).Field? && (!p.Field? ==> p == Verdict(es))
    ensures p.Field? ==> (named <==> !NamesNothing(es)) && Holds(p.word, es)
  {
    var out := Zero();
    named := false;
    HoldsNothing();
    assert es[..0] == [];
    for k := 0 to |es|
      invariant Verdict(es[..k]).Field?
      invariant named <==> !NamesNothing(es[..k])
      invariant Holds(out, es[..k])
    {
      assert es[..k + 1] == es[..k] + [es[k]];
      if es[k].Unreadable? {
        VerdictOfPrefix(es, k + 1);
        return Bad, named;
      }
      var ok;
      out, ok := AddElement(out, es[..k], es[k]);
      if !ok {
        VerdictOfPrefix(es, k + 1);
        return Panics, named;
      }
      named := named || es[k].Reads?;
    }
    assert es[..|es|] == es;
    p := Field(out);
  }

  method ParseField(spec: string, min: int, max: int) returns (p: Parsed)
    requires 0 <= min <= max <= 59
    ensures p == FieldOf(spec, min, max)
  {
    var target := DenotedWord(spec, min, max);
    if spec == "*" {
      var all := MakeFieldSet(min, max);
      forall n ensures Has(all, n) <==> Has(target, n) { HasIsBit(target, n); }
      SameMembers(all, target);
      return Field(all);
    }
    var named;
    p, named := Collect(Elements(spec, min, max));
    if !p.Field? {
      return;
    }
    if !named {
      return Bad;
    }
    forall n ensures Has(p.word, n) <==> Has(target, n) {
      HasIsBit(target, n);
      HasIsBit(p.word, n);
    }
    SameMembers(p.word, target);
  }

  lemma CoversOneMore(es: seq<Element>, e: Element, n: int)
    ensures SomeCovers(es + [e], n) <==> SomeCovers(es, n) || ElementCovers(e, n)
  {
    var more := es + [e];
    assert more[|es|] == e;
    if SomeCovers(es, n) {
      var i :| 0 <= i < |es| && ElementCovers(es[i], n);
      assert more[i] == es[i];
    }
  }

  /** Once an element is refused, so is the whole list. */
  lemma {:induction false} VerdictOfPrefix(es: seq<Element>, k: nat)
    requires k <= |es| && !Verdict(es[..k]).Field?
    ensures Verdict(es) == Verdict(es[..k])
  {
    if k < |es| {
      assert es[..|es| - 1][..k] == es[..k];
      VerdictOfPrefix(es[..|es| - 1], k);
    } else {
      assert es[..k] == es;
    }
  }

  // ------------------------------------------------------- writing a field

  datatype Base = Every | At(n: nat) | Span(from: nat, to: nat)

  datatype Item = Item(base: Base, step: Option<nat>)

  function BaseText(b: Base): string {
    match b
    case Every => "*"
    case At(n) => Numeral(n)
    case Span(a, c) => Numeral(a) + ['-'] + Numeral(c)
  }

  function ItemText(i: Item): string {
    if i.step.None? then BaseText(i.base) else BaseText(i.base) + ['/'] + Numeral(i.step.value)
  }

  /** What an item stands for in a field with these bounds. */
  function ItemRange(i: Item, min: nat, max: nat): Range {
    var step := if i.step.None? then 1 else i.step.value;
    match i.base
    case Every => Range(min, max, step)
    case At(n) => Range(n, n, step)
    case Span(a, b) => Range(a, b, step)
  }

  /** Inside the bounds, and with a step that is a number Atoi reads. */
  predicate Writable(i: Item, min: nat, max: nat) {
    var r := ItemRange(i, min, max);
    min <= r.lo <= r.hi <= max && 1 <= r.step <= MAX_INT
  }

  predicate Plain(c: char) {
    IsDigit(c) || c in {'*', '-', '/'}
  }

  lemma NumberReadsBack(n: nat, min: int, max: int)
    requires n <= 59
    ensures ParseRange(Numeral(n), min, max) == Some((n, n))
  {
    var s := Numeral(n);
    AtoiNumeral(n);
    assert s[0] != '*';
    assert IndexOf(s, '-') == |s|;
  }

  lemma SpanReadsBack(a: nat, b: nat, min: int, max: int)
    requires a <= 59 && b <= 59
    ensures ParseRange(Numeral(a) + ['-'] + Numeral(b), min, max) == Some((a, b))
  {
    var s, t := Numeral(a), Numeral(b);
    var text := s + ['-'] + t;
    assert text[0] == s[0] != '*';
    assert forall k :: 0 <= k < |s| ==> text[k] == s[k];
    IndexIs(text, '-', |s|);
    assert text[..|s|] == s && text[|s| + 1..] == t;
    AtoiNumeral(a);
    AtoiNumeral(b);
  }

  lemma BaseReadsBack(b: Base, min: nat, max: nat)
    requires min <= max <= 59 && Writable(Item(b, None), min, max)
    ensures var r := ItemRange(Item(b, None), min, max);
            ParseRange(BaseText(b), min, max) == Some((r.lo, r.hi))
    ensures forall k :: 0 <= k < |BaseText(b)| ==> Plain(BaseText(b)[k]) && BaseText(b)[k] != '/'
    ensures BaseText(b) != ""
  {
    match b
    case Every =>
    case At(n) => NumberReadsBack(n, min, max);
    case Span(a, c) => SpanReadsBack(a, c, min, max);
  }

  lemma SlashIsFound(base: string, tail: string)
    requires '/' !in base
    ensures var text := base + ['/'] + tail;
            IndexOf(text, '/') == |base| && text[..|base|] == base && text[|base| + 1..] == tail
    ensures IndexOf(base, '/') == |base| && base[..|base|] == base
  {
    var text := base + ['/'] + tail;
    assert forall k :: 0 <= k < |base| ==> text[k] == base[k] && base[k] in base;
    IndexIs(text, '/', |base|);
    IndexIs(base, '/', |base|);
  }

  /** The step of an item is split off where its base ends. */
  lemma StepReadsBack(base: string, step: nat)
    requires '/' !in base && 1 <= step <= MAX_INT
    ensures SplitStep(base + ['/'] + Numeral(step)) == Some((base, step))
    ensures SplitStep(base) == Some((base, 1))
  {
    SlashIsFound(base, Numeral(step));
    AtoiNumeral(step);
  }

  lemma ItemCharacters(i: Item, min: nat, max: nat)
    requires min <= max <= 59 && Writable(i, min, max)
    ensures ItemText(i) != "" && forall k :: 0 <= k < |ItemText(i)| ==> Plain(ItemText(i)[k])
  {
    BaseReadsBack(i.base, min, max);
  }

  /** An item is read as the range it was written from. */
  lemma ItemReadsBack(i: Item, min: nat, max: nat)
    requires min <= max <= 59 && Writable(i, min, max)
    ensures ParseAtom(ItemText(i), min, max) == Some(ItemRange(i, min, max))
  {
    var base, text, r := BaseText(i.base), ItemText(i), ItemRange(i, min, max);
    BaseReadsBack(i.base, min, max);
    StepReadsBack(base, if i.step.None? then 1 else i.step.value);
    AtomOfParts(text, base, r, min, max);
  }

  lemma AtomOfParts(atom: string, base: string, r: Range, min: int, max: int)
    requires SplitStep(atom) == Some((base, r.step)) && ParseRange(base, min, max) == Some((r.lo, r.hi))
    requires min <= r.lo <= r.hi <= max
    ensures ParseAtom(atom, min, max) == Some(r)
  {
  }

  /** The same through the trimming parseField does; and no comma can be hiding in an item. */
  lemma ItemIsOneElement(i: Item, min: nat, max: nat)
    requires min <= max <= 59 && Writable(i, min, max)
    ensures ReadElement(ItemText(i), min, max) == Reads(ItemRange(i, min, max))
    ensures ',' !in ItemText(i)
  {
    ItemReadsBack(i, min, max);
    ItemCharacters(i, min, max);
    TrimKeeps(ItemText(i));
  }

  function Texts(items: seq<Item>): (ts: seq<string>)
    ensures |ts| == |items|
    ensures forall k :: 0 <= k < |ts| ==> ts[k] == ItemText(items[k])
  {
    if items == [] then [] else [ItemText(items[0])] + Texts(items[1..])
  }

  function FieldText(items: seq<Item>): string {
    Join(Texts(items), ',')
  }

  predicate ItemCovers(i: Item, min: nat, max: nat, n: int)
    requires Writable(i, min, max)
  {
    Covers(ItemRange(i, min, max), n)
  }

  lemma {:induction false} VerdictOnReadable(es: seq<Element>)
    requires forall k :: 0 <= k < |es| ==> es[k].Reads?
    ensures Verdict(es).Field? <==> forall k :: 0 <= k < |es| ==> !Overflows(es[k].range)
    ensures !Verdict(es).Field? ==> Verdict(es) == Panics
  {
    if es != [] {
      var front := es[..|es| - 1];
      VerdictOnReadable(front);
      assert forall k :: 0 <= k < |front| ==> front[k] == es[k];
    }
  }

  lemma WrittenElements(items: seq<Item>, min: nat, max: nat)
    requires items != [] && min <= max <= 59
    requires forall k :: 0 <= k < |items| ==> Writable(items[k], min, max)
    ensures var es := Elements(FieldText(items), min, max);
            |es| == |items| && forall k :: 0 <= k < |es| ==> es[k] == Reads(ItemRange(items[k], min, max))
  {
    forall k | 0 <= k < |items|
      ensures ReadElement(ItemText(items[k]), min, max) == Reads(ItemRange(items[k], min, max))
      ensures ',' !in Texts(items)[k]
    {
      ItemIsOneElement(items[k], min, max);
    }
    SplitJoin(Texts(items), ',');
  }

  predicate RunsOver(i: Item, min: nat, max: nat) {
    Overflows(ItemRange(i, min, max))
  }

  /**
   Writing a field and parsing it gives the set its items stand for, unless a low end plus its step
   passes the largest integer: then, and only then, the parser panics.
   */
  lemma FieldReadsBack(items: seq<Item>, min: nat, max: nat, n: int)
    requires items != [] && min <= max <= 59
    requires forall k :: 0 <= k < |items| ==> Writable(items[k], min, max)
    ensures var p := FieldOf(FieldText(items), min, max);
            && (p == Panics <==> exists k :: 0 <= k < |items| && RunsOver(items[k], min, max))
            && (p != Panics ==> p.Field?)
            && (p.Field? ==>
                  (Has(p.word, n) <==> exists k :: 0 <= k < |items| && ItemCovers(items[k], min, max, n)))
  {
    var es := Elements(FieldText(items), min, max);
    WrittenElements(items, min, max);
    VerdictOnReadable(es);
    assert !es[0].Skipped?;
    if FieldText(items) == "*" {
      StarIsOneItem(min, max);
      StarIsEvery(min, max, n);
    }
    OverrunsAgree(items, es, min, max);
    if Verdict(es).Field? {
      AcceptedFieldIsItsText(FieldText(items), min, max, n);
      SomeCoversItems(items, es, min, max, n);
    }
  }

  /** The minute field "1/9223372036854775807" is such a text. */
  lemma LargestStepPanics()
    ensures FieldOf(FieldText([Item(At(1), Some(MAX_INT))]), 0, 59) == Panics
  {
    var items := [Item(At(1), Some(MAX_INT))];
    FieldReadsBack(items, 0, 59, 0);
    assert RunsOver(items[0], 0, 59);
  }

  lemma OverrunsAgree(items: seq<Item>, es: seq<Element>, min: nat, max: nat)
    requires |es| == |items| && forall k :: 0 <= k < |es| ==> es[k] == Reads(ItemRange(items[k], min, max))
    ensures (forall k :: 0 <= k < |es| ==> !Overflows(es[k].range)) <==>
            !exists k :: 0 <= k < |items| && RunsOver(items[k], min, max)
  {
    if k :| 0 <= k < |es| && Overflows(es[k].range) {
      assert RunsOver(items[k], min, max);
    }
  }

  /** The bare star is read as one range that does not run over. */
  lemma StarIsOneItem(min: nat, max: nat)
    requires min <= max <= 59
    ensures Verdict(Elements("*", min, max)).Field?
  {
    var star := [Item(Every, None)];
    assert FieldText(star) == "*";
    WrittenElements(star, min, max);
    VerdictOnReadable(Elements("*", min, max));
  }

  lemma SomeCoversItems(items: seq<Item>, es: seq<Element>, min: nat, max: nat, n: int)
    requires forall k :: 0 <= k < |items| ==> Writable(items[k], min, max)
    requires |es| == |items| && forall k :: 0 <= k < |es| ==> es[k] == Reads(ItemRange(items[k], min, max))
    ensures SomeCovers(es, n) <==> exists k :: 0 <= k < |items| && ItemCovers(items[k], min, max, n)
  {
    if k :| 0 <= k < |es| && ElementCovers(es[k], n) {
      assert ItemCovers(items[k], min, max, n);
    }
    if k :| 0 <= k < |items| && ItemCovers(items[k], min, max, n) {
      assert ElementCovers(es[k], n);
    }
  }

  /** The bare star takes parseField's short cut, which gives the same set. */
  lemma StarIsEvery(min: nat, max: nat, n: int)
    requires min <= max <= 59
    ensures SomeCovers(Elements("*", min, max), n) <==> min <= n <= max
  {
    var star := Item(Every, None);
    var es := Elements("*", min, max);
    assert FieldText([star]) == "*";
    WrittenElements([star], min, max);
    assert SomeCovers(es, n) <==> ElementCovers(es[0], n);
  }
}
