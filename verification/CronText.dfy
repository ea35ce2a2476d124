/**
 Whole cron expressions written from lists of items, and read back: which minutes they match, with the
 bounds of each field spelled out, and what the named schedules stand for.
 */
module CronText {
  import opened Core
  import opened Text
  import opened Cron
  import opened CronSchedule

  datatype Expression =
    Expression(minute: seq<Item>, hour: seq<Item>, day: seq<Item>, month: seq<Item>, weekday: seq<Item>)

  /** Items inside the bounds, none with a step that overruns. */
  predicate Fit(items: seq<Item>, min: nat, max: nat) {
    && items != []
    && forall k :: 0 <= k < |items| ==> Writable(items[k], min, max) && !RunsOver(items[k], min, max)
  }

  predicate WellFormed(w: Expression) {
    Fit(w.minute, 0, 59) && Fit(w.hour, 0, 23) && Fit(w.day, 1, 31) && Fit(w.month, 1, 12) && Fit(w.weekday, 0, 6)
  }

  function PartTexts(w: Expression): seq<string> {
    [FieldText(w.minute), FieldText(w.hour), FieldText(w.day), FieldText(w.month), FieldText(w.weekday)]
  }

  function ExpressionText(w: Expression): string {
    Join(PartTexts(w), ' ')
  }

  predicate Picks(items: seq<Item>, min: nat, max: nat, n: int)
    requires Fit(items, min, max)
  {
    exists k :: 0 <= k < |items| && ItemCovers(items[k], min, max, n)
  }

  predicate LeavesOut(items: seq<Item>, min: nat, max: nat)
    requires Fit(items, min, max)
  {
    exists n :: min <= n <= max && !Picks(items, min, max, n)
  }

  /** The minute is one the expression names; two restricted day fields are alternatives. */
  predicate Says(w: Expression, c: Civil)
    requires WellFormed(w)
  {
    && Picks(w.minute, 0, 59, c.minute) && Picks(w.hour, 0, 23, c.hour) && Picks(w.month, 1, 12, c.month)
    && var day, weekday := Picks(w.day, 1, 31, c.day), Picks(w.weekday, 0, 6, c.weekday);
       if LeavesOut(w.day, 1, 31) && LeavesOut(w.weekday, 0, 6) then day || weekday else day && weekday
  }

  // ------------------------------------------------------- cutting the text into its parts

  predicate Solid(s: string) {
    s != "" && forall k :: 0 <= k < |s| ==> !IsSpace(s[k])
  }

  lemma {:induction false} WordIs(s: string, n: nat)
    requires n <= |s| && (forall k :: 0 <= k < n ==> !IsSpace(s[k])) && (n < |s| ==> IsSpace(s[n]))
    ensures Word(s) == n
  {
  }

  lemma FieldsHead(head: string, rest: string)
    requires Solid(head)
    ensures Fields(head + [' '] + rest) == [head] + Fields(rest)
  {
    var s := head + [' '] + rest;
    assert forall k :: 0 <= k < |head| ==> s[k] == head[k];
    WordIs(s, |head|);
    assert s[..|head|] == head && s[|head|..] == [' '] + rest;
    assert ([' '] + rest)[1..] == rest;
  }

  /** Joining solid parts by a space and cutting at spaces gives the parts back. */
  lemma {:induction false} FieldsJoin(parts: seq<string>)
    requires parts != [] && forall i :: 0 <= i < |parts| ==> Solid(parts[i])
    ensures Fields(Join(parts, ' ')) == parts
  {
    if |parts| == 1 {
      var s := parts[0];
      WordIs(s, |s|);
      assert s[..|s|] == s && s[|s|..] == "";
    } else {
      FieldsJoin(parts[1..]);
      FieldsHead(parts[0], Join(parts[1..], ' '));
    }
  }

  lemma {:induction false} JoinEnds(parts: seq<string>)
    requires parts != [] && forall i :: 0 <= i < |parts| ==> Solid(parts[i])
    ensures var s := Join(parts, ' ');
            Solid(parts[0]) && s != "" && s[0] == parts[0][0] && !IsSpace(s[0]) && !IsSpace(s[|s| - 1])
  {
    if |parts| > 1 {
      JoinEnds(parts[1..]);
    }
  }

  lemma {:induction false} JoinPlain(parts: seq<string>)
    requires forall i :: 0 <= i < |parts| ==> FieldWord(parts[i])
    ensures forall k :: 0 <= k < |Join(parts, ',')| ==> FieldChar(Join(parts, ',')[k])
    ensures parts != [] ==> Join(parts, ',') != "" && Plain(Join(parts, ',')[0])
  {
    if |parts| > 1 {
      JoinPlain(parts[1..]);
    }
  }

  predicate FieldChar(c: char) {
    Plain(c) || c == ','
  }

  predicate FieldWord(s: string) {
    s != "" && forall k :: 0 <= k < |s| ==> Plain(s[k])
  }

  lemma FieldTextIsSolid(items: seq<Item>, min: nat, max: nat)
    requires Fit(items, min, max) && min <= max <= 59
    ensures Solid(FieldText(items)) && FieldText(items)[0] != '@'
  {
    forall k | 0 <= k < |items| ensures FieldWord(Texts(items)[k]) {
      ItemCharacters(items[k], min, max);
    }
    JoinPlain(Texts(items));
  }

  lemma SolidParts(w: Expression)
    requires WellFormed(w)
    ensures forall k :: 0 <= k < 5 ==> Solid(PartTexts(w)[k])
    ensures PartTexts(w)[0] != "" && PartTexts(w)[0][0] != '@'
  {
    FieldTextIsSolid(w.minute, 0, 59);
    FieldTextIsSolid(w.hour, 0, 23);
    FieldTextIsSolid(w.day, 1, 31);
    FieldTextIsSolid(w.month, 1, 12);
    FieldTextIsSolid(w.weekday, 0, 6);
  }

  lemma NoAlias(s: string)
    requires s != "" && s[0] != '@'
    ensures Expanded(s) == s
  {
  }

  lemma TextOfParts(parts: seq<string>)
    requires |parts| == 5 && (forall k :: 0 <= k < 5 ==> Solid(parts[k])) && parts[0] != "" && parts[0][0] != '@'
    ensures var s := Join(parts, ' '); TrimSpace(s) == s != "" && Expanded(s) == s && Fields(s) == parts
  {
    JoinEnds(parts);
    TrimKeeps(Join(parts, ' '));
    NoAlias(Join(parts, ' '));
    FieldsJoin(parts);
  }

  // ------------------------------------------------------- reading it back

  lemma FieldIsItems(items: seq<Item>, min: nat, max: nat, n: int)
    requires Fit(items, min, max) && min <= max <= 59
    ensures FieldOf(FieldText(items), min, max).Field?
    ensures Denotes(FieldText(items), min, max, n) <==> Picks(items, min, max, n)
  {
    FieldReadsBack(items, min, max, n);
    AcceptedFieldIsItsText(FieldText(items), min, max, n);
  }

  /** Part `k` of the text says what the items say. */
  ghost predicate Renders(parts: seq<string>, k: nat, items: seq<Item>, min: nat, max: nat)
    requires |parts| == 5 && k < 5 && Fit(items, min, max)
  {
    && FieldAt(parts, k).Field?
    && (forall n :: PartDenotes(parts, k, n) <==> Picks(items, min, max, n))
    && (Restricted(parts, k) <==> LeavesOut(items, min, max))
  }

  lemma PartIsItems(parts: seq<string>, k: nat, items: seq<Item>, min: nat, max: nat)
    requires |parts| == 5 && k < 5 && LOWEST[k] == min <= max == HIGHEST[k] <= 59
    requires Fit(items, min, max) && parts[k] == FieldText(items)
    ensures Renders(parts, k, items, min, max)
  {
    forall n ensures PartDenotes(parts, k, n) <==> Picks(items, min, max, n) {
      FieldIsItems(items, min, max, n);
    }
    FieldIsItems(items, min, max, 0);
  }

  lemma FiveGoodFields(parts: seq<string>)
    requires |parts| == 5 && forall k :: 0 <= k < 5 ==> FieldAt(parts, k).Field?
    ensures ReadFields(parts).Good?
  {
    AllAccepted(AllFields(parts));
  }

  ghost predicate AllRender(parts: seq<string>, w: Expression)
    requires |parts| == 5 && WellFormed(w)
  {
    && Renders(parts, 0, w.minute, 0, 59) && Renders(parts, 1, w.hour, 0, 23) && Renders(parts, 2, w.day, 1, 31)
    && Renders(parts, 3, w.month, 1, 12) && Renders(parts, 4, w.weekday, 0, 6)
  }

  lemma TextsRender(w: Expression)
    requires WellFormed(w)
    ensures AllRender(PartTexts(w), w)
  {
    var parts := PartTexts(w);
    PartIsItems(parts, 0, w.minute, 0, 59);
    PartIsItems(parts, 1, w.hour, 0, 23);
    PartIsItems(parts, 2, w.day, 1, 31);
    PartIsItems(parts, 3, w.month, 1, 12);
    PartIsItems(parts, 4, w.weekday, 0, 6);
  }

  lemma RenderedMatches(parts: seq<string>, w: Expression, c: Civil)
    requires |parts| == 5 && WellFormed(w) && AllRender(parts, w) && ValidCivil(c)
    ensures var r := ReadFields(parts); r.Good? && (Matches(r.schedule, c) <==> Says(w, c))
  {
    FiveGoodFields(parts);
    FieldsMeanTheirText(parts, c);
  }

  /** A name, or any other text, that is expanded to an expression reads as the expression does. */
  lemma ExpandedReads(text: string, w: Expression, c: Civil)
    requires WellFormed(w) && ValidCivil(c) && TrimSpace(text) == text != "" && Expanded(text) == ExpressionText(w)
    ensures var r := ReadSchedule(text); r.Good? && (Matches(r.schedule, c) <==> Says(w, c))
  {
    SolidParts(w);
    TextOfParts(PartTexts(w));
    TextsRender(w);
    RenderedMatches(PartTexts(w), w, c);
  }

  /** Writing an expression and reading it gives a schedule that matches exactly the minutes its items say. */
  lemma ExpressionReadsBack(w: Expression, c: Civil)
    requires WellFormed(w) && ValidCivil(c)
    ensures var r := ReadSchedule(ExpressionText(w)); r.Good? && (Matches(r.schedule, c) <==> Says(w, c))
  {
    SolidParts(w);
    TextOfParts(PartTexts(w));
    ExpandedReads(ExpressionText(w), w, c);
  }

  // ------------------------------------------------------- the named schedules

  function Number(n: nat): seq<Item> {
    [Item(Base.At(n), None)]
  }

  function Anything(): seq<Item> {
    [Item(Every, None)]
  }

  lemma NumberMeans(n: nat, min: nat, max: nat)
    requires min <= n <= max <= 59
    ensures Fit(Number(n), min, max) && FieldText(Number(n)) == Numeral(n)
    ensures forall x :: Picks(Number(n), min, max, x) <==> x == n
    ensures min < max ==> LeavesOut(Number(n), min, max)
  {
    var items := Number(n);
    assert Texts(items) == [ItemText(items[0])];
    forall x ensures Picks(items, min, max, x) <==> x == n {
      assert x == n ==> ItemCovers(items[0], min, max, x);
    }
    if min < max {
      assert !Picks(items, min, max, if n == min then max else min);
    }
  }

  lemma AnythingMeans(min: nat, max: nat)
    requires min <= max <= 59
    ensures Fit(Anything(), min, max) && FieldText(Anything()) == "*"
    ensures forall x :: Picks(Anything(), min, max, x) <==> min <= x <= max
    ensures !LeavesOut(Anything(), min, max)
  {
    var items := Anything();
    assert Texts(items) == [ItemText(items[0])];
    forall x ensures Picks(items, min, max, x) <==> min <= x <= max {
      assert min <= x <= max ==> ItemCovers(items[0], min, max, x);
    }
  }

  lemma JoinFive(a: string, b: string, c: string, d: string, e: string)
    ensures Join([a, b, c, d, e], ' ') == a + " " + b + " " + c + " " + d + " " + e
  {
    assert Join([e], ' ') == e;
    assert [d, e][1..] == [e] && Join([d, e], ' ') == d + " " + e;
    assert [c, d, e][1..] == [d, e] && Join([c, d, e], ' ') == c + " " + (d + " " + e);
    assert [b, c, d, e][1..] == [c, d, e] && Join([b, c, d, e], ' ') == b + " " + (c + " " + (d + " " + e));
    assert [a, b, c, d, e][1..] == [b, c, d, e];
  }

  /** One of the fields of a named schedule: a number, or anything. */
  function Choice(n: Option<nat>): seq<Item> {
    if n.None? then Anything() else Number(n.value)
  }

  function ChoiceText(n: Option<nat>): string {
    if n.None? then "*" else Numeral(n.value)
  }

  lemma ChoiceMeans(n: Option<nat>, min: nat, max: nat)
    requires min < max <= 59 && (n.Some? ==> min <= n.value <= max)
    ensures Fit(Choice(n), min, max) && FieldText(Choice(n)) == ChoiceText(n)
    ensures forall x :: Picks(Choice(n), min, max, x) <==> if n.None? then min <= x <= max else x == n.value
    ensures LeavesOut(Choice(n), min, max) <==> n.Some?
  {
    if n.None? {
      AnythingMeans(min, max);
    } else {
      NumberMeans(n.value, min, max);
    }
  }

  predicate Agrees(n: Option<nat>, x: int) {
    n.None? || x == n.value
  }

  predicate InBounds(n: Option<nat>, min: nat, max: nat) {
    n.Some? ==> min <= n.value <= max
  }

  function ChoicesText(m: Option<nat>, h: Option<nat>, d: Option<nat>, mo: Option<nat>, wd: Option<nat>): string {
    ChoiceText(m) + " " + ChoiceText(h) + " " + ChoiceText(d) + " " + ChoiceText(mo) + " " + ChoiceText(wd)
  }

  function Choices(m: Option<nat>, h: Option<nat>, d: Option<nat>, mo: Option<nat>, wd: Option<nat>): Expression {
    Expression(Choice(m), Choice(h), Choice(d), Choice(mo), Choice(wd))
  }

  predicate ChoicesInBounds(m: Option<nat>, h: Option<nat>, d: Option<nat>, mo: Option<nat>, wd: Option<nat>) {
    InBounds(m, 0, 59) && InBounds(h, 0, 23) && InBounds(d, 1, 31) && InBounds(mo, 1, 12) && InBounds(wd, 0, 6)
  }

  lemma ChoicesFit(m: Option<nat>, h: Option<nat>, d: Option<nat>, mo: Option<nat>, wd: Option<nat>)
    requires ChoicesInBounds(m, h, d, mo, wd)
    ensures WellFormed(Choices(m, h, d, mo, wd))
    ensures ExpressionText(Choices(m, h, d, mo, wd)) == ChoicesText(m, h, d, mo, wd)
  {
    ChoiceMeans(m, 0, 59);
    ChoiceMeans(h, 0, 23);
    ChoiceMeans(d, 1, 31);
    ChoiceMeans(mo, 1, 12);
    ChoiceMeans(wd, 0, 6);
    JoinFive(ChoiceText(m), ChoiceText(h), ChoiceText(d), ChoiceText(mo), ChoiceText(wd));
  }

  /** The minute has the numbers that are given; a day and a weekday that are both given are alternatives. */
  predicate HasNumbers(m: Option<nat>, h: Option<nat>, d: Option<nat>, mo: Option<nat>, wd: Option<nat>, c: Civil) {
    && Agrees(m, c.minute) && Agrees(h, c.hour) && Agrees(mo, c.month)
    && if d.Some? && wd.Some? then c.day == d.value || c.weekday == wd.value
       else Agrees(d, c.day) && Agrees(wd, c.weekday)
  }

  lemma ChoicePicks(n: Option<nat>, min: nat, max: nat, x: int)
    requires min < max <= 59 && InBounds(n, min, max) && min <= x <= max && Fit(Choice(n), min, max)
    ensures Picks(Choice(n), min, max, x) <==> Agrees(n, x)
    ensures LeavesOut(Choice(n), min, max) <==> n.Some?
  {
    ChoiceMeans(n, min, max);
  }

  lemma ChoicesSay(m: Option<nat>, h: Option<nat>, d: Option<nat>, mo: Option<nat>, wd: Option<nat>, c: Civil)
    requires ChoicesInBounds(m, h, d, mo, wd) && ValidCivil(c) && WellFormed(Choices(m, h, d, mo, wd))
    ensures Says(Choices(m, h, d, mo, wd), c) <==> HasNumbers(m, h, d, mo, wd, c)
  {
    ChoicePicks(m, 0, 59, c.minute);
    ChoicePicks(h, 0, 23, c.hour);
    ChoicePicks(d, 1, 31, c.day);
    ChoicePicks(mo, 1, 12, c.month);
    ChoicePicks(wd, 0, 6, c.weekday);
  }

  /**
   A text that stands for five fields, each a number in bounds or a star, is accepted and matches a minute
   exactly when the minute has those numbers.
   */
  lemma NumbersMean(text: string, m: Option<nat>, h: Option<nat>, d: Option<nat>, mo: Option<nat>, wd: Option<nat>, c: Civil)
    requires ChoicesInBounds(m, h, d, mo, wd) && ValidCivil(c)
    requires TrimSpace(text) == text != "" && Expanded(text) == ChoicesText(m, h, d, mo, wd)
    ensures var r := ReadSchedule(text); r.Good? && (Matches(r.schedule, c) <==> HasNumbers(m, h, d, mo, wd, c))
  {
    ChoicesFit(m, h, d, mo, wd);
    ChoicesSay(m, h, d, mo, wd, c);
    ExpandedReads(text, Choices(m, h, d, mo, wd), c);
  }

  lemma NamedTexts()
    ensures ChoicesText(Some(0), None, None, None, None) == "0 * * * *"
    ensures ChoicesText(Some(0), Some(0), None, None, None) == "0 0 * * *"
    ensures ChoicesText(Some(0), Some(0), None, None, Some(0)) == "0 0 * * 0"
    ensures ChoicesText(Some(0), Some(0), Some(1), None, None) == "0 0 1 * *"
    ensures ChoicesText(Some(0), Some(0), Some(1), Some(1), None) == "0 0 1 1 *"
  {
    assert Numeral(0) == "0" && Numeral(1) == "1";
  }

  ghost predicate Means(name: string, c: Civil, yes: bool) {
    ReadSchedule(name).Good? && (Matches(ReadSchedule(name).schedule, c) <==> yes)
  }

  lemma NameMeans(name: string, h: Option<nat>, d: Option<nat>, mo: Option<nat>, wd: Option<nat>, c: Civil)
    requires ChoicesInBounds(Some(0), h, d, mo, wd) && ValidCivil(c)
    requires name != "" && name[0] == '@' && !IsSpace(name[|name| - 1])
    requires Expanded(name) == ChoicesText(Some(0), h, d, mo, wd)
    ensures Means(name, c, HasNumbers(Some(0), h, d, mo, wd, c))
  {
    TrimKeeps(name);
    NumbersMean(name, Some(0), h, d, mo, wd, c);
  }

  /** What a name stands for: the start of every hour, day, week, month or year. */
  predicate NameSays(name: string, c: Civil) {
    && c.minute == 0
    && (name != "@hourly" ==> c.hour == 0)
    && (name == "@weekly" ==> c.weekday == 0)
    && (name == "@monthly" || name == "@yearly" || name == "@annually" ==> c.day == 1)
    && (name == "@yearly" || name == "@annually" ==> c.month == 1)
  }

  predicate IsName(name: string) {
    || name == "@hourly" || name == "@daily" || name == "@midnight" || name == "@weekly"
    || name == "@monthly" || name == "@yearly" || name == "@annually"
  }

  function When(yes: bool, n: nat): Option<nat> {
    if yes then Some(n) else None
  }

  lemma NameText(name: string)
    requires IsName(name)
    ensures Expanded(name) ==
            ChoicesText(Some(0), When(name != "@hourly", 0),
                        When(name == "@monthly" || name == "@yearly" || name == "@annually", 1),
                        When(name == "@yearly" || name == "@annually", 1), When(name == "@weekly", 0))
  {
    NamedTexts();
  }

  lemma NameEnds(name: string)
    requires IsName(name)
    ensures name != "" && name[0] == '@' && name[|name| - 1] in {'y', 't'}
  {
  }

  lemma NamesMean(name: string, c: Civil)
    requires ValidCivil(c) && IsName(name)
    ensures Means(name, c, NameSays(name, c))
  {
    NameText(name);
    NameEnds(name);
    NameMeans(name, When(name != "@hourly", 0),
              When(name == "@monthly" || name == "@yearly" || name == "@annually", 1),
              When(name == "@yearly" || name == "@annually", 1), When(name == "@weekly", 0), c);
  }

  /** A number outside the bounds of its field is refused. */
  lemma OutOfBoundsIsRefused(n: nat, min: nat, max: nat)
    requires min <= max <= 59
    ensures FieldOf(Numeral(n), min, max).Field? <==> min <= n <= max
  {
    if min <= n <= max {
      NumberMeans(n, min, max);
      FieldIsItems(Number(n), min, max, n);
    } else {
      NumberIsUnreadable(n, min, max);
      FirstFaultDecides(Elements(Numeral(n), min, max));
      PanicsExactlyWhen(Numeral(n), min, max);
      assert FirstFaultAt(Elements(Numeral(n), min, max), 0);
    }
  }

  lemma NumberIsUnreadable(n: nat, min: nat, max: nat)
    requires min <= max <= 59 && !(min <= n <= max)
    ensures Elements(Numeral(n), min, max) == [Unreadable] && Numeral(n) != "*"
  {
    var s := Numeral(n);
    NumeralValue(n);
    TrimKeeps(s);
    assert IndexOf(s, ',') == |s| && IndexOf(s, '/') == |s| && IndexOf(s, '-') == |s|;
    assert Split(s, ',') == [s] && s[..|s|] == s && s[0] != '*';
  }

  // ------------------------------------------------------- what is skipped, refused and panicked on

  /** A piece of nothing but spaces between commas is skipped. */
  lemma BlankPieceIsSkipped(pieces: seq<string>, k: nat, min: int, max: int)
    requires pieces != [] && (forall i :: 0 <= i < |pieces| ==> ',' !in pieces[i])
    requires k < |pieces| && TrimSpace(pieces[k]) == ""
    ensures var es := Elements(Join(pieces, ','), min, max); |es| == |pieces| && es[k] == Skipped
  {
    SplitJoin(pieces, ',');
  }

  /** Skipped elements change neither the verdict nor what is denoted. */
  lemma {:induction false} SkippedChangesNothing(es: seq<Element>, n: int)
    ensures Verdict(es + [Skipped]) == Verdict(es)
    ensures SomeCovers(es + [Skipped], n) <==> SomeCovers(es, n)
  {
    var more := es + [Skipped];
    assert more[..|more| - 1] == es && more[|es|] == Skipped;
    if SomeCovers(es, n) {
      var i :| 0 <= i < |es| && ElementCovers(es[i], n);
      assert ElementCovers(more[i], n);
    }
  }

  /** A number with a step panics exactly when their sum passes the largest integer, and otherwise denotes the number. */
  lemma StepBoundIsExact(a: nat, step: nat, n: int)
    requires a <= 59 && 1 <= step <= MAX_INT
    ensures var p := FieldOf(FieldText([Item(Base.At(a), Some(step))]), 0, 59);
            && (p == Panics <==> a + step > MAX_INT)
            && (a + step <= MAX_INT ==> p.Field? && (Has(p.word, n) <==> n == a))
  {
    var items := [Item(Base.At(a), Some(step))];
    FieldReadsBack(items, 0, 59, n);
    assert RunsOver(items[0], 0, 59) <==> a + step > MAX_INT;
    OnlyItself(a, step, n);
  }

  lemma OnlyItself(a: nat, step: nat, n: int)
    requires a <= 59 && 1 <= step <= MAX_INT
    ensures ItemCovers(Item(Base.At(a), Some(step)), 0, 59, n) <==> n == a
  {
  }

  predicate FirstNotAccepted(fs: seq<Parsed>, k: nat) {
    k < |fs| && !fs[k].Field? && forall j :: 0 <= j < k ==> fs[j].Field?
  }

  /** The first of five fields that is not accepted decides between a panic and a refusal. */
  lemma ReadingExactlyWhen(parts: seq<string>)
    requires |parts| == 5
    ensures var fs, r := AllFields(parts), ReadFields(parts);
            && (r.Good? <==> forall k :: 0 <= k < 5 ==> fs[k].Field?)
            && (r.Crashes? <==> exists k: nat :: FirstNotAccepted(fs, k) && fs[k] == Panics)
            && (r.Refused? <==> exists k: nat :: FirstNotAccepted(fs, k) && fs[k] == Bad)
  {
    var fs := AllFields(parts);
    forall k: nat | FirstNotAccepted(fs, k) ensures FirstFault(fs) == Some(fs[k]) {
      FaultAt(fs, k);
    }
    if !FirstFault(fs).None? {
      var k := FaultIsFirst(fs);
      assert FirstNotAccepted(fs, k);
    } else {
      NoFault(fs);
    }
  }

  lemma {:induction false} FaultIsFirst(fs: seq<Parsed>) returns (k: nat)
    requires FirstFault(fs).Some?
    ensures FirstNotAccepted(fs, k) && FirstFault(fs) == Some(fs[k])
  {
    if !fs[0].Field? {
      k := 0;
    } else {
      var rest := FaultIsFirst(fs[1..]);
      k := rest + 1;
      assert forall j :: 1 <= j < |fs| ==> fs[j] == fs[1..][j - 1];
    }
  }
}
