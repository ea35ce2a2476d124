/**
 A whole cron expression: reading its five fields, matching a minute against them, and the bounded
 search for the next minute that matches.
 */
module CronSchedule {
  import opened Core
  import opened Text
  import opened Cron

  datatype Schedule = Schedule(minute: Word64, hour: Word64, day: Word64, month: Word64, weekday: Word64)

  /** What ParseSchedule makes of an expression: a panic in a field is passed on. */
  datatype Reading = Good(schedule: Schedule) | Refused | Crashes

  // ------------------------------------------------------- ParseSchedule

  function Expanded(spec: string): string {
    if spec == "@hourly" then "0 * * * *"
    else if spec == "@daily" || spec == "@midnight" then "0 0 * * *"
    else if spec == "@weekly" then "0 0 * * 0"
    else if spec == "@monthly" then "0 0 1 * *"
    else if spec == "@yearly" || spec == "@annually" then "0 0 1 1 *"
    else spec
  }

  const LOWEST := [0, 0, 1, 1, 0]
  const HIGHEST := [59, 23, 31, 12, 6]

  /** The first field that is not accepted. */
  function FirstFault(fs: seq<Parsed>): Option<Parsed> {
    if fs == [] then None else if !fs[0].Field? then Some(fs[0]) else FirstFault(fs[1..])
  }

  function Assembled(fs: seq<Parsed>): Reading
    requires |fs| == 5
  {
    var fault := FirstFault(fs);
    if fault == Some(Panics) then Crashes
    else if fault.Some? then Refused
    else
      NoFault(fs);
      Good(Schedule(fs[0].word, fs[1].word, fs[2].word, fs[3].word, fs[4].word))
  }

  function FieldAt(parts: seq<string>, k: nat): Parsed
    requires |parts| == 5 && k < 5
  {
    FieldOf(parts[k], LOWEST[k], HIGHEST[k])
  }

  function AllFields(parts: seq<string>): (fs: seq<Parsed>)
    requires |parts| == 5
    ensures |fs| == 5 && forall k :: 0 <= k < 5 ==> fs[k] == FieldAt(parts, k)
  {
    [FieldAt(parts, 0), FieldAt(parts, 1), FieldAt(parts, 2), FieldAt(parts, 3), FieldAt(parts, 4)]
  }

  /** parseFields: five fields, read in order; the first that is not accepted decides. */
  function ReadFields(parts: seq<string>): Reading {
    if |parts| != 5 then Refused else Assembled(AllFields(parts))
  }

  function PartsOf(spec: string): seq<string> {
    Fields(Expanded(TrimSpace(spec)))
  }

  function ReadSchedule(spec: string): Reading {
    if TrimSpace(spec) == "" then Refused else ReadFields(PartsOf(spec))
  }

  lemma {:induction false} NoFault(fs: seq<Parsed>)
    requires FirstFault(fs).None?
    ensures forall j :: 0 <= j < |fs| ==> fs[j].Field?
  {
    if fs != [] {
      NoFault(fs[1..]);
      assert forall j :: 1 <= j < |fs| ==> fs[j] == fs[1..][j - 1];
    }
  }

  lemma {:induction false} FaultAt(fs: seq<Parsed>, k: nat)
    requires k < |fs| && !fs[k].Field? && forall j :: 0 <= j < k ==> fs[j].Field?
    ensures FirstFault(fs) == Some(fs[k])
  {
    if k > 0 {
      FaultAt(fs[1..], k - 1);
    }
  }

  lemma {:induction false} AllAccepted(fs: seq<Parsed>)
    requires forall j :: 0 <= j < |fs| ==> fs[j].Field?
    ensures FirstFault(fs).None?
  {
    if fs != [] {
      AllAccepted(fs[1..]);
    }
  }

  /** Five accepted fields are accepted together, and each word is that field's. */
  lemma AcceptedFields(parts: seq<string>, j: nat)
    requires ReadFields(parts).Good? && j < 5
    ensures |parts| == 5 && FieldOf(parts[j], LOWEST[j], HIGHEST[j]).Field?
    ensures WordOf(ReadFields(parts).schedule, j) == FieldOf(parts[j], LOWEST[j], HIGHEST[j]).word
  {
    WordsOf(AllFields(parts), j);
  }

  lemma WordsOf(fs: seq<Parsed>, j: nat)
    requires |fs| == 5 && Assembled(fs).Good? && j < 5
    ensures fs[j].Field? && WordOf(Assembled(fs).schedule, j) == fs[j].word
  {
    NoFault(fs);
  }

  function WordOf(s: Schedule, j: nat): Word64
    requires j < 5
  {
    if j == 0 then s.minute else if j == 1 then s.hour else if j == 2 then s.day
    else if j == 3 then s.month else s.weekday
  }

  method ParseFields(parts: seq<string>) returns (r: Reading)
    ensures r == ReadFields(parts)
  {
    if |parts| != 5 {
      return Refused;
    }
    ghost var all := AllFields(parts);
    var fs: seq<Parsed> := [];
    for k := 0 to 5
      invariant |fs| == k && forall j :: 0 <= j < k ==> fs[j].Field? && fs[j] == all[j]
    {
      var f := ParseField(parts[k], LOWEST[k], HIGHEST[k]);
      if !f.Field? {
        FaultAt(all, k);
        return if f.Panics? then Crashes else Refused;
      }
      fs := fs + [f];
    }
    assert fs == all;
    AllAccepted(fs);
    r := Good(Schedule(fs[0].word, fs[1].word, fs[2].word, fs[3].word, fs[4].word));
  }

  method ParseSchedule(spec: string) returns (r: Reading)
    ensures r == ReadSchedule(spec)
  {
    var text := TrimSpace(spec);
    if text == "" {
      return Refused;
    }
    r := ParseFields(Fields(Expanded(text)));
  }

  // ------------------------------------------------------- the characters of an accepted expression

  const BAR := '|'

  lemma StepShape(atom: string)
    requires SplitStep(atom).Some?
    ensures var i := IndexOf(atom, '/');
            SplitStep(atom).value.0 == atom[..i] && (i < |atom| ==> Atoi(atom[i + 1..]).Some?)
  {
  }

  lemma BarInNeither(atom: string, i: nat)
    requires i <= |atom| && (i < |atom| ==> atom[i] != BAR && BAR !in atom[i + 1..]) && BAR !in atom[..i]
    ensures BAR !in atom
  {
    if i < |atom| {
      assert atom == atom[..i] + [atom[i]] + atom[i + 1..];
    } else {
      assert atom == atom[..i];
    }
  }

  lemma AtomHasNoBar(atom: string, min: int, max: int)
    requires ParseAtom(atom, min, max).Some?
    ensures BAR !in atom
  {
    var i := IndexOf(atom, '/');
    StepShape(atom);
    BaseHasNoBar(SplitStep(atom).value.0, min, max);
    if i < |atom| {
      AtoiCharacters(atom[i + 1..], BAR);
    }
    BarInNeither(atom, i);
  }

  lemma BaseHasNoBar(base: string, min: int, max: int)
    requires ParseRange(base, min, max).Some?
    ensures BAR !in base
  {
    if base != "*" {
      var i := IndexOf(base, '-');
      if i < |base| {
        AtoiCharacters(base[..i], BAR);
        AtoiCharacters(base[i + 1..], BAR);
        BarInNeither(base, i);
      } else {
        AtoiCharacters(base, BAR);
      }
    }
  }

  lemma FieldHasNoBar(spec: string, min: int, max: int)
    requires FieldOf(spec, min, max).Field?
    ensures BAR !in spec
  {
    if spec != "*" {
      var pieces, es := Split(spec, ','), Elements(spec, min, max);
      forall p | p in pieces ensures BAR !in p {
        var k :| 0 <= k < |pieces| && pieces[k] == p;
        if !es[k].Skipped? {
          AcceptedElementReads(es, k);
          AtomHasNoBar(TrimSpace(p), min, max);
        }
        TrimCovers(p, BAR);
      }
      SplitCovers(spec, ',', BAR);
    }
  }

  lemma PartsHaveNoBar(parts: seq<string>)
    requires ReadFields(parts).Good?
    ensures forall p :: p in parts ==> BAR !in p
  {
    forall p | p in parts ensures BAR !in p {
      var j :| 0 <= j < |parts| && parts[j] == p;
      AcceptedFields(parts, j);
      FieldHasNoBar(p, LOWEST[j], HIGHEST[j]);
    }
  }

  lemma AliasesHaveNoBar(spec: string)
    requires BAR !in Expanded(spec)
    ensures BAR !in spec
  {
  }

  /** No accepted expression contains the character the scheduler joins it to the location with. */
  lemma AcceptedHasNoBar(spec: string)
    requires ReadSchedule(spec).Good?
    ensures BAR !in spec
  {
    PartsHaveNoBar(PartsOf(spec));
    FieldsCover(Expanded(TrimSpace(spec)), BAR);
    AliasesHaveNoBar(TrimSpace(spec));
    TrimCovers(spec, BAR);
  }

  // ------------------------------------------------------- matching a minute

  /** The calendar fields of a minute: Sunday is weekday 0. */
  datatype Civil = Civil(minute: int, hour: int, day: int, month: int, weekday: int)

  predicate ValidCivil(c: Civil) {
    0 <= c.minute <= 59 && 0 <= c.hour <= 23 && 1 <= c.day <= 31 && 1 <= c.month <= 12 && 0 <= c.weekday <= 6
  }

  function Full(min: int, max: int): Word64 {
    DenotedWord("*", min, max)
  }

  /** Schedule.matches, with its switch over which of the two day fields is full. */
  predicate Matches(s: Schedule, c: Civil) {
    && Has(s.minute, c.minute)
    && Has(s.hour, c.hour)
    && Has(s.month, c.month)
    && var dayAll, weekdayAll := s.day == Full(1, 31), s.weekday == Full(0, 6);
       if dayAll && weekdayAll then true
       else if dayAll then Has(s.weekday, c.weekday)
       else if weekdayAll then Has(s.day, c.day)
       else Has(s.day, c.day) || Has(s.weekday, c.weekday)
  }

  predicate PartDenotes(parts: seq<string>, k: int, n: int)
    requires |parts| == 5 && 0 <= k < 5
  {
    Denotes(parts[k], LOWEST[k], HIGHEST[k], n)
  }

  predicate Restricted(parts: seq<string>, k: int)
    requires |parts| == 5 && 0 <= k < 5
  {
    exists n :: LOWEST[k] <= n <= HIGHEST[k] && !PartDenotes(parts, k, n)
  }

  /** The rule of Vixie cron, over the texts: two restricted day fields are joined by or, else by and. */
  predicate TextMatches(parts: seq<string>, c: Civil)
    requires |parts| == 5
  {
    && PartDenotes(parts, 0, c.minute) && PartDenotes(parts, 1, c.hour) && PartDenotes(parts, 3, c.month)
    && var day, weekday := PartDenotes(parts, 2, c.day), PartDenotes(parts, 4, c.weekday);
       if Restricted(parts, 2) && Restricted(parts, 4) then day || weekday else day && weekday
  }

  lemma FullExactlyWhenUnrestricted(spec: string, min: int, max: int)
    requires 0 <= min <= max <= 59 && FieldOf(spec, min, max).Field?
    ensures FieldOf(spec, min, max).word == Full(min, max) <==>
            forall n :: min <= n <= max ==> Denotes(spec, min, max, n)
  {
    var w := FieldOf(spec, min, max).word;
    forall n ensures Has(w, n) <==> Denotes(spec, min, max, n) { AcceptedFieldIsItsText(spec, min, max, n); }
    forall n ensures Has(Full(min, max), n) <==> min <= n <= max { HasIsBit(Full(min, max), n); }
    if forall n :: min <= n <= max ==> Denotes(spec, min, max, n) {
      forall n ensures Has(w, n) <==> Has(Full(min, max), n) { AcceptedFieldIsItsText(spec, min, max, n); }
      SameMembers(w, Full(min, max));
    }
  }

  lemma WordDenotes(parts: seq<string>, k: nat, n: int)
    requires ReadFields(parts).Good? && k < 5
    ensures |parts| == 5
    ensures Has(WordOf(ReadFields(parts).schedule, k), n) <==> PartDenotes(parts, k, n)
    ensures PartDenotes(parts, k, n) ==> LOWEST[k] <= n <= HIGHEST[k]
    ensures WordOf(ReadFields(parts).schedule, k) == Full(LOWEST[k], HIGHEST[k]) <==> !Restricted(parts, k)
  {
    AcceptedFields(parts, k);
    AcceptedFieldIsItsText(parts[k], LOWEST[k], HIGHEST[k], n);
    FullExactlyWhenUnrestricted(parts[k], LOWEST[k], HIGHEST[k]);
    RestrictedIsNotFull(parts, k);
  }

  lemma UnrestrictedDenotes(parts: seq<string>, k: nat, n: int)
    requires |parts| == 5 && k < 5 && !Restricted(parts, k) && LOWEST[k] <= n <= HIGHEST[k]
    ensures PartDenotes(parts, k, n)
  {
  }

  lemma FieldsMeanTheirText(parts: seq<string>, c: Civil)
    requires ReadFields(parts).Good? && ValidCivil(c)
    ensures |parts| == 5
    ensures Matches(ReadFields(parts).schedule, c) <==> TextMatches(parts, c)
  {
    WordDenotes(parts, 0, c.minute);
    WordDenotes(parts, 1, c.hour);
    WordDenotes(parts, 2, c.day);
    WordDenotes(parts, 3, c.month);
    WordDenotes(parts, 4, c.weekday);
    if !Restricted(parts, 2) {
      UnrestrictedDenotes(parts, 2, c.day);
    }
    if !Restricted(parts, 4) {
      UnrestrictedDenotes(parts, 4, c.weekday);
    }
  }

  /** An accepted schedule matches a minute exactly when its text says so. */
  lemma ScheduleMeansItsText(spec: string, c: Civil)
    requires ReadSchedule(spec).Good? && ValidCivil(c)
    ensures |PartsOf(spec)| == 5
    ensures Matches(ReadSchedule(spec).schedule, c) <==> TextMatches(PartsOf(spec), c)
  {
    FieldsMeanTheirText(PartsOf(spec), c);
  }

  lemma RestrictedIsNotFull(parts: seq<string>, k: int)
    requires |parts| == 5 && 0 <= k < 5
    ensures Restricted(parts, k) <==>
            !forall n :: LOWEST[k] <= n <= HIGHEST[k] ==> Denotes(parts[k], LOWEST[k], HIGHEST[k], n)
  {
    if n :| LOWEST[k] <= n <= HIGHEST[k] && !Denotes(parts[k], LOWEST[k], HIGHEST[k], n) {
      assert !PartDenotes(parts, k, n);
    }
  }

  // ------------------------------------------------------- the next minute

  const SECOND := 1_000_000_000
  const MINUTE := 60 * SECOND
  const HORIZON := 4 * 365 * 24 * 60 * MINUTE

  /** The calendar fields a location gives to a minute counted from the zero time. */
  type Calendar = int -> Civil

  predicate Fires(s: Schedule, cal: Calendar, m: int) {
    Matches(s, cal(m))
  }

  /** Where Next starts: a minute on, less the seconds, cut down to a whole minute. */
  function StartMinute(after: int): int {
    (after + MINUTE - (after % MINUTE) / SECOND * SECOND) / MINUTE
  }

  lemma StartIsStrictlyAfter(after: int)
    ensures StartMinute(after) == after / MINUTE + 1
    ensures after < StartMinute(after) * MINUTE <= after + MINUTE
  {
    var q, r := after / MINUTE, after % MINUTE;
    var rest := r - r / SECOND * SECOND;
    assert 0 <= rest < SECOND;
    assert after + MINUTE - r / SECOND * SECOND == (q + 1) * MINUTE + rest;
  }

  /** `m` is the first minute after `after` and inside the horizon that the schedule fires at. */
  predicate IsNext(s: Schedule, cal: Calendar, after: int, m: int) {
    && after < m * MINUTE < after + HORIZON
    && Fires(s, cal, m)
    && forall k :: after / MINUTE < k < m ==> !Fires(s, cal, k)
  }

  function Search(s: Schedule, cal: Calendar, m: int, limit: int): Option<int>
    decreases limit - m * MINUTE
  {
    if m * MINUTE >= limit then None
    else if Fires(s, cal, m) then Some(m)
    else Search(s, cal, m + 1, limit)
  }

  function NextMinute(s: Schedule, cal: Calendar, after: int): Option<int> {
    Search(s, cal, StartMinute(after), after + HORIZON)
  }

  lemma {:induction false} SearchFindsTheFirst(s: Schedule, cal: Calendar, m: int, limit: int)
    ensures Search(s, cal, m, limit).None? ==> forall k :: m <= k && k * MINUTE < limit ==> !Fires(s, cal, k)
    ensures Search(s, cal, m, limit).Some? ==>
              var r := Search(s, cal, m, limit).value;
              m <= r && r * MINUTE < limit && Fires(s, cal, r) && forall k :: m <= k < r ==> !Fires(s, cal, k)
    decreases limit - m * MINUTE
  {
    if m * MINUTE < limit && !Fires(s, cal, m) {
      SearchFindsTheFirst(s, cal, m + 1, limit);
    }
  }

  /** Next is the least matching minute strictly after its argument, and zero exactly when there is none. */
  lemma NextIsTheLeast(s: Schedule, cal: Calendar, after: int)
    ensures var r := NextMinute(s, cal, after);
            && (r.Some? ==> IsNext(s, cal, after, r.value))
            && (r.None? <==> forall m :: after < m * MINUTE < after + HORIZON ==> !Fires(s, cal, m))
  {
    StartIsStrictlyAfter(after);
    SearchFindsTheFirst(s, cal, StartMinute(after), after + HORIZON);
    forall m | after < m * MINUTE ensures StartMinute(after) <= m {
      LaterMinute(after, m);
    }
  }

  lemma LaterMinute(after: int, m: int)
    requires after < m * MINUTE
    ensures after / MINUTE < m
  {
  }

  /** Schedule.Next as a loop that steps one minute at a time. */
  method Next(s: Schedule, cal: Calendar, after: int) returns (r: Option<int>)
    ensures r == NextMinute(s, cal, after)
  {
    var m := StartMinute(after);
    var limit := after + HORIZON;
    while m * MINUTE < limit
      invariant NextMinute(s, cal, after) == Search(s, cal, m, limit)
      decreases limit - m * MINUTE
    {
      if Fires(s, cal, m) {
        return Some(m);
      }
      m := m + 1;
    }
    r := None;
  }
}
