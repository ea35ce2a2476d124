/** Slash-separated paths: cleaning, joining and taking apart, as path/filepath does on Unix. */
module Paths {
  import opened Text

  /** An ordinary component. */
  predicate Step(c: string) {
    c != "" && c != "." && c != ".." && '/' !in c
  }

  predicate Steps(cs: seq<string>) {
    forall i :: 0 <= i < |cs| ==> Step(cs[i])
  }

  /** The components that are left when the empty ones, the dots and the double dots are worked off. */
  function Walk(cs: seq<string>, rooted: bool): seq<string> {
    if cs == [] then []
    else
      var st, c := Walk(cs[..|cs| - 1], rooted), cs[|cs| - 1];
      if c == "" || c == "." then st
      else if c != ".." then st + [c]
      else if st != [] && st[|st| - 1] != ".." then st[..|st| - 1]
      else if rooted then st
      else st + [c]
  }

  predicate IsAbs(s: string) {
    s != "" && s[0] == '/'
  }

  /** filepath.Clean. */
  function Clean(s: string): string {
    var st := Walk(Split(s, '/'), IsAbs(s));
    if IsAbs(s) then "/" + Join(st, '/')
    else if st == [] then "."
    else Join(st, '/')
  }

  /** filepath.Join of two elements, the second not empty. */
  function JoinPath(a: string, b: string): string {
    if a == "" then Clean(b) else Clean(a + "/" + b)
  }

  function TrimSlashes(s: string): string {
    if s != "" && s[|s| - 1] == '/' then TrimSlashes(s[..|s| - 1]) else s
  }

  function LastPiece(pieces: seq<string>): string
    requires pieces != []
  {
    pieces[|pieces| - 1]
  }

  /** filepath.Base. */
  function Base(s: string): string {
    if s == "" then "."
    else if TrimSlashes(s) == "" then "/"
    else LastPiece(Split(TrimSlashes(s), '/'))
  }

  /** The path of a directory below the root, from its components. */
  function Rooted(cs: seq<string>): string {
    "/" + Join(cs, '/')
  }

  // ------------------------------------------------------- joining

  lemma {:induction false} JoinSum(a: seq<string>, b: seq<string>)
    requires a != [] && b != []
    ensures Join(a + b, '/') == Join(a, '/') + "/" + Join(b, '/')
  {
    if |a| == 1 {
      assert (a + b)[1..] == b;
    } else {
      assert (a + b)[1..] == a[1..] + b;
      JoinSum(a[1..], b);
    }
  }

  lemma {:induction false} SplitPieces(s: string, c: char)
    ensures forall p :: p in Split(s, c) ==> c !in p
    decreases |s|
  {
    var i := IndexOf(s, c);
    if i < |s| {
      SplitPieces(s[i + 1..], c);
    }
  }

  lemma SplitSteps(cs: seq<string>)
    requires Steps(cs) && cs != []
    ensures Split(Join(cs, '/'), '/') == cs
  {
    SplitJoin(cs, '/');
  }

  lemma SplitRooted(cs: seq<string>)
    requires Steps(cs) && cs != []
    ensures Split(Rooted(cs), '/') == [""] + cs
  {
    SplitSteps(cs);
    SplitHead("", Join(cs, '/'), '/');
    assert "" + ['/'] + Join(cs, '/') == Rooted(cs);
  }

  /** The first component ends at the first slash. */
  lemma FirstStep(cs: seq<string>)
    requires Steps(cs) && cs != []
    ensures var s := Join(cs, '/');
            var i := IndexOf(s, '/');
            && s[..i] == cs[0]
            && (i == |s| <==> |cs| == 1)
            && (|cs| > 1 ==> s[i + 1..] == Join(cs[1..], '/'))
            && s != "" && s[0] != '/'
  {
    var s, c := Join(cs, '/'), cs[0];
    assert Step(c);
    assert forall k :: 0 <= k < |c| ==> s[k] == c[k] && c[k] in c;
    IndexIs(s, '/', |c|);
  }

  // ------------------------------------------------------- cleaning

  lemma {:induction false} WalkKeepsSteps(cs: seq<string>, rooted: bool)
    requires Steps(cs)
    ensures Walk(cs, rooted) == cs && Walk([""] + cs, rooted) == cs
  {
    if cs != [] {
      var all := [""] + cs;
      WalkKeepsSteps(cs[..|cs| - 1], rooted);
      assert all[..|all| - 1] == [""] + cs[..|cs| - 1];
      assert Step(cs[|cs| - 1]);
    } else {
      assert [""][..0] == [];
    }
  }

  lemma CleanRelativeSteps(cs: seq<string>)
    requires Steps(cs) && cs != []
    ensures Clean(Join(cs, '/')) == Join(cs, '/') && !IsAbs(Join(cs, '/')) && Join(cs, '/') != ""
  {
    SplitSteps(cs);
    FirstStep(cs);
    WalkKeepsSteps(cs, false);
  }

  lemma CleanRooted(s: string, pieces: seq<string>, st: seq<string>)
    requires IsAbs(s) && Split(s, '/') == pieces && Walk(pieces, true) == st
    ensures Clean(s) == Rooted(st)
  {
  }

  lemma CleanRootedSteps(cs: seq<string>)
    requires Steps(cs) && cs != []
    ensures Clean(Rooted(cs)) == Rooted(cs)
  {
    SplitRooted(cs);
    WalkKeepsSteps(cs, true);
    CleanRooted(Rooted(cs), [""] + cs, cs);
  }

  lemma JoinSteps(ds: seq<string>, cs: seq<string>)
    requires Steps(ds) && Steps(cs) && ds != [] && cs != []
    ensures JoinPath(Rooted(ds), Join(cs, '/')) == Rooted(ds + cs)
    ensures Rooted(ds + cs) == Rooted(ds) + "/" + Join(cs, '/')
  {
    JoinSum(ds, cs);
    CleanRootedSteps(ds + cs);
    assert Rooted(ds) + "/" + Join(cs, '/') == Rooted(ds + cs);
  }

  /** Every component left by cleaning is ordinary or a double dot. */
  lemma {:induction false} WalkShape(cs: seq<string>, rooted: bool)
    requires forall p :: p in cs ==> '/' !in p
    ensures forall p :: p in Walk(cs, rooted) ==> Step(p) || p == ".."
  {
    if cs != [] {
      WalkShape(cs[..|cs| - 1], rooted);
      assert cs[|cs| - 1] in cs;
    }
  }

  /** strings.Contains(s, ".."). */
  predicate HasDots(s: string) {
    exists i :: 0 <= i < |s| && DotsAt(s, i)
  }

  predicate DotsAt(s: string, i: int) {
    0 <= i < |s| - 1 && s[i] == '.' && s[i + 1] == '.'
  }

  lemma {:induction false} DotsShow(cs: seq<string>, i: nat)
    requires i < |cs| && cs[i] == ".."
    ensures HasDots(Join(cs, '/'))
  {
    var s := Join(cs, '/');
    if i == 0 {
      assert DotsAt(s, 0);
    } else {
      DotsShow(cs[1..], i - 1);
      var rest := Join(cs[1..], '/');
      var k :| 0 <= k < |rest| && DotsAt(rest, k);
      assert s == cs[0] + ['/'] + rest;
      assert s[|cs[0]| + 1 + k] == rest[k] && s[|cs[0]| + 2 + k] == rest[k + 1];
      assert DotsAt(s, |cs[0]| + 1 + k);
    }
  }

  /** The components of a relative name. */
  function Parts(name: string): seq<string> {
    Walk(Split(name, '/'), false)
  }

  /** A cleaned name that is relative and without double dots is a dot or a list of ordinary components. */
  lemma SafeNamesAreSteps(name: string)
    requires !IsAbs(Clean(name)) && !HasDots(Clean(name))
    ensures Steps(Parts(name))
    ensures Clean(name) == if Parts(name) == [] then "." else Join(Parts(name), '/')
  {
    var cs := Parts(name);
    SplitPieces(name, '/');
    WalkShape(Split(name, '/'), false);
    forall i | 0 <= i < |cs| ensures Step(cs[i]) {
      assert cs[i] in cs;
      if cs[i] == ".." {
        DotsShow(cs, i);
      }
    }
  }

  lemma NothingToTrim(s: string)
    requires s != "" && s[|s| - 1] != '/'
    ensures TrimSlashes(s) == s
  {
  }

  lemma BaseOfTrimmed(s: string, pieces: seq<string>)
    requires s != "" && s[|s| - 1] != '/' && Split(s, '/') == pieces
    ensures Base(s) == LastPiece(pieces)
  {
    NothingToTrim(s);
  }

  lemma BaseOfSteps(cs: seq<string>)
    requires Steps(cs) && cs != []
    ensures Base(Rooted(cs)) == cs[|cs| - 1]
  {
    var s, j := Rooted(cs), Join(cs, '/');
    LastCharacter(cs);
    assert s[|s| - 1] == j[|j| - 1];
    SplitRooted(cs);
    BaseOfTrimmed(s, [""] + cs);
  }

  lemma {:induction false} LastCharacter(cs: seq<string>)
    requires Steps(cs) && cs != []
    ensures var s := Join(cs, '/'); s != "" && s[|s| - 1] != '/'
  {
    if |cs| == 1 {
      var c := cs[0];
      assert Step(c) && c[|c| - 1] in c;
    } else {
      LastCharacter(cs[1..]);
    }
  }
}
