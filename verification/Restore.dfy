/**
 Restoring a backup archive in two passes: every member is staged in memory and checked, and only
 then is anything written. Names are resolved against the directories an export is made of.
 */
module Restore {
  import opened Core
  import opened Text
  import opened Paths

  // ------------------------------------------------------- where a member goes

  /** restoreRoots: each directory under its base name, a later one replacing an earlier. */
  function RootsOf(dirs: seq<string>): map<string, string> {
    if dirs == [] then map[] else RootsOf(dirs[..|dirs| - 1])[Base(dirs[|dirs| - 1]) := dirs[|dirs| - 1]]
  }

  method RestoreRoots(configDir: string, extraDirs: seq<string>) returns (roots: map<string, string>)
    ensures roots == RootsOf([configDir] + extraDirs)
  {
    ghost var dirs := [configDir] + extraDirs;
    roots := map[Base(configDir) := configDir];
    assert dirs[..1] == [configDir] && [configDir][..0] == [];
    assert roots == RootsOf([configDir]);
    for k := 0 to |extraDirs|
      invariant roots == RootsOf(dirs[..k + 1])
    {
      assert dirs[..k + 2][..k + 1] == dirs[..k + 1];
      roots := roots[Base(extraDirs[k]) := extraDirs[k]];
    }
    assert dirs[..|extraDirs| + 1] == dirs;
  }

  predicate Below(root: string, target: string) {
    target == root || root + "/" <= target
  }

  /** resolveRestoreTarget. */
  function Resolve(roots: map<string, string>, clean: string): (r: Option<string>)
    ensures r.Some? ==> var top := clean[..IndexOf(clean, '/')]; top in roots && Below(roots[top], r.value)
  {
    var i := IndexOf(clean, '/');
    var top, rest := clean[..i], if i < |clean| then clean[i + 1..] else "";
    if top !in roots then None
    else
      var root := roots[top];
      var target := if rest == "" then root else JoinPath(root, rest);
      if Below(root, target) then Some(target) else None
  }

  const KEY_MEMBER := "credentials/config.key"

  /** What the name of a member decides. */
  datatype Place = Key | Unsafe | Unknown | At(target: string)

  function PlaceOf(roots: map<string, string>, name: string): Place {
    var clean := Clean(name);
    if clean == KEY_MEMBER then Key
    else if HasDots(clean) || IsAbs(clean) then Unsafe
    else if Resolve(roots, clean).None? then Unknown
    else At(Resolve(roots, clean).value)
  }

  /** The components of an absolute path. */
  function Comps(dir: string): seq<string> {
    Walk(Split(dir, '/'), true)
  }

  /** A directory given by its clean absolute path. */
  predicate IsDir(dir: string) {
    Steps(Comps(dir)) && Comps(dir) != [] && dir == Rooted(Comps(dir))
  }

  lemma ResolveIsExact(roots: map<string, string>, cs: seq<string>)
    requires Steps(cs) && cs != [] && cs[0] in roots && IsDir(roots[cs[0]])
    ensures Resolve(roots, Join(cs, '/')) == Some(Rooted(Comps(roots[cs[0]]) + cs[1..]))
  {
    var ds := Comps(roots[cs[0]]);
    FirstStep(cs);
    if |cs| > 1 {
      CleanRelativeSteps(cs[1..]);
      JoinSteps(ds, cs[1..]);
    } else {
      assert ds + cs[1..] == ds;
    }
  }

  /**
   A member that is written goes to its own root followed by the components of its name, all of them
   ordinary: a name is never able to step out of the directory it claims.
   */
  lemma WrittenBelowItsRoot(roots: map<string, string>, name: string)
    requires PlaceOf(roots, name).At? && "." !in roots && forall k :: k in roots ==> IsDir(roots[k])
    ensures var cs := Parts(name);
            && Steps(cs) && cs != [] && cs[0] in roots
            && PlaceOf(roots, name).target == Rooted(Comps(roots[cs[0]]) + cs[1..])
            && Below(roots[cs[0]], PlaceOf(roots, name).target)
  {
    SafeNamesAreSteps(name);
    var cs := Parts(name);
    DotIsUnknown(roots);
    if cs != [] {
      FirstStep(cs);
      ResolveIsExact(roots, cs);
    }
  }

  lemma DotIsUnknown(roots: map<string, string>)
    requires "." !in roots
    ensures Resolve(roots, ".").None?
  {
    IndexIs(".", '/', 1);
    assert "."[..1] == ".";
  }

  // ------------------------------------------------------- export and restore meet

  /** The name tar gives to what is at `cs` below a directory, from `-C parent base`. */
  function ExportName(dir: string, cs: seq<string>): string {
    Join([Base(dir)] + cs, '/')
  }

  predicate Shadowed(dirs: seq<string>, i: nat)
    requires i < |dirs|
  {
    exists j :: i < j < |dirs| && Base(dirs[j]) == Base(dirs[i])
  }

  predicate Different(dirs: seq<string>) {
    forall i, j :: 0 <= i < j < |dirs| ==> dirs[i] != dirs[j]
  }

  lemma {:induction false} RootIsAmongThem(dirs: seq<string>, base: string)
    requires base in RootsOf(dirs)
    ensures RootsOf(dirs)[base] in dirs
  {
    if Base(dirs[|dirs| - 1]) != base {
      RootIsAmongThem(dirs[..|dirs| - 1], base);
    }
  }

  /** A directory is the root of its base name exactly when no later one shares the name. */
  lemma {:induction false} RootIsTheLast(dirs: seq<string>, i: nat)
    requires i < |dirs| && Different(dirs)
    ensures Base(dirs[i]) in RootsOf(dirs)
    ensures RootsOf(dirs)[Base(dirs[i])] == dirs[i] <==> !Shadowed(dirs, i)
  {
    var front := dirs[..|dirs| - 1];
    if i < |front| {
      RootIsTheLast(front, i);
      if Shadowed(front, i) {
        var j :| i < j < |front| && Base(front[j]) == Base(front[i]);
        assert Base(dirs[j]) == Base(dirs[i]);
      }
    }
  }

  lemma {:induction false} PathsDiffer(a: seq<string>, b: seq<string>, cs: seq<string>)
    requires Steps(a) && Steps(b) && Steps(cs) && a != [] && b != [] && Rooted(a + cs) == Rooted(b + cs)
    ensures a == b
  {
    SplitRooted(a + cs);
    SplitRooted(b + cs);
    assert a + cs == ([""] + (a + cs))[1..] == ([""] + (b + cs))[1..] == b + cs;
    assert |a| == |b|;
    assert a == (a + cs)[..|a|] && b == (b + cs)[..|b|];
  }

  lemma ExportPlace(roots: map<string, string>, dir: string, cs: seq<string>)
    requires IsDir(dir) && Steps(cs) && Base(dir) in roots && IsDir(roots[Base(dir)])
    ensures var name := ExportName(dir, cs);
            PlaceOf(roots, name) ==
            if name == KEY_MEMBER then Key
            else if HasDots(name) then Unsafe
            else At(Rooted(Comps(roots[Base(dir)]) + cs))
  {
    var all := [Base(dir)] + cs;
    BaseOfSteps(Comps(dir));
    assert Steps(all);
    CleanRelativeSteps(all);
    ResolveIsExact(roots, all);
    assert all[1..] == cs;
  }

  /**
   What was exported from a directory is restored to the same place exactly when its name holds no
   double dot, is not that of the key, and no later directory has the same base name.
   */
  lemma ExportRestoresExactlyWhen(dirs: seq<string>, i: nat, cs: seq<string>)
    requires i < |dirs| && Different(dirs) && (forall k :: 0 <= k < |dirs| ==> IsDir(dirs[k])) && Steps(cs)
    ensures var name := ExportName(dirs[i], cs);
            PlaceOf(RootsOf(dirs), name) == At(Rooted(Comps(dirs[i]) + cs)) <==>
            !HasDots(name) && name != KEY_MEMBER && !Shadowed(dirs, i)
  {
    var base := Base(dirs[i]);
    RootIsTheLast(dirs, i);
    RootIsAmongThem(dirs, base);
    var root := RootsOf(dirs)[base];
    ExportPlace(RootsOf(dirs), dirs[i], cs);
    if Rooted(Comps(root) + cs) == Rooted(Comps(dirs[i]) + cs) {
      PathsDiffer(Comps(root), Comps(dirs[i]), cs);
    }
  }

  // ------------------------------------------------------- staging

  datatype Kind = Directory | Regular | Other

  /** A tar header and its content; reading the content may fail. */
  datatype Entry = Entry(name: string, kind: Kind, data: string, readable: bool)

  /** A torn archive ends in a header that cannot be read. */
  datatype Archive = Archive(entries: seq<Entry>, torn: bool)

  datatype Member = Member(target: string, isDir: bool, data: string)

  const MAX_ENTRY_BYTES := 10 * 1024 * 1024
  const MAX_TOTAL_BYTES := 256 * 1024 * 1024
  const MAX_ENTRIES := 10000
  const MAX_KEY_BYTES := 128

  /** What has been read so far, and what it has cost. */
  datatype Staging = Staging(members: seq<Member>, key: Option<string>, entries: nat, total: nat)

  const NOTHING := Staging([], None, 0, 0)

  /** io.LimitReader: never more than the limit. */
  function Limited(data: string, limit: nat): string {
    if |data| <= limit then data else data[..limit]
  }

  type Placing = string -> Place

  function StageKey(st: Staging, e: Entry, encrypted: bool): Option<Staging> {
    if !encrypted || !e.kind.Regular? || !e.readable then None
    else
      var data := Limited(e.data, MAX_KEY_BYTES + 1);
      if |data| > MAX_KEY_BYTES then None else Some(st.(key := Some(data)))
  }

  function StageFile(st: Staging, e: Entry, target: string): Option<Staging> {
    if !e.readable then None
    else
      var data := Limited(e.data, MAX_ENTRY_BYTES + 1);
      if |data| > MAX_ENTRY_BYTES || st.total + |data| > MAX_TOTAL_BYTES then None
      else Some(st.(members := st.members + [Member(target, false, data)], total := st.total + |data|))
  }

  /** One header: readArchivedKey or stageMember. */
  function StageOne(place: Placing, encrypted: bool, before: Staging, e: Entry): Option<Staging> {
    var st := before.(entries := before.entries + 1);
    if st.entries > MAX_ENTRIES then None
    else
      match place(e.name)
      case Key => StageKey(st, e, encrypted)
      case Unsafe => None
      case Unknown => Some(st)
      case At(target) =>
        match e.kind
        case Directory => Some(st.(members := st.members + [Member(target, true, "")]))
        case Regular => StageFile(st, e, target)
        case Other => None
  }

  function StageAll(place: Placing, encrypted: bool, es: seq<Entry>): Option<Staging> {
    if es == [] then Some(NOTHING)
    else
      var st := StageAll(place, encrypted, es[..|es| - 1]);
      if st.None? then None else StageOne(place, encrypted, st.value, es[|es| - 1])
  }

  // ------------------------------------------------------- what staging accepts

  predicate Acceptable(place: Placing, encrypted: bool, e: Entry) {
    match place(e.name)
    case Key => encrypted && e.kind.Regular? && e.readable && |e.data| <= MAX_KEY_BYTES
    case Unsafe => false
    case Unknown => true
    case At(_) => e.kind.Directory? || (e.kind.Regular? && e.readable && |e.data| <= MAX_ENTRY_BYTES)
  }

  predicate IsFile(place: Placing, e: Entry) {
    place(e.name).At? && e.kind.Regular?
  }

  function Volume(place: Placing, es: seq<Entry>): nat {
    if es == [] then 0
    else Volume(place, es[..|es| - 1]) + (if IsFile(place, es[|es| - 1]) then |es[|es| - 1].data| else 0)
  }

  /** The members an archive calls for, in order and whole. */
  function Members(place: Placing, es: seq<Entry>): seq<Member> {
    if es == [] then []
    else
      var e := es[|es| - 1];
      Members(place, es[..|es| - 1]) +
      (match place(e.name)
       case At(target) => [Member(target, e.kind.Directory?, if e.kind.Directory? then "" else e.data)]
       case _ => [])
  }

  function LastKey(place: Placing, es: seq<Entry>): Option<string> {
    if es == [] then None
    else if place(es[|es| - 1].name).Key? then Some(es[|es| - 1].data)
    else LastKey(place, es[..|es| - 1])
  }

  predicate WithinBudget(place: Placing, encrypted: bool, es: seq<Entry>) {
    && |es| <= MAX_ENTRIES
    && AllAcceptable(place, encrypted, es)
    && Volume(place, es) <= MAX_TOTAL_BYTES
  }

  /**
   Staging accepts exactly the archives whose every member is acceptable and which stay within the
   budget, and then holds every member whole.
   */
  lemma {:induction false} StagedExactlyWhen(place: Placing, encrypted: bool, es: seq<Entry>)
    ensures StageAll(place, encrypted, es).Some? <==> WithinBudget(place, encrypted, es)
    ensures StageAll(place, encrypted, es).Some? ==>
              StageAll(place, encrypted, es).value ==
              Staging(Members(place, es), LastKey(place, es), |es|, Volume(place, es))
  {
    if es != [] {
      var front, last := es[..|es| - 1], es[|es| - 1];
      StagedExactlyWhen(place, encrypted, front);
      BudgetOfFront(place, encrypted, es);
      if WithinBudget(place, encrypted, front) {
        OneMoreEntry(place, encrypted, front, last);
      }
    }
  }

  predicate AllAcceptable(place: Placing, encrypted: bool, es: seq<Entry>) {
    forall i :: 0 <= i < |es| ==> Acceptable(place, encrypted, es[i])
  }

  lemma AcceptableFront(place: Placing, encrypted: bool, front: seq<Entry>, e: Entry)
    ensures AllAcceptable(place, encrypted, front + [e]) <==>
            AllAcceptable(place, encrypted, front) && Acceptable(place, encrypted, e)
  {
    var es := front + [e];
    assert es[|front|] == e;
    if AllAcceptable(place, encrypted, es) {
      forall i | 0 <= i < |front| ensures Acceptable(place, encrypted, front[i]) {
        assert front[i] == es[i];
      }
    }
  }

  lemma BudgetOfFront(place: Placing, encrypted: bool, es: seq<Entry>)
    requires es != []
    ensures WithinBudget(place, encrypted, es) <==>
            && WithinBudget(place, encrypted, es[..|es| - 1])
            && |es| <= MAX_ENTRIES && Acceptable(place, encrypted, es[|es| - 1])
            && Volume(place, es) <= MAX_TOTAL_BYTES
  {
    var front, last := es[..|es| - 1], es[|es| - 1];
    assert es == front + [last];
    AcceptableFront(place, encrypted, front, last);
  }

  lemma OneMoreEntry(place: Placing, encrypted: bool, front: seq<Entry>, e: Entry)
    requires |front| <= MAX_ENTRIES && Volume(place, front) <= MAX_TOTAL_BYTES
    ensures var st := Staging(Members(place, front), LastKey(place, front), |front|, Volume(place, front));
            var es := front + [e];
            var r := StageOne(place, encrypted, st, e);
            && (r.Some? <==> |es| <= MAX_ENTRIES && Acceptable(place, encrypted, e) && Volume(place, es) <= MAX_TOTAL_BYTES)
            && (r.Some? ==> r.value == Staging(Members(place, es), LastKey(place, es), |es|, Volume(place, es)))
  {
    var es := front + [e];
    assert es[..|es| - 1] == front;
  }

  // ------------------------------------------------------- installing

  /** The live files and directories, and the credential key. */
  datatype Disk = Disk(files: map<string, string>, dirs: set<string>, key: Option<string>)

  function Install(d: Disk, m: Member): Disk {
    if m.isDir then d.(dirs := d.dirs + {m.target}) else d.(files := d.files[m.target := m.data])
  }

  function InstallAll(d: Disk, ms: seq<Member>): Disk {
    if ms == [] then d else Install(InstallAll(d, ms[..|ms| - 1]), ms[|ms| - 1])
  }

  /**
   The surroundings of a restore: where names go, which router.yaml config.ValidateBytes passes, which
   key RestoreConfigKey takes, and how many writes succeed before one fails.
   */
  datatype Env = Env(place: Placing, configFile: string, valid: string -> bool, keyFits: string -> bool, writes: nat)

  /** validateStagedConfig. */
  predicate ConfigPasses(env: Env, ms: seq<Member>) {
    forall i :: 0 <= i < |ms| && !ms[i].isDir && ms[i].target == env.configFile ==> env.valid(ms[i].data)
  }

  predicate Admitted(env: Env, a: Archive, encrypted: bool) {
    && !a.torn && WithinBudget(env.place, encrypted, a.entries)
    && ConfigPasses(env, Members(env.place, a.entries))
  }

  /** restoreArchive: the outcome and the disk it leaves. */
  function RestoreArchive(env: Env, a: Archive, encrypted: bool, d: Disk): (bool, Disk) {
    var st := if a.torn then None else StageAll(env.place, encrypted, a.entries);
    if st.None? || !ConfigPasses(env, st.value.members) then (false, d)
    else if env.writes < |st.value.members| then (false, InstallAll(d, st.value.members[..env.writes]))
    else
      var done := InstallAll(d, st.value.members);
      if st.value.key.None? then (true, done)
      else if env.keyFits(st.value.key.value) then (true, done.(key := st.value.key))
      else (false, done)
  }

  /** The entry of the archive that a file was written from. */
  predicate WrittenFrom(env: Env, es: seq<Entry>, i: nat, path: string, data: string)
    requires i < |es|
  {
    IsFile(env.place, es[i]) && env.place(es[i].name).target == path && es[i].data == data
  }

  predicate Touched(before: Disk, after: Disk, path: string) {
    path in after.files && (path !in before.files || before.files[path] != after.files[path])
  }

  lemma {:induction false} InstalledFrom(d: Disk, ms: seq<Member>, path: string)
    ensures path in d.files ==> path in InstallAll(d, ms).files
    ensures Touched(d, InstallAll(d, ms), path) ==>
              exists i :: 0 <= i < |ms| && ms[i] == Member(path, false, InstallAll(d, ms).files[path])
  {
    if ms != [] {
      var front, last := ms[..|ms| - 1], ms[|ms| - 1];
      InstalledFrom(d, front, path);
      if Touched(d, InstallAll(d, ms), path) {
        if last.isDir || last.target != path {
          var i :| 0 <= i < |front| && front[i] == Member(path, false, InstallAll(d, front).files[path]);
          assert ms[i] == front[i];
        } else {
          assert ms[|ms| - 1] == Member(path, false, last.data);
        }
      }
    }
  }

  lemma {:induction false} MemberFrom(env: Env, es: seq<Entry>, encrypted: bool, k: nat)
    requires WithinBudget(env.place, encrypted, es) && k < |Members(env.place, es)| && !Members(env.place, es)[k].isDir
    ensures var m := Members(env.place, es)[k];
            exists i :: 0 <= i < |es| && WrittenFrom(env, es, i, m.target, m.data)
  {
    var front := es[..|es| - 1];
    BudgetOfFront(env.place, encrypted, es);
    var m := Members(env.place, es)[k];
    if k < |Members(env.place, front)| {
      MemberFrom(env, front, encrypted, k);
      var i :| 0 <= i < |front| && WrittenFrom(env, front, i, m.target, m.data);
      assert WrittenFrom(env, es, i, m.target, m.data);
    } else {
      assert WrittenFrom(env, es, |es| - 1, m.target, m.data);
    }
  }

  /** The members that are on the disk after a restore, or after one that a failed write cut short. */
  function Installed(env: Env, a: Archive): seq<Member> {
    var ms := Members(env.place, a.entries);
    if env.writes < |ms| then ms[..env.writes] else ms
  }

  /**
   An archive that is not admitted writes nothing; of one that is, each member is written until a write
   fails. A restore succeeds exactly when the archive is admitted, every write succeeds and the archived
   key, if there is one, is taken; that key is then the one in use.
   */
  lemma RestoreIsTwoPhase(env: Env, a: Archive, encrypted: bool, d: Disk)
    ensures var (ok, after) := RestoreArchive(env, a, encrypted, d);
            var archived := LastKey(env.place, a.entries);
            && (ok <==>
                && Admitted(env, a, encrypted) && env.writes >= |Members(env.place, a.entries)|
                && (archived.Some? ==> env.keyFits(archived.value)))
            && (ok ==> after.key == if archived.Some? then archived else d.key)
            && (!Admitted(env, a, encrypted) ==> !ok && after == d)
            && (Admitted(env, a, encrypted) ==> after.(key := d.key) == InstallAll(d, Installed(env, a)))
            && (ok ==> Admitted(env, a, encrypted) && Installed(env, a) == Members(env.place, a.entries))
            && (after.key != d.key ==> ok && encrypted && after.key == LastKey(env.place, a.entries))
  {
    StagedExactlyWhen(env.place, encrypted, a.entries);
    InstallKeepsKey(d, Installed(env, a));
    if WithinBudget(env.place, encrypted, a.entries) {
      KeyNeedsEncryption(env.place, encrypted, a.entries);
    }
  }

  lemma {:induction false} InstallKeepsKey(d: Disk, ms: seq<Member>)
    ensures InstallAll(d, ms).key == d.key
  {
    if ms != [] {
      InstallKeepsKey(d, ms[..|ms| - 1]);
    }
  }

  lemma {:induction false} KeyNeedsEncryption(place: Placing, encrypted: bool, es: seq<Entry>)
    requires WithinBudget(place, encrypted, es)
    ensures LastKey(place, es).Some? ==> encrypted
  {
    if es != [] {
      BudgetOfFront(place, encrypted, es);
      KeyNeedsEncryption(place, encrypted, es[..|es| - 1]);
    }
  }

  /** The last file of `ms` for a path. */
  predicate LastFor(ms: seq<Member>, i: nat, path: string) {
    && i < |ms| && !ms[i].isDir && ms[i].target == path
    && forall j :: i < j < |ms| ==> ms[j].isDir || ms[j].target != path
  }

  predicate Untouched(ms: seq<Member>, path: string) {
    forall j :: 0 <= j < |ms| ==> ms[j].isDir || ms[j].target != path
  }

  /** Each path holds what its last file says, or what it held; each directory member is there. */
  lemma {:induction false} InstalledExactly(d: Disk, ms: seq<Member>, path: string)
    ensures var after := InstallAll(d, ms);
            && (forall i: nat :: LastFor(ms, i, path) ==> path in after.files && after.files[path] == ms[i].data)
            && (Untouched(ms, path) ==> (path in after.files <==> path in d.files))
            && (Untouched(ms, path) && path in d.files ==> after.files[path] == d.files[path])
            && (path in after.dirs <==> path in d.dirs || exists i :: 0 <= i < |ms| && ms[i].isDir && ms[i].target == path)
  {
    if ms != [] {
      var front, last := ms[..|ms| - 1], ms[|ms| - 1];
      InstalledExactly(d, front, path);
      assert forall j :: 0 <= j < |front| ==> front[j] == ms[j];
      forall i: nat | LastFor(ms, i, path) && i < |front| ensures LastFor(front, i, path) {
      }
      if Untouched(ms, path) {
        assert Untouched(front, path);
      }
      if last.isDir && last.target == path {
        assert ms[|ms| - 1].isDir;
      }
    }
  }

  /** A restore that succeeds has made the directory of every directory member. */
  lemma {:induction false} EveryDirectoryIsMade(env: Env, es: seq<Entry>, d: Disk, i: nat)
    requires i < |es| && env.place(es[i].name).At? && es[i].kind.Directory?
    ensures env.place(es[i].name).target in InstallAll(d, Members(env.place, es)).dirs
  {
    var front, last := es[..|es| - 1], es[|es| - 1];
    var all := Members(env.place, es);
    if i < |front| {
      EveryDirectoryIsMade(env, front, d, i);
    }
    if env.place(last.name).At? {
      assert all[..|all| - 1] == Members(env.place, front);
    } else {
      assert all == Members(env.place, front);
    }
  }

  /**
   Every file a restore changes holds the whole content of a regular member of an admitted archive
   that resolves to its path; and router.yaml, if it changes, passes validation.
   */
  lemma EveryWriteIsAWholeMember(env: Env, a: Archive, encrypted: bool, d: Disk, path: string)
    requires Touched(d, RestoreArchive(env, a, encrypted, d).1, path)
    ensures var data := RestoreArchive(env, a, encrypted, d).1.files[path];
            && Admitted(env, a, encrypted)
            && (exists i :: 0 <= i < |a.entries| && WrittenFrom(env, a.entries, i, path, data))
            && |data| <= MAX_ENTRY_BYTES
            && (path == env.configFile ==> env.valid(data))
  {
    RestoreIsTwoPhase(env, a, encrypted, d);
    var ms := Members(env.place, a.entries);
    var after := InstallAll(d, Installed(env, a));
    InstalledFrom(d, Installed(env, a), path);
    var k :| 0 <= k < |Installed(env, a)| && Installed(env, a)[k] == Member(path, false, after.files[path]);
    assert ms[k] == Member(path, false, after.files[path]);
    MemberFrom(env, a.entries, encrypted, k);
    var i :| 0 <= i < |a.entries| && WrittenFrom(env, a.entries, i, path, after.files[path]);
    assert Acceptable(env.place, encrypted, a.entries[i]);
  }

  /** The surroundings the service has: the roots of an export, and router.yaml in the configuration directory. */
  ghost predicate Genuine(env: Env, dirs: seq<string>) {
    && dirs != [] && (forall k :: 0 <= k < |dirs| ==> IsDir(dirs[k]))
    && env.configFile == JoinPath(dirs[0], ROUTER_YAML)
    && forall name :: env.place(name) == PlaceOf(RootsOf(dirs), name)
  }

  const ROUTER_YAML := "router.yaml"

  lemma {:induction false} RootsAreDirs(dirs: seq<string>)
    requires forall k :: 0 <= k < |dirs| ==> IsDir(dirs[k])
    ensures "." !in RootsOf(dirs) && forall base :: base in RootsOf(dirs) ==> IsDir(RootsOf(dirs)[base])
  {
    if dirs != [] {
      RootsAreDirs(dirs[..|dirs| - 1]);
      BaseOfSteps(Comps(dirs[|dirs| - 1]));
    }
  }

  /** With the directories of an export as roots, every changed file lies below one of them. */
  lemma EveryWriteIsBelowARoot(env: Env, dirs: seq<string>, a: Archive, encrypted: bool, d: Disk, path: string)
    requires Genuine(env, dirs) && Touched(d, RestoreArchive(env, a, encrypted, d).1, path)
    ensures exists i :: 0 <= i < |a.entries| && LandsBelow(RootsOf(dirs), a.entries[i].name, path)
  {
    EveryWriteIsAWholeMember(env, a, encrypted, d, path);
    var data := RestoreArchive(env, a, encrypted, d).1.files[path];
    var i :| 0 <= i < |a.entries| && WrittenFrom(env, a.entries, i, path, data);
    RootsAreDirs(dirs);
    WrittenBelowItsRoot(RootsOf(dirs), a.entries[i].name);
    assert LandsBelow(RootsOf(dirs), a.entries[i].name, path);
  }

  /** The router.yaml of the configuration directory is as it was after any restore, or it passes validation. */
  lemma RouterYamlStaysOrIsValid(env: Env, dirs: seq<string>, a: Archive, encrypted: bool, d: Disk)
    requires Genuine(env, dirs)
    ensures var path := Rooted(Comps(dirs[0]) + [ROUTER_YAML]);
            var before, after := d.files, RestoreArchive(env, a, encrypted, d).1.files;
            && env.configFile == path
            && (path in before ==> path in after)
            && (path in after ==> (path in before && after[path] == before[path]) || env.valid(after[path]))
  {
    var path, after := Rooted(Comps(dirs[0]) + [ROUTER_YAML]), RestoreArchive(env, a, encrypted, d).1;
    ConfigFilePath(dirs[0]);
    RestoreIsTwoPhase(env, a, encrypted, d);
    InstalledFrom(d, Installed(env, a), path);
    if Touched(d, after, path) {
      EveryWriteIsAWholeMember(env, a, encrypted, d, path);
    }
  }

  lemma ConfigFilePath(dir: string)
    requires IsDir(dir)
    ensures JoinPath(dir, ROUTER_YAML) == Rooted(Comps(dir) + [ROUTER_YAML])
  {
    assert Step(ROUTER_YAML);
    assert Join([ROUTER_YAML], '/') == ROUTER_YAML;
    JoinSteps(Comps(dir), [ROUTER_YAML]);
  }

  /** The path is the root the name starts with, followed by the rest of the name's components. */
  predicate LandsBelow(roots: map<string, string>, name: string, path: string) {
    var cs := Parts(name);
    && Steps(cs) && cs != [] && cs[0] in roots
    && path == Rooted(Comps(roots[cs[0]]) + cs[1..]) && Below(roots[cs[0]], path)
  }

  // ------------------------------------------------------- the content that comes back

  predicate Overwrites(env: Env, e: Entry, path: string) {
    IsFile(env.place, e) && env.place(e.name).target == path
  }

  /** After a restore that went through, a file holds what its last member holds. */
  lemma {:induction false} LastMemberWins(env: Env, es: seq<Entry>, d: Disk, i: nat, path: string)
    requires i < |es| && Overwrites(env, es[i], path)
    requires forall j :: i < j < |es| ==> !Overwrites(env, es[j], path)
    requires forall j :: 0 <= j < |es| && env.place(es[j].name).At? ==> !es[j].kind.Other?
    ensures var files := InstallAll(d, Members(env.place, es)).files; path in files && files[path] == es[i].data
  {
    var front, last := es[..|es| - 1], es[|es| - 1];
    var was, all := Members(env.place, front), Members(env.place, es);
    if i < |front| {
      forall j | i < j < |front| ensures !Overwrites(env, front[j], path) {
        assert front[j] == es[j];
      }
      LastMemberWins(env, front, d, i, path);
      assert !Overwrites(env, last, path);
    }
    if env.place(last.name).At? {
      assert all[..|all| - 1] == was;
    } else {
      assert all == was;
    }
  }

  /** A file exported from a directory comes back with its content, if its member is the last of that path. */
  lemma ExportedFileComesBack(env: Env, dirs: seq<string>, k: nat, cs: seq<string>, a: Archive, i: nat,
                              encrypted: bool, d: Disk)
    requires k < |dirs| && Different(dirs) && Steps(cs)
    requires Genuine(env, dirs) && RestoreArchive(env, a, encrypted, d).0
    requires i < |a.entries| && a.entries[i].kind.Regular? && a.entries[i].name == ExportName(dirs[k], cs)
    requires !HasDots(a.entries[i].name) && a.entries[i].name != KEY_MEMBER && !Shadowed(dirs, k)
    requires forall j :: i < j < |a.entries| ==> !Overwrites(env, a.entries[j], Rooted(Comps(dirs[k]) + cs))
    ensures var path, files := Rooted(Comps(dirs[k]) + cs), RestoreArchive(env, a, encrypted, d).1.files;
            path in files && files[path] == a.entries[i].data
  {
    ExportRestoresExactlyWhen(dirs, k, cs);
    RestoreIsTwoPhase(env, a, encrypted, d);
    AcceptedKinds(env, a.entries, encrypted);
    LastMemberWins(env, a.entries, d, i, Rooted(Comps(dirs[k]) + cs));
  }

  lemma AcceptedKinds(env: Env, es: seq<Entry>, encrypted: bool)
    requires WithinBudget(env.place, encrypted, es)
    ensures forall j :: 0 <= j < |es| && env.place(es[j].name).At? ==> !es[j].kind.Other?
  {
    forall j | 0 <= j < |es| && env.place(es[j].name).At? ensures !es[j].kind.Other? {
      assert Acceptable(env.place, encrypted, es[j]);
    }
  }

  // ------------------------------------------------------- the service

  class ImportBudget {
    var entries: nat
    var total: nat

    constructor ()
      ensures entries == 0 && total == 0
    {
      entries, total := 0, 0;
    }

    method CountEntry() returns (ok: bool)
      modifies this
      ensures entries == old(entries) + 1 && total == old(total) && ok == (entries <= MAX_ENTRIES)
    {
      entries := entries + 1;
      ok := entries <= MAX_ENTRIES;
    }

    method CountBytes(n: nat) returns (ok: bool)
      modifies this
      ensures entries == old(entries) && (ok ==> total == old(total) + n)
      ensures ok == (n <= MAX_ENTRY_BYTES && old(total) + n <= MAX_TOTAL_BYTES)
    {
      if n > MAX_ENTRY_BYTES {
        return false;
      }
      total := total + n;
      ok := total <= MAX_TOTAL_BYTES;
    }
  }

  class BackupService {
    const env: Env
    var files: map<string, string>
    var dirs: set<string>
    var key: Option<string>

    ghost function Abs(): Disk
      reads this
    {
      Disk(files, dirs, key)
    }

    constructor (env: Env, d: Disk)
      ensures this.env == env && Abs() == d
    {
      this.env := env;
      files, dirs, key := d.files, d.dirs, d.key;
    }

    /** stageMember and readArchivedKey for one header; the staged values so far are passed through. */
    method StageEntry(e: Entry, encrypted: bool, budget: ImportBudget, members: seq<Member>, held: Option<string>)
      returns (ok: bool, ms: seq<Member>, k: Option<string>)
      modifies budget
      ensures var r := StageOne(env.place, encrypted, Staging(members, held, old(budget.entries), old(budget.total)), e);
              ok == r.Some? && (ok ==> r.value == Staging(ms, k, budget.entries, budget.total))
    {
      ms, k := members, held;
      ok := budget.CountEntry();
      if !ok {
        return;
      }
      match env.place(e.name)
      case Key =>
        if !encrypted || !e.kind.Regular? || !e.readable {
          return false, ms, k;
        }
        var data := Limited(e.data, MAX_KEY_BYTES + 1);
        ok, k := |data| <= MAX_KEY_BYTES, Some(data);
      case Unsafe =>
        ok := false;
      case Unknown =>
      case At(target) =>
        match e.kind {
          case Directory =>
            ms := ms + [Member(target, true, "")];
          case Regular =>
            if !e.readable {
              return false, ms, k;
            }
            var data := Limited(e.data, MAX_ENTRY_BYTES + 1);
            ok := budget.CountBytes(|data|);
            ms := ms + [Member(target, false, data)];
          case Other =>
            ok := false;
        }
    }

    /** stageArchive: reads every member and writes nothing. */
    method StageArchive(a: Archive, encrypted: bool) returns (ok: bool, ms: seq<Member>, k: Option<string>)
      ensures ok <==> !a.torn && WithinBudget(env.place, encrypted, a.entries)
      ensures ok ==> ms == Members(env.place, a.entries) && k == LastKey(env.place, a.entries)
    {
      var budget := new ImportBudget();
      ms, k := [], None;
      for i := 0 to |a.entries|
        invariant StageAll(env.place, encrypted, a.entries[..i]) == Some(Staging(ms, k, budget.entries, budget.total))
        invariant fresh(budget)
      {
        assert a.entries[..i + 1][..i] == a.entries[..i];
        ok, ms, k := StageEntry(a.entries[i], encrypted, budget, ms, k);
        if !ok {
          RejectedPrefix(env.place, encrypted, a.entries, i + 1);
          StagedExactlyWhen(env.place, encrypted, a.entries);
          return;
        }
      }
      assert a.entries[..|a.entries|] == a.entries;
      StagedExactlyWhen(env.place, encrypted, a.entries);
      ok := !a.torn;
    }

    /** validateStagedConfig. */
    method ValidateStagedConfig(ms: seq<Member>) returns (ok: bool)
      ensures ok == ConfigPasses(env, ms)
    {
      for i := 0 to |ms|
        invariant ConfigPasses(env, ms[..i])
      {
        if !ms[i].isDir && ms[i].target == env.configFile && !env.valid(ms[i].data) {
          return false;
        }
      }
      assert ms[..|ms|] == ms;
      ok := true;
    }

    method InstallMember(m: Member)
      modifies this
      ensures Abs() == Install(old(Abs()), m)
    {
      if m.isDir {
        dirs := dirs + {m.target};
      } else {
        files := files[m.target := m.data];
      }
    }

    /** restoreArchive; the write numbered env.writes is the first to fail. */
    method Import(a: Archive, encrypted: bool) returns (ok: bool)
      modifies this
      ensures (ok, Abs()) == RestoreArchive(env, a, encrypted, old(Abs()))
    {
      ghost var d := Abs();
      StagedExactlyWhen(env.place, encrypted, a.entries);
      var ms, k;
      ok, ms, k := StageArchive(a, encrypted);
      if !ok {
        return;
      }
      ok := ValidateStagedConfig(ms);
      if !ok {
        return;
      }
      for i := 0 to |ms|
        invariant i <= env.writes && Abs() == InstallAll(d, ms[..i])
      {
        if i == env.writes {
          return false;
        }
        assert ms[..i + 1][..i] == ms[..i];
        InstallMember(ms[i]);
      }
      assert ms[..|ms|] == ms;
      if k.Some? {
        if !env.keyFits(k.value) {
          return false;
        }
        key := k;
      }
    }
  }

  /** A rejected prefix rejects the archive. */
  lemma {:induction false} RejectedPrefix(place: Placing, encrypted: bool, es: seq<Entry>, k: nat)
    requires k <= |es| && StageAll(place, encrypted, es[..k]).None?
    ensures StageAll(place, encrypted, es).None?
  {
    if k < |es| {
      assert es[..|es| - 1][..k] == es[..k];
      RejectedPrefix(place, encrypted, es[..|es| - 1], k);
    } else {
      assert es[..k] == es;
    }
  }
}
