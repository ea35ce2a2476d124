/**
 Encryption at rest of the secrets in the configuration: what a save writes, what a load gives back,
 and what either leaves alone. The cipher and the key file are the surroundings.
 */
module Secrets {
  import opened Core

  // ------------------------------------------------------- the configuration and its secrets

  /** The two secrets of a backup target, of a server peer or of a client tunnel. */
  datatype Credentials = Credentials(name: string, primary: string, secondary: string)

  datatype Value = Value(
    passphrase: string, serverKey: string, sessionSecret: string, apiToken: string,
    targets: seq<Credentials>, peers: seq<Credentials>, clients: seq<Credentials>, rest: string)

  datatype Single = Passphrase | ServerKey | SessionSecret | ApiToken

  datatype List = Targets | Peers | Clients

  /** A pointer to one secret. */
  datatype Field = Alone(single: Single) | Primary(list: List, index: nat) | Secondary(list: List, index: nat)

  function ListOf(v: Value, l: List): seq<Credentials> {
    match l
    case Targets => v.targets
    case Peers => v.peers
    case Clients => v.clients
  }

  function WithList(v: Value, l: List, s: seq<Credentials>): Value {
    match l
    case Targets => v.(targets := s)
    case Peers => v.(peers := s)
    case Clients => v.(clients := s)
  }

  predicate Points(v: Value, f: Field) {
    f.Alone? || f.index < |ListOf(v, f.list)|
  }

  function Get(v: Value, f: Field): string
    requires Points(v, f)
  {
    match f
    case Alone(Passphrase) => v.passphrase
    case Alone(ServerKey) => v.serverKey
    case Alone(SessionSecret) => v.sessionSecret
    case Alone(ApiToken) => v.apiToken
    case Primary(l, i) => ListOf(v, l)[i].primary
    case Secondary(l, i) => ListOf(v, l)[i].secondary
  }

  function Set(v: Value, f: Field, s: string): Value
    requires Points(v, f)
  {
    match f
    case Alone(Passphrase) => v.(passphrase := s)
    case Alone(ServerKey) => v.(serverKey := s)
    case Alone(SessionSecret) => v.(sessionSecret := s)
    case Alone(ApiToken) => v.(apiToken := s)
    case Primary(l, i) => WithList(v, l, ListOf(v, l)[i := ListOf(v, l)[i].(primary := s)])
    case Secondary(l, i) => WithList(v, l, ListOf(v, l)[i := ListOf(v, l)[i].(secondary := s)])
  }

  predicate SameNames(a: seq<Credentials>, b: seq<Credentials>) {
    |a| == |b| && forall i :: 0 <= i < |a| ==> a[i].name == b[i].name
  }

  /** Everything but the secrets is the same. */
  predicate SameShape(v: Value, w: Value) {
    && v.rest == w.rest
    && SameNames(v.targets, w.targets) && SameNames(v.peers, w.peers) && SameNames(v.clients, w.clients)
  }

  lemma SetAloneIsLocal(v: Value, single: Single, s: string, g: Field)
    requires Points(v, g)
    ensures var w := Set(v, Alone(single), s);
            SameShape(v, w) && Points(w, g) && Get(w, g) == if g == Alone(single) then s else Get(v, g)
  {
  }

  lemma SetInList(v: Value, f: Field, s: string, l: List)
    requires Points(v, f) && !f.Alone?
    ensures SameShape(v, Set(v, f, s))
    ensures l != f.list ==> ListOf(Set(v, f, s), l) == ListOf(v, l)
    ensures var c := ListOf(v, f.list)[f.index];
            ListOf(Set(v, f, s), f.list) ==
            ListOf(v, f.list)[f.index := if f.Primary? then c.(primary := s) else c.(secondary := s)]
  {
  }

  lemma SetIsLocal(v: Value, f: Field, s: string, g: Field)
    requires Points(v, f) && Points(v, g)
    ensures SameShape(v, Set(v, f, s)) && Points(Set(v, f, s), g)
    ensures Get(Set(v, f, s), g) == if f == g then s else Get(v, g)
  {
    if f.Alone? {
      SetAloneIsLocal(v, f.single, s, g);
    } else if g.Alone? {
      SetInList(v, f, s, f.list);
    } else {
      SetInList(v, f, s, g.list);
    }
  }

  /** A configuration is its shape and its secrets. */
  lemma SecretsDetermine(v: Value, w: Value)
    requires SameShape(v, w) && forall f :: Points(v, f) ==> Points(w, f) && Get(v, f) == Get(w, f)
    ensures v == w
  {
    assert Get(v, Alone(Passphrase)) == Get(w, Alone(Passphrase));
    assert Get(v, Alone(ServerKey)) == Get(w, Alone(ServerKey));
    assert Get(v, Alone(SessionSecret)) == Get(w, Alone(SessionSecret));
    assert Get(v, Alone(ApiToken)) == Get(w, Alone(ApiToken));
    ListsDetermine(v, w, Targets);
    ListsDetermine(v, w, Peers);
    ListsDetermine(v, w, Clients);
  }

  lemma ListsDetermine(v: Value, w: Value, l: List)
    requires SameShape(v, w) && forall f :: Points(v, f) ==> Points(w, f) && Get(v, f) == Get(w, f)
    ensures ListOf(v, l) == ListOf(w, l)
  {
    forall i: nat | i < |ListOf(v, l)| ensures ListOf(v, l)[i] == ListOf(w, l)[i] {
      assert Points(v, Primary(l, i)) && Points(v, Secondary(l, i));
    }
  }

  // ------------------------------------------------------- the two hand-written field lists

  function Both(l: List, n: nat): seq<Field> {
    if n == 0 then [] else Both(l, n - 1) + [Primary(l, n - 1), Secondary(l, n - 1)]
  }

  function Primaries(l: List, n: nat): seq<Field> {
    if n == 0 then [] else Primaries(l, n - 1) + [Primary(l, n - 1)]
  }

  function Secondaries(l: List, n: nat): seq<Field> {
    if n == 0 then [] else Secondaries(l, n - 1) + [Secondary(l, n - 1)]
  }

  const SINGLES := [Alone(Passphrase), Alone(ServerKey), Alone(SessionSecret), Alone(ApiToken)]

  /** secretFields. */
  function SecretFields(v: Value): seq<Field> {
    SINGLES + Both(Targets, |v.targets|) + Both(Peers, |v.peers|) + Both(Clients, |v.clients|)
  }

  function BackupOrder(v: Value): seq<Field> {
    [Alone(Passphrase)] + Both(Targets, |v.targets|)
  }

  /** The server key, the peers' private keys, then decryptVPNPeerSecrets. */
  function VpnOrder(v: Value): seq<Field> {
    [Alone(ServerKey)] + Primaries(Peers, |v.peers|) + Secondaries(Peers, |v.peers|) + Both(Clients, |v.clients|)
  }

  const SYSTEM_ORDER := [Alone(SessionSecret), Alone(ApiToken)]

  /** The order in which decryptSecretsInPlace writes. */
  function DecryptOrder(v: Value): seq<Field> {
    BackupOrder(v) + VpnOrder(v) + SYSTEM_ORDER
  }

  /** How often a field is in a list. */
  function Count(fs: seq<Field>, f: Field): nat {
    if fs == [] then 0 else Count(fs[..|fs| - 1], f) + (if fs[|fs| - 1] == f then 1 else 0)
  }

  lemma {:induction false} CountOfSum(a: seq<Field>, b: seq<Field>, f: Field)
    ensures Count(a + b, f) == Count(a, f) + Count(b, f)
  {
    if b == [] {
      assert a + b == a;
    } else {
      assert (a + b)[..|a + b| - 1] == a + b[..|b| - 1];
      CountOfSum(a, b[..|b| - 1], f);
    }
  }

  lemma {:induction false} CountIsMembership(fs: seq<Field>, f: Field)
    ensures Count(fs, f) > 0 <==> f in fs
  {
    if fs != [] {
      CountIsMembership(fs[..|fs| - 1], f);
      assert fs == fs[..|fs| - 1] + [fs[|fs| - 1]];
    }
  }

  /** The list names every secret field of the configuration once, and nothing else. */
  ghost predicate Complete(v: Value, fs: seq<Field>) {
    forall f :: Count(fs, f) == if Points(v, f) then 1 else 0
  }

  lemma CompleteIsMembership(v: Value, fs: seq<Field>)
    requires Complete(v, fs)
    ensures forall f :: f in fs <==> Points(v, f)
  {
    forall f ensures f in fs <==> Points(v, f) {
      CountIsMembership(fs, f);
    }
  }

  lemma {:induction false} CountBoth(l: List, n: nat, f: Field)
    ensures Count(Both(l, n), f) == if !f.Alone? && f.list == l && f.index < n then 1 else 0
  {
    if n > 0 {
      CountBoth(l, n - 1, f);
      CountOfSum(Both(l, n - 1), [Primary(l, n - 1), Secondary(l, n - 1)], f);
      CountPair(Primary(l, n - 1), Secondary(l, n - 1), f);
    }
  }

  lemma CountOne(a: Field, f: Field)
    ensures Count([a], f) == if a == f then 1 else 0
  {
    assert [a][..0] == [];
  }

  lemma CountPair(a: Field, b: Field, f: Field)
    ensures Count([a, b], f) == (if a == f then 1 else 0) + (if b == f then 1 else 0)
  {
    CountOne(a, f);
    assert [a, b][..1] == [a];
  }

  lemma {:induction false} CountHalves(l: List, n: nat, f: Field)
    ensures Count(Primaries(l, n), f) == if f.Primary? && f.list == l && f.index < n then 1 else 0
    ensures Count(Secondaries(l, n), f) == if f.Secondary? && f.list == l && f.index < n then 1 else 0
  {
    if n > 0 {
      CountHalves(l, n - 1, f);
      CountOfSum(Primaries(l, n - 1), [Primary(l, n - 1)], f);
      CountOfSum(Secondaries(l, n - 1), [Secondary(l, n - 1)], f);
    }
  }

  lemma SecretFieldsAreComplete(v: Value)
    ensures Complete(v, SecretFields(v))
  {
    forall f ensures Count(SecretFields(v), f) == if Points(v, f) then 1 else 0 {
      CountSecretFields(v, f);
    }
  }

  lemma CountSingles(f: Field)
    ensures Count(SINGLES, f) == if f.Alone? then 1 else 0
  {
    var a, b := [Alone(Passphrase), Alone(ServerKey)], [Alone(SessionSecret), Alone(ApiToken)];
    assert SINGLES == a + b;
    CountPair(a[0], a[1], f);
    CountPair(b[0], b[1], f);
    CountOfSum(a, b, f);
    if f.Alone? {
      match f.single
      case Passphrase =>
      case ServerKey =>
      case SessionSecret =>
      case ApiToken =>
    }
  }

  lemma CountSecretFields(v: Value, f: Field)
    ensures Count(SecretFields(v), f) == if Points(v, f) then 1 else 0
  {
    var t, p, c := Both(Targets, |v.targets|), Both(Peers, |v.peers|), Both(Clients, |v.clients|);
    CountSingles(f);
    CountBoth(Targets, |v.targets|, f);
    CountBoth(Peers, |v.peers|, f);
    CountBoth(Clients, |v.clients|, f);
    CountOfSum(SINGLES, t, f);
    CountOfSum(SINGLES + t, p, f);
    CountOfSum(SINGLES + t + p, c, f);
    assert !f.Alone? ==> f.list == Targets || f.list == Peers || f.list == Clients;
  }

  lemma DecryptOrderIsComplete(v: Value)
    ensures Complete(v, DecryptOrder(v))
  {
    forall f ensures Count(DecryptOrder(v), f) == if Points(v, f) then 1 else 0 {
      CountDecryptOrder(v, f);
    }
  }

  lemma CountBackupOrder(v: Value, f: Field)
    ensures Count(BackupOrder(v), f) ==
            if f == Alone(Passphrase) || (!f.Alone? && f.list == Targets && Points(v, f)) then 1 else 0
  {
    CountOne(Alone(Passphrase), f);
    CountBoth(Targets, |v.targets|, f);
    CountOfSum([Alone(Passphrase)], Both(Targets, |v.targets|), f);
  }

  lemma CountVpnOrder(v: Value, f: Field)
    ensures Count(VpnOrder(v), f) ==
            if f == Alone(ServerKey) || (!f.Alone? && f.list != Targets && Points(v, f)) then 1 else 0
  {
    var d, c := [Alone(ServerKey)], Both(Clients, |v.clients|);
    var p, s := Primaries(Peers, |v.peers|), Secondaries(Peers, |v.peers|);
    CountOne(Alone(ServerKey), f);
    CountBoth(Clients, |v.clients|, f);
    CountHalves(Peers, |v.peers|, f);
    CountOfSum(d, p, f);
    CountOfSum(d + p, s, f);
    CountOfSum(d + p + s, c, f);
    assert !f.Alone? ==> f.list == Targets || f.list == Peers || f.list == Clients;
  }

  lemma CountDecryptOrder(v: Value, f: Field)
    ensures Count(DecryptOrder(v), f) == if Points(v, f) then 1 else 0
  {
    CountBackupOrder(v, f);
    CountVpnOrder(v, f);
    CountPair(Alone(SessionSecret), Alone(ApiToken), f);
    CountOfSum(BackupOrder(v), VpnOrder(v), f);
    CountOfSum(BackupOrder(v) + VpnOrder(v), SYSTEM_ORDER, f);
    if f.Alone? {
      match f.single
      case Passphrase =>
      case ServerKey =>
      case SessionSecret =>
      case ApiToken =>
    }
  }

  /** The list encryption works from and the order decryption writes in name the same fields, each once. */
  lemma FieldListsCoincide(v: Value, f: Field)
    ensures Count(SecretFields(v), f) == Count(DecryptOrder(v), f) == if Points(v, f) then 1 else 0
  {
    CountSecretFields(v, f);
    CountDecryptOrder(v, f);
  }

  // ------------------------------------------------------- rewriting fields one by one

  type Rewrite = (Field, string) -> string

  function Rewritten(v: Value, fs: seq<Field>, g: Rewrite): (w: Value)
    requires forall f :: f in fs ==> Points(v, f)
    ensures |w.targets| == |v.targets| && |w.peers| == |v.peers| && |w.clients| == |v.clients|
  {
    if fs == [] then v
    else
      var w := Rewritten(v, fs[..|fs| - 1], g);
      var f := fs[|fs| - 1];
      assert f in fs && Points(v, f);
      Set(w, f, g(f, Get(w, f)))
  }

  lemma {:induction false} RewrittenKeepsShape(v: Value, fs: seq<Field>, g: Rewrite)
    requires forall f :: f in fs ==> Points(v, f)
    ensures SameShape(v, Rewritten(v, fs, g))
  {
    if fs != [] {
      var front, last := fs[..|fs| - 1], fs[|fs| - 1];
      assert last in fs && Points(v, last);
      RewrittenKeepsShape(v, front, g);
      var w := Rewritten(v, front, g);
      SetIsLocal(w, last, g(last, Get(w, last)), last);
    }
  }

  /** A list that names no field twice rewrites each of its fields once. */
  lemma {:induction false} RewrittenIsPointwise(v: Value, fs: seq<Field>, g: Rewrite, f: Field)
    requires (forall h :: h in fs ==> Points(v, h)) && Points(v, f) && Count(fs, f) <= 1
    ensures Points(Rewritten(v, fs, g), f)
    ensures Get(Rewritten(v, fs, g), f) == if Count(fs, f) == 1 then g(f, Get(v, f)) else Get(v, f)
  {
    if fs != [] {
      var front, last := fs[..|fs| - 1], fs[|fs| - 1];
      assert last in fs;
      RewrittenIsPointwise(v, front, g, f);
      var w := Rewritten(v, front, g);
      SetIsLocal(w, last, g(last, Get(w, last)), f);
    }
  }

  /** Over a complete list the order does not matter. */
  lemma OrderDoesNotMatter(v: Value, a: seq<Field>, b: seq<Field>, g: Rewrite)
    requires Complete(v, a) && Complete(v, b)
    requires forall f :: f in a || f in b ==> Points(v, f)
    ensures Rewritten(v, a, g) == Rewritten(v, b, g)
  {
    var x, y := Rewritten(v, a, g), Rewritten(v, b, g);
    forall f | Points(x, f) ensures Points(y, f) && Get(x, f) == Get(y, f) {
      RewrittenIsPointwise(v, a, g, f);
      RewrittenIsPointwise(v, b, g, f);
    }
    RewrittenKeepsShape(v, a, g);
    RewrittenKeepsShape(v, b, g);
    SecretsDetermine(x, y);
  }

  // ------------------------------------------------------- the cipher and the key file

  /** Encryption takes a nonce; the text is what base64 makes of the ciphertext. */
  datatype Cipher = Cipher(seal: (int, int, string) -> string, open: (int, string) -> Option<string>)

  /** Opening undoes sealing, and what is opened is shorter than the text it came from. */
  ghost predicate Sealing(c: Cipher) {
    && (forall key, nonce, s :: c.open(key, c.seal(key, nonce, s)) == Some(s))
    && (forall key, text :: c.open(key, text).Some? ==> |c.open(key, text).value| < |text|)
  }

  datatype KeyFile = Missing | Present(key: int) | Broken

  const SECRET_PREFIX := "enc:v1:"

  predicate IsEncrypted(s: string) {
    SECRET_PREFIX <= s
  }

  function EncryptSecret(c: Cipher, key: int, nonce: int, s: string): (r: string)
    ensures s == "" <==> r == ""
    ensures r != "" ==> IsEncrypted(r)
  {
    if s == "" || IsEncrypted(s) then s else SECRET_PREFIX + c.seal(key, nonce, s)
  }

  /** decryptInPlace: a value that cannot be opened is cleared. */
  function DecryptSecret(c: Cipher, key: int, s: string): string {
    if !IsEncrypted(s) then s
    else
      var p := c.open(key, s[|SECRET_PREFIX|..]);
      if p.None? then "" else p.value
  }

  /** Saving and loading one secret gives it back exactly when it does not look like ciphertext. */
  lemma SecretComesBackExactlyWhen(c: Cipher, key: int, nonce: int, s: string)
    requires Sealing(c)
    ensures DecryptSecret(c, key, EncryptSecret(c, key, nonce, s)) == s <==> !IsEncrypted(s)
  {
    var e := EncryptSecret(c, key, nonce, s);
    if s != "" && !IsEncrypted(s) {
      assert e[|SECRET_PREFIX|..] == c.seal(key, nonce, s);
    }
  }

  // ------------------------------------------------------- save and load

  /** A nonce for each field; and the key that is generated if there is none yet. */
  datatype Chance = Chance(nonce: Field -> int, newKey: int)

  predicate HasSecrets(v: Value) {
    exists i :: 0 <= i < |SecretFields(v)| && SecretAt(v, i) != ""
  }

  predicate HasEncryptedSecrets(v: Value) {
    exists i :: 0 <= i < |SecretFields(v)| && IsEncrypted(SecretAt(v, i))
  }

  function SecretAt(v: Value, i: nat): string
    requires i < |SecretFields(v)|
  {
    SecretFieldsPoint(v);
    Get(v, SecretFields(v)[i])
  }

  function Encrypting(c: Cipher, key: int, chance: Chance): Rewrite {
    (f, s) => EncryptSecret(c, key, chance.nonce(f), s)
  }

  function Decrypting(c: Cipher, key: int): Rewrite {
    (f, s) => DecryptSecret(c, key, s)
  }

  function Clearing(): Rewrite {
    (f, s) => if IsEncrypted(s) then "" else s
  }

  function SecretsRewritten(v: Value, g: Rewrite): Value {
    SecretFieldsPoint(v);
    Rewritten(v, SecretFields(v), g)
  }

  /** What is written, or none when the key file cannot be read; and the key file afterwards. */
  function Save(c: Cipher, file: KeyFile, chance: Chance, v: Value): (Option<Value>, KeyFile) {
    if !HasSecrets(v) then (Some(v), file)
    else if file.Broken? then (None, file)
    else
      var key := SaveKey(file, chance);
      (Some(SecretsRewritten(v, Encrypting(c, key, chance))), Present(key))
  }

  function Load(c: Cipher, file: KeyFile, v: Value): Value {
    if !HasEncryptedSecrets(v) then v
    else if !file.Present? then SecretsRewritten(v, Clearing())
    else
      DecryptOrderPoints(v);
      Rewritten(v, DecryptOrder(v), Decrypting(c, file.key))
  }

  lemma SecretFieldsPoint(v: Value)
    ensures forall i :: 0 <= i < |SecretFields(v)| ==> Points(v, SecretFields(v)[i])
  {
    SecretFieldsAreComplete(v);
    CompleteIsMembership(v, SecretFields(v));
  }

  lemma DecryptOrderPoints(v: Value)
    ensures forall i :: 0 <= i < |DecryptOrder(v)| ==> Points(v, DecryptOrder(v)[i])
  {
    DecryptOrderIsComplete(v);
    CompleteIsMembership(v, DecryptOrder(v));
  }

  lemma FieldIsAt(v: Value, f: Field)
    requires Points(v, f)
    ensures exists i :: 0 <= i < |SecretFields(v)| && SecretFields(v)[i] == f && SecretAt(v, i) == Get(v, f)
  {
    SecretFieldsAreComplete(v);
    CompleteIsMembership(v, SecretFields(v));
    var i :| 0 <= i < |SecretFields(v)| && SecretFields(v)[i] == f;
    assert SecretAt(v, i) == Get(v, f);
  }

  lemma SecretsRewrittenAt(v: Value, g: Rewrite, f: Field)
    requires Points(v, f)
    ensures SameShape(v, SecretsRewritten(v, g)) && Points(SecretsRewritten(v, g), f)
    ensures Get(SecretsRewritten(v, g), f) == g(f, Get(v, f))
  {
    CountSecretFields(v, f);
    SecretFieldsPoint(v);
    RewrittenIsPointwise(v, SecretFields(v), g, f);
    RewrittenKeepsShape(v, SecretFields(v), g);
  }

  /** Loading decrypts every field, or clears exactly the ones that hold ciphertext when there is no key. */
  lemma LoadAt(c: Cipher, file: KeyFile, v: Value, f: Field)
    requires Points(v, f)
    ensures SameShape(v, Load(c, file, v)) && Points(Load(c, file, v), f)
    ensures file.Present? ==> Get(Load(c, file, v), f) == DecryptSecret(c, file.key, Get(v, f))
    ensures !file.Present? ==> Get(Load(c, file, v), f) == if IsEncrypted(Get(v, f)) then "" else Get(v, f)
  {
    if !HasEncryptedSecrets(v) {
      FieldIsAt(v, f);
    } else if !file.Present? {
      SecretsRewrittenAt(v, Clearing(), f);
    } else {
      CountDecryptOrder(v, f);
      DecryptOrderPoints(v);
      RewrittenIsPointwise(v, DecryptOrder(v), Decrypting(c, file.key), f);
      RewrittenKeepsShape(v, DecryptOrder(v), Decrypting(c, file.key));
    }
  }

  /** The text a sealed secret is written as. */
  function SealedText(c: Cipher, key: int, chance: Chance, f: Field, s: string): string {
    SECRET_PREFIX + c.seal(key, chance.nonce(f), s)
  }

  /** A sealed text is never the secret it was made from. */
  lemma SealedDiffers(c: Cipher, key: int, chance: Chance, f: Field, s: string)
    requires Sealing(c)
    ensures SealedText(c, key, chance, f, s) != s
  {
    var nonce := chance.nonce(f);
    var text := c.seal(key, nonce, s);
    assert c.open(key, text) == Some(s);
    assert |s| < |text|;
  }

  /** The key a save encrypts with. */
  function SaveKey(file: KeyFile, chance: Chance): int {
    if file.Present? then file.key else chance.newKey
  }

  /** A secret is written sealed exactly when it is neither empty nor marked; otherwise it is written as it is. */
  lemma WrittenAt(c: Cipher, file: KeyFile, chance: Chance, v: Value, f: Field)
    requires Sealing(c) && Points(v, f) && Save(c, file, chance, v).0.Some?
    ensures var w, plain := Save(c, file, chance, v).0.value, Get(v, f);
            var sealed := SealedText(c, SaveKey(file, chance), chance, f, plain);
            && SameShape(v, w) && Points(w, f)
            && (Get(w, f) == sealed <==> plain != "" && Unmarked(v, f))
            && (plain == "" || !Unmarked(v, f) ==> Get(w, f) == plain)
            && (plain != "" ==> Save(c, file, chance, v).1 == Present(SaveKey(file, chance)))
  {
    var key := SaveKey(file, chance);
    SealedDiffers(c, key, chance, f, Get(v, f));
    if !HasSecrets(v) {
      FieldIsAt(v, f);
    } else {
      SecretsRewrittenAt(v, Encrypting(c, key, chance), f);
      assert Encrypting(c, key, chance)(f, Get(v, f)) == EncryptSecret(c, key, chance.nonce(f), Get(v, f));
    }
  }

  /** Every secret of the written copy is empty or the sealing of the live one. */
  ghost predicate NoneInTheClear(c: Cipher, key: int, chance: Chance, v: Value, w: Value)
    requires SameShape(v, w)
  {
    forall f :: Points(v, f) ==> Hidden(c, key, chance, v, w, f)
  }

  predicate Hidden(c: Cipher, key: int, chance: Chance, v: Value, w: Value, f: Field)
    requires Points(v, f) && SameShape(v, w)
  {
    Points(w, f) && (Get(v, f) == Get(w, f) == "" || Get(w, f) == SealedText(c, key, chance, f, Get(v, f)))
  }

  /** No secret is written in the clear exactly when none of them starts with the marker. */
  lemma NothingIsWrittenInTheClearExactlyWhen(c: Cipher, file: KeyFile, chance: Chance, v: Value)
    requires Sealing(c) && Save(c, file, chance, v).0.Some?
    ensures var w := Save(c, file, chance, v).0.value;
            SameShape(v, w)
            && (NoneInTheClear(c, SaveKey(file, chance), chance, v, w) <==> forall f :: Points(v, f) ==> Unmarked(v, f))
  {
    var w := Save(c, file, chance, v).0.value;
    WrittenAt(c, file, chance, v, Alone(Passphrase));
    forall f | Points(v, f) ensures Hidden(c, SaveKey(file, chance), chance, v, w, f) <==> Unmarked(v, f) {
      WrittenAt(c, file, chance, v, f);
    }
  }

  /** A passphrase that happens to start with the marker goes to disk as it is. */
  lemma MarkedPassphraseIsWrittenInTheClear(c: Cipher, file: KeyFile, chance: Chance, v: Value)
    requires Sealing(c) && v.passphrase == "enc:v1:correct horse" && !file.Broken?
    ensures var w := Save(c, file, chance, v).0; w.Some? && w.value.passphrase == v.passphrase
  {
    FieldIsAt(v, Alone(Passphrase));
    assert Save(c, file, chance, v).0.Some?;
    assert IsEncrypted(v.passphrase);
    WrittenAt(c, file, chance, v, Alone(Passphrase));
    assert Get(v, Alone(Passphrase)) == v.passphrase;
  }

  predicate Unmarked(v: Value, f: Field)
    requires Points(v, f)
  {
    !IsEncrypted(Get(v, f))
  }

  function Reloaded(c: Cipher, file: KeyFile, chance: Chance, v: Value): Value
    requires Save(c, file, chance, v).0.Some?
  {
    Load(c, Save(c, file, chance, v).1, Save(c, file, chance, v).0.value)
  }

  lemma ReloadedAt(c: Cipher, file: KeyFile, chance: Chance, v: Value, f: Field)
    requires Sealing(c) && Points(v, f) && Save(c, file, chance, v).0.Some?
    ensures SameShape(v, Reloaded(c, file, chance, v)) && Points(Reloaded(c, file, chance, v), f)
    ensures Get(Reloaded(c, file, chance, v), f) == Get(v, f) <==> Unmarked(v, f)
  {
    var w, after := Save(c, file, chance, v).0.value, Save(c, file, chance, v).1;
    if !HasSecrets(v) {
      FieldIsAt(v, f);
      LoadAt(c, file, v, f);
    } else {
      SecretsRewrittenAt(v, Encrypting(c, after.key, chance), f);
      LoadAt(c, after, w, f);
      SecretComesBackExactlyWhen(c, after.key, chance.nonce(f), Get(v, f));
    }
  }

  /** Saving and loading gives the configuration back exactly when no secret starts with the marker. */
  lemma SaveThenLoadExactlyWhen(c: Cipher, file: KeyFile, chance: Chance, v: Value)
    requires Sealing(c) && Save(c, file, chance, v).0.Some?
    ensures Reloaded(c, file, chance, v) == v <==> forall f :: Points(v, f) ==> Unmarked(v, f)
  {
    var r := Reloaded(c, file, chance, v);
    forall f | Points(v, f)
      ensures SameShape(v, r) && Points(r, f) && (Get(r, f) == Get(v, f) <==> Unmarked(v, f))
    {
      ReloadedAt(c, file, chance, v, f);
    }
    assert Points(v, Alone(Passphrase));
    if forall f :: Points(v, f) ==> Unmarked(v, f) {
      SecretsDetermine(v, r);
    }
  }

  ghost predicate SomeSecret(v: Value) {
    exists f :: Points(v, f) && Get(v, f) != ""
  }

  lemma SomeSecretIsFound(v: Value)
    ensures HasSecrets(v) <==> SomeSecret(v)
    ensures !SomeSecret(v) ==> !HasEncryptedSecrets(v)
  {
    SecretFieldsPoint(v);
    forall i | 0 <= i < |SecretFields(v)| ensures SecretAt(v, i) != "" ==> SomeSecret(v) {
      assert Points(v, SecretFields(v)[i]);
    }
    if f :| Points(v, f) && Get(v, f) != "" {
      FieldIsAt(v, f);
    }
  }

  /**
   A save fails exactly when there is a secret and the key file cannot be read. A key that is there is
   kept, and one is made exactly when there is a secret and no key file.
   */
  lemma SaveFailsExactlyWhen(c: Cipher, file: KeyFile, chance: Chance, v: Value)
    ensures Save(c, file, chance, v).0.None? <==> file.Broken? && SomeSecret(v)
    ensures Save(c, file, chance, v).1 == if file.Missing? && SomeSecret(v) then Present(chance.newKey) else file
  {
    SomeSecretIsFound(v);
  }

  /** What was saved once still loads after any later save: there is only ever one key. */
  lemma EarlierSaveStillLoads(c: Cipher, file: KeyFile, chance: Chance, v: Value, later: Chance, next: Value)
    requires Sealing(c) && Save(c, file, chance, v).0.Some?
    requires forall f :: Points(v, f) ==> Unmarked(v, f)
    ensures var (saved, key) := Save(c, file, chance, v); Load(c, Save(c, key, later, next).1, saved.value) == v
  {
    SaveFailsExactlyWhen(c, file, chance, v);
    SaveFailsExactlyWhen(c, Save(c, file, chance, v).1, later, next);
    SomeSecretIsFound(v);
    if SomeSecret(v) {
      SaveThenLoadExactlyWhen(c, file, chance, v);
    }
  }

  // ------------------------------------------------------- in memory

  /** The live configuration; the lists are arrays, shared by a shallow copy. */
  class Config {
    var passphrase: string
    var serverKey: string
    var sessionSecret: string
    var apiToken: string
    var targets: array<Credentials>
    var peers: array<Credentials>
    var clients: array<Credentials>
    var rest: string

    ghost predicate Valid()
      reads this
    {
      targets != peers && targets != clients && peers != clients
    }

    ghost function Abs(): Value
      reads this, targets, peers, clients
    {
      Value(passphrase, serverKey, sessionSecret, apiToken, targets[..], peers[..], clients[..], rest)
    }

    constructor (v: Value)
      ensures Valid() && Abs() == v && fresh(targets) && fresh(peers) && fresh(clients)
    {
      passphrase, serverKey, sessionSecret, apiToken := v.passphrase, v.serverKey, v.sessionSecret, v.apiToken;
      rest := v.rest;
      targets := new Credentials[|v.targets|](i requires 0 <= i < |v.targets| => v.targets[i]);
      peers := new Credentials[|v.peers|](i requires 0 <= i < |v.peers| => v.peers[i]);
      clients := new Credentials[|v.clients|](i requires 0 <= i < |v.clients| => v.clients[i]);
    }

    method Read(f: Field) returns (s: string)
      requires Valid() && Points(Abs(), f)
      ensures s == Get(Abs(), f)
    {
      match f
      case Alone(Passphrase) => s := passphrase;
      case Alone(ServerKey) => s := serverKey;
      case Alone(SessionSecret) => s := sessionSecret;
      case Alone(ApiToken) => s := apiToken;
      case Primary(Targets, i) => s := targets[i].primary;
      case Primary(Peers, i) => s := peers[i].primary;
      case Primary(Clients, i) => s := clients[i].primary;
      case Secondary(Targets, i) => s := targets[i].secondary;
      case Secondary(Peers, i) => s := peers[i].secondary;
      case Secondary(Clients, i) => s := clients[i].secondary;
    }

    method Write(f: Field, s: string)
      requires Valid() && Points(Abs(), f)
      modifies this`passphrase, this`serverKey, this`sessionSecret, this`apiToken, targets, peers, clients
      ensures Valid() && Abs() == Set(old(Abs()), f, s)
    {
      match f
      case Alone(Passphrase) => passphrase := s;
      case Alone(ServerKey) => serverKey := s;
      case Alone(SessionSecret) => sessionSecret := s;
      case Alone(ApiToken) => apiToken := s;
      case Primary(Targets, i) => targets[i] := targets[i].(primary := s);
      case Primary(Peers, i) => peers[i] := peers[i].(primary := s);
      case Primary(Clients, i) => clients[i] := clients[i].(primary := s);
      case Secondary(Targets, i) => targets[i] := targets[i].(secondary := s);
      case Secondary(Peers, i) => peers[i] := peers[i].(secondary := s);
      case Secondary(Clients, i) => clients[i] := clients[i].(secondary := s);
    }

    method Rewrite(f: Field, g: Rewrite)
      requires Valid() && Points(Abs(), f)
      modifies this`passphrase, this`serverKey, this`sessionSecret, this`apiToken, targets, peers, clients
      ensures Valid() && Abs() == Rewritten(old(Abs()), [f], g)
    {
      var s := Read(f);
      Write(f, g(f, s));
      RewrittenOne(old(Abs()), f, g);
    }

    /** The loop over secretFields, as encryption and clearing run it. */
    method RewriteAll(fs: seq<Field>, g: Rewrite)
      requires Valid() && forall f :: f in fs ==> Points(Abs(), f)
      modifies this`passphrase, this`serverKey, this`sessionSecret, this`apiToken, targets, peers, clients
      ensures Valid() && Abs() == Rewritten(old(Abs()), fs, g)
    {
      ghost var v := Abs();
      for k := 0 to |fs|
        invariant Valid() && Abs() == Rewritten(v, fs[..k], g)
      {
        assert fs[..k + 1] == fs[..k] + [fs[k]];
        RewrittenTwice(v, fs[..k], [fs[k]], g);
        Rewrite(fs[k], g);
      }
      assert fs[..|fs|] == fs;
    }

    function Length(l: List): nat
      reads this
    {
      match l
      case Targets => targets.Length
      case Peers => peers.Length
      case Clients => clients.Length
    }

    method SecretFieldList() returns (fs: seq<Field>)
      requires Valid()
      ensures fs == SecretFields(Abs())
    {
      fs := SINGLES + Both(Targets, targets.Length) + Both(Peers, peers.Length) + Both(Clients, clients.Length);
    }

    method AnySecret() returns (b: bool)
      requires Valid()
      ensures b == HasSecrets(Abs())
    {
      var fs := SecretFieldList();
      SecretFieldsPoint(Abs());
      for k := 0 to |fs|
        invariant forall i :: 0 <= i < k ==> SecretAt(Abs(), i) == ""
      {
        var s := Read(fs[k]);
        if s != "" {
          assert SecretAt(Abs(), k) != "";
          return true;
        }
      }
      b := false;
    }

    method AnyEncrypted() returns (b: bool)
      requires Valid()
      ensures b == HasEncryptedSecrets(Abs())
    {
      var fs := SecretFieldList();
      SecretFieldsPoint(Abs());
      for k := 0 to |fs|
        invariant forall i :: 0 <= i < k ==> !IsEncrypted(SecretAt(Abs(), i))
      {
        var s := Read(fs[k]);
        if IsEncrypted(s) {
          assert IsEncrypted(SecretAt(Abs(), k));
          return true;
        }
      }
      b := false;
    }

    method ClearEncryptedSecrets()
      requires Valid()
      modifies this`passphrase, this`serverKey, this`sessionSecret, this`apiToken, targets, peers, clients
      ensures Valid() && Abs() == SecretsRewritten(old(Abs()), Clearing())
    {
      var fs := SecretFieldList();
      SecretFieldsPoint(Abs());
      RewriteAll(fs, Clearing());
    }

    method RewritePair(l: List, k: nat, g: Rewrite, ghost v: Value)
      requires Valid() && k < Length(l) == |ListOf(v, l)|
      requires (forall f :: f in Both(l, k) ==> Points(v, f)) && Abs() == Rewritten(v, Both(l, k), g)
      modifies this`passphrase, this`serverKey, this`sessionSecret, this`apiToken, targets, peers, clients
      ensures Valid() && forall f :: f in Both(l, k + 1) ==> Points(v, f)
      ensures Abs() == Rewritten(v, Both(l, k + 1), g)
    {
      OneMorePair(v, l, k, g);
      RewriteAll([Primary(l, k), Secondary(l, k)], g);
    }

    /** A loop that decrypts both secrets of each entry of a list. */
    method RewriteBoth(l: List, g: Rewrite)
      requires Valid()
      modifies this`passphrase, this`serverKey, this`sessionSecret, this`apiToken, targets, peers, clients
      ensures Valid() && (forall f :: f in Both(l, Length(l)) ==> Points(old(Abs()), f))
      ensures Abs() == Rewritten(old(Abs()), Both(l, Length(l)), g)
    {
      ghost var v := Abs();
      var n := Length(l);
      for k := 0 to n
        invariant Valid() && n == Length(l) == |ListOf(v, l)|
        invariant forall f :: f in Both(l, k) ==> Points(v, f)
        invariant Abs() == Rewritten(v, Both(l, k), g)
      {
        RewritePair(l, k, g, v);
      }
    }

    method RewritePrimary(k: nat, g: Rewrite, ghost v: Value)
      requires Valid() && k < peers.Length == |v.peers|
      requires (forall f :: f in Primaries(Peers, k) ==> Points(v, f)) && Abs() == Rewritten(v, Primaries(Peers, k), g)
      modifies this`passphrase, this`serverKey, this`sessionSecret, this`apiToken, targets, peers, clients
      ensures Valid() && forall f :: f in Primaries(Peers, k + 1) ==> Points(v, f)
      ensures Abs() == Rewritten(v, Primaries(Peers, k + 1), g)
    {
      OneMorePrimary(v, k, g);
      RewriteAll([Primary(Peers, k)], g);
    }

    method RewriteSecondary(k: nat, g: Rewrite, ghost v: Value)
      requires Valid() && k < peers.Length == |v.peers|
      requires (forall f :: f in Secondaries(Peers, k) ==> Points(v, f)) && Abs() == Rewritten(v, Secondaries(Peers, k), g)
      modifies this`passphrase, this`serverKey, this`sessionSecret, this`apiToken, targets, peers, clients
      ensures Valid() && forall f :: f in Secondaries(Peers, k + 1) ==> Points(v, f)
      ensures Abs() == Rewritten(v, Secondaries(Peers, k + 1), g)
    {
      OneMoreSecondary(v, k, g);
      RewriteAll([Secondary(Peers, k)], g);
    }

    /** The loop over the peers' private keys. */
    method RewritePrimaries(g: Rewrite)
      requires Valid()
      modifies this`passphrase, this`serverKey, this`sessionSecret, this`apiToken, targets, peers, clients
      ensures Valid() && (forall f :: f in Primaries(Peers, peers.Length) ==> Points(old(Abs()), f))
      ensures Abs() == Rewritten(old(Abs()), Primaries(Peers, peers.Length), g)
    {
      ghost var v := Abs();
      var n := peers.Length;
      for k := 0 to n
        invariant Valid() && n == peers.Length == |v.peers|
        invariant forall f :: f in Primaries(Peers, k) ==> Points(v, f)
        invariant Abs() == Rewritten(v, Primaries(Peers, k), g)
      {
        RewritePrimary(k, g, v);
      }
    }

    /** The loop over the peers' preshared keys. */
    method RewriteSecondaries(g: Rewrite)
      requires Valid()
      modifies this`passphrase, this`serverKey, this`sessionSecret, this`apiToken, targets, peers, clients
      ensures Valid() && (forall f :: f in Secondaries(Peers, peers.Length) ==> Points(old(Abs()), f))
      ensures Abs() == Rewritten(old(Abs()), Secondaries(Peers, peers.Length), g)
    {
      ghost var v := Abs();
      var n := peers.Length;
      for k := 0 to n
        invariant Valid() && n == peers.Length == |v.peers|
        invariant forall f :: f in Secondaries(Peers, k) ==> Points(v, f)
        invariant Abs() == Rewritten(v, Secondaries(Peers, k), g)
      {
        RewriteSecondary(k, g, v);
      }
    }

    method DecryptBackupSecrets(g: Rewrite)
      requires Valid()
      modifies this`passphrase, this`serverKey, this`sessionSecret, this`apiToken, targets, peers, clients
      ensures Valid() && (forall f :: f in BackupOrder(old(Abs())) ==> Points(old(Abs()), f))
      ensures Abs() == Rewritten(old(Abs()), BackupOrder(old(Abs())), g)
    {
      ghost var v := Abs();
      BothPoints(v, Targets, |v.targets|);
      RewrittenTwice(v, [Alone(Passphrase)], Both(Targets, |v.targets|), g);
      Rewrite(Alone(Passphrase), g);
      RewriteBoth(Targets, g);
    }

    method DecryptVpnSecrets(g: Rewrite)
      requires Valid()
      modifies this`passphrase, this`serverKey, this`sessionSecret, this`apiToken, targets, peers, clients
      ensures Valid() && (forall f :: f in VpnOrder(old(Abs())) ==> Points(old(Abs()), f))
      ensures Abs() == Rewritten(old(Abs()), VpnOrder(old(Abs())), g)
    {
      ghost var v := Abs();
      VpnOrderInParts(v, g);
      Rewrite(Alone(ServerKey), g);
      RewritePrimaries(g);
      RewriteSecondaries(g);
      RewriteBoth(Clients, g);
    }

    method DecryptSecretsInPlace(c: Cipher, file: KeyFile)
      requires Valid()
      modifies this`passphrase, this`serverKey, this`sessionSecret, this`apiToken, targets, peers, clients
      ensures Valid() && Abs() == Load(c, file, old(Abs()))
    {
      ghost var v := Abs();
      var any := AnyEncrypted();
      if !any {
        return;
      }
      if !file.Present? {
        ClearEncryptedSecrets();
        return;
      }
      var g := Decrypting(c, file.key);
      DecryptBackupSecrets(g);
      ghost var w := Abs();
      assert VpnOrder(w) == VpnOrder(v);
      DecryptVpnSecrets(g);
      RewrittenTwice(v, BackupOrder(v), VpnOrder(v), g);
      RewriteAll([Alone(SessionSecret), Alone(ApiToken)], g);
      RewrittenTwice(v, BackupOrder(v) + VpnOrder(v), SYSTEM_ORDER, g);
    }
  }

  lemma BothPoints(v: Value, l: List, n: nat)
    requires n <= |ListOf(v, l)|
    ensures forall f :: f in Both(l, n) ==> Points(v, f)
  {
    forall f | f in Both(l, n) ensures Points(v, f) {
      CountIsMembership(Both(l, n), f);
      CountBoth(l, n, f);
    }
  }

  lemma OneMorePair(v: Value, l: List, k: nat, g: Rewrite)
    requires k < |ListOf(v, l)| && forall f :: f in Both(l, k) ==> Points(v, f)
    ensures forall f :: f in Both(l, k + 1) ==> Points(v, f)
    ensures var w, pair := Rewritten(v, Both(l, k), g), [Primary(l, k), Secondary(l, k)];
            (forall f :: f in pair ==> Points(w, f)) && Rewritten(v, Both(l, k + 1), g) == Rewritten(w, pair, g)
  {
    BothPoints(v, l, k + 1);
    RewrittenTwice(v, Both(l, k), [Primary(l, k), Secondary(l, k)], g);
  }

  lemma HalvesPoint(v: Value, n: nat)
    requires n <= |v.peers|
    ensures forall f :: f in Primaries(Peers, n) || f in Secondaries(Peers, n) ==> Points(v, f)
  {
    forall f | f in Primaries(Peers, n) || f in Secondaries(Peers, n) ensures Points(v, f) {
      CountIsMembership(Primaries(Peers, n), f);
      CountIsMembership(Secondaries(Peers, n), f);
      CountHalves(Peers, n, f);
    }
  }

  lemma OneMorePrimary(v: Value, k: nat, g: Rewrite)
    requires k < |v.peers| && forall f :: f in Primaries(Peers, k) ==> Points(v, f)
    ensures forall f :: f in Primaries(Peers, k + 1) ==> Points(v, f)
    ensures var w, one := Rewritten(v, Primaries(Peers, k), g), [Primary(Peers, k)];
            (forall f :: f in one ==> Points(w, f)) && Rewritten(v, Primaries(Peers, k + 1), g) == Rewritten(w, one, g)
  {
    HalvesPoint(v, k + 1);
    RewrittenTwice(v, Primaries(Peers, k), [Primary(Peers, k)], g);
  }

  lemma OneMoreSecondary(v: Value, k: nat, g: Rewrite)
    requires k < |v.peers| && forall f :: f in Secondaries(Peers, k) ==> Points(v, f)
    ensures forall f :: f in Secondaries(Peers, k + 1) ==> Points(v, f)
    ensures var w, one := Rewritten(v, Secondaries(Peers, k), g), [Secondary(Peers, k)];
            (forall f :: f in one ==> Points(w, f)) && Rewritten(v, Secondaries(Peers, k + 1), g) == Rewritten(w, one, g)
  {
    HalvesPoint(v, k + 1);
    RewrittenTwice(v, Secondaries(Peers, k), [Secondary(Peers, k)], g);
  }

  /** Rewriting the VPN fields is rewriting their four parts in turn. */
  lemma VpnOrderInParts(v: Value, g: Rewrite)
    ensures forall f :: f in VpnOrder(v) ==> Points(v, f)
    ensures var n, m := |v.peers|, |v.clients|;
            var a := Rewritten(v, [Alone(ServerKey)], g);
            && (forall f :: f in Primaries(Peers, n) ==> Points(a, f))
            && var b := Rewritten(a, Primaries(Peers, n), g);
               && (forall f :: f in Secondaries(Peers, n) ==> Points(b, f))
               && var c := Rewritten(b, Secondaries(Peers, n), g);
                  && (forall f :: f in Both(Clients, m) ==> Points(c, f))
                  && Rewritten(v, VpnOrder(v), g) == Rewritten(c, Both(Clients, m), g)
  {
    var n, m := |v.peers|, |v.clients|;
    var s, p, q, t := [Alone(ServerKey)], Primaries(Peers, n), Secondaries(Peers, n), Both(Clients, m);
    HalvesPoint(v, n);
    BothPoints(v, Clients, m);
    RewrittenTwice(v, s, p, g);
    RewrittenTwice(v, s + p, q, g);
    RewrittenTwice(v, s + p + q, t, g);
  }

  lemma RewrittenOne(v: Value, f: Field, g: Rewrite)
    requires Points(v, f)
    ensures Rewritten(v, [f], g) == Set(v, f, g(f, Get(v, f)))
  {
    assert [f][..0] == [];
  }

  /** Rewriting one list after another is rewriting the two joined. */
  lemma {:induction false} RewrittenTwice(v: Value, a: seq<Field>, b: seq<Field>, g: Rewrite)
    requires forall f :: f in a || f in b ==> Points(v, f)
    ensures forall f :: f in b ==> Points(Rewritten(v, a, g), f)
    ensures Rewritten(v, a + b, g) == Rewritten(Rewritten(v, a, g), b, g)
  {
    if b == [] {
      assert a + b == a;
    } else {
      assert (a + b)[..|a + b| - 1] == a + b[..|b| - 1];
      RewrittenTwice(v, a, b[..|b| - 1], g);
    }
  }

  /** loadOrCreateConfigKey: the key file is written only when there is none. */
  class KeyStore {
    var file: KeyFile

    method LoadOrCreate(newKey: int) returns (key: Option<int>)
      modifies this
      ensures file == if old(file).Missing? then Present(newKey) else old(file)
      ensures key == if file.Present? then Some(file.key) else None
    {
      if file.Missing? {
        file := Present(newKey);
      }
      key := if file.Present? then Some(file.key) else None;
    }
  }

  /**
   withEncryptedSecrets: what is to be written, without a change to the live configuration or to the
   arrays it holds. Nothing to encrypt gives the live configuration itself.
   */
  method WithEncryptedSecrets(cfg: Config, store: KeyStore, c: Cipher, chance: Chance) returns (out: Config?)
    requires cfg.Valid()
    modifies store
    ensures unchanged(cfg) && unchanged(cfg.targets) && unchanged(cfg.peers) && unchanged(cfg.clients)
    ensures store.file == Save(c, old(store.file), chance, old(cfg.Abs())).1
    ensures out == null <==> Save(c, old(store.file), chance, old(cfg.Abs())).0.None?
    ensures out != null ==> out.Valid() && Some(out.Abs()) == Save(c, old(store.file), chance, old(cfg.Abs())).0
    ensures out == cfg || out == null || (fresh(out) && fresh(out.targets) && fresh(out.peers) && fresh(out.clients))
  {
    var any := cfg.AnySecret();
    if !any {
      return cfg;
    }
    var key := store.LoadOrCreate(chance.newKey);
    if key.None? {
      return null;
    }
    out := new Config(Value(cfg.passphrase, cfg.serverKey, cfg.sessionSecret, cfg.apiToken,
                            cfg.targets[..], cfg.peers[..], cfg.clients[..], cfg.rest));
    var fs := out.SecretFieldList();
    SecretFieldsPoint(out.Abs());
    out.RewriteAll(fs, Encrypting(c, key.value, chance));
  }
}
