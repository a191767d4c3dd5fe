/** What each command of the VAULT runtime answers and changes, said of what can be seen: ids,
    lengths, texts and times, and over whole runs where the history matters. */
module VaultCommands {
  import opened Options
  import opened VaultHex
  import opened VaultRuntime
  import opened VaultRuns
  import opened VaultSealing
  import VaultParser
  import E = VaultEvaluator

  // ---- the registry -----------------------------------------------------------------

  /** The entry is the first with that id. */
  ghost predicate IsFirst(registry: seq<RegistryEntry>, vid: string, i: nat) {
    i < |registry| && registry[i].vaultId == vid && forall j :: 0 <= j < i ==> registry[j].vaultId != vid
  }

  /** The vault is in the registry, and the registry is read back. */
  ghost predicate IsKnown(w: World, s: State, vid: string) {
    w.registrySize(s.registry) <= 65535 && exists i: nat :: IsFirst(s.registry, vid, i)
  }

  lemma {:induction false} FindIsFirst(registry: seq<RegistryEntry>, vid: string)
    ensures if Find(registry, vid) < |registry| then IsFirst(registry, vid, Find(registry, vid))
            else forall i: nat :: !IsFirst(registry, vid, i)
    decreases |registry|
  {
    if registry != [] && registry[0].vaultId != vid {
      var rest := registry[1..];
      FindIsFirst(rest, vid);
      forall i: nat | IsFirst(registry, vid, i) ensures i > 0 && IsFirst(rest, vid, i - 1) {
        assert forall j :: 0 <= j < i - 1 ==> rest[j] == registry[j + 1];
      }
      if Find(rest, vid) < |rest| {
        assert forall j :: 0 < j < |registry| ==> registry[j] == rest[j - 1];
      }
    } else if registry != [] {
      assert IsFirst(registry, vid, 0);
    }
  }

  lemma KnownIff(w: World, s: State, vid: string)
    ensures IsKnown(w, s, vid) <==> Find(Loaded(w, s.registry), vid) < |Loaded(w, s.registry)|
  {
    FindIsFirst(s.registry, vid);
  }

  /** What is decided on is the start of the stored policy: all of it, or its first 4095
      characters. */
  lemma PolicyIsStart(registry: seq<RegistryEntry>, vid: string)
    ensures match PolicyOf(registry, vid)
            case None => forall i: nat :: !IsFirst(registry, vid, i)
            case Some(kept) => exists i: nat :: IsFirst(registry, vid, i) && kept <= registry[i].policyDsl &&
                                 |kept| == if |registry[i].policyDsl| < 4095 then |registry[i].policyDsl| else 4095
  {
    FindIsFirst(registry, vid);
  }

  // ---- sealed entries ---------------------------------------------------------------

  predicate IsHex(c: char) {
    '0' <= c <= '9' || 'a' <= c <= 'f' || 'A' <= c <= 'F'
  }

  /** One byte: two digits, or one after a sign or a space. */
  predicate IsPair(a: char, b: char) {
    IsHex(b) && (IsHex(a) || a == '+' || a == '-' || a == ' ' || 9 <= a as int <= 13)
  }

  predicate HasPair(text: string, i: nat)
    requires 2 * i + 1 < |text|
  {
    IsPair(text[2 * i], text[2 * i + 1])
  }

  /** The text is read as bytes. */
  predicate IsPairs(text: string) {
    |text| % 2 == 0 && forall i :: 0 <= i < |text| / 2 ==> HasPair(text, i)
  }

  lemma StrtolReads(a: char, b: char)
    ensures Strtol(a, b).Some? <==> IsPair(a, b)
  {
  }

  lemma {:induction false} DecodesPairs(text: string, k: nat)
    requires 2 * k <= |text|
    ensures DecodedTo(text, k).Some? <==> forall i :: 0 <= i < k ==> HasPair(text, i)
  {
    if k > 0 {
      DecodesPairs(text, k - 1);
      StrtolReads(text[2 * k - 2], text[2 * k - 1]);
      assert HasPair(text, k - 1) <==> IsPair(text[2 * k - 2], text[2 * k - 1]);
    }
  }

  lemma DecodesIff(text: string, max: nat)
    ensures Decoded(text, max).Some? <==> IsPairs(text) && |text| / 2 <= max
  {
    if |text| % 2 == 0 {
      DecodesPairs(text, |text| / 2);
    }
  }

  /** A sealed entry is handed to the cipher exactly if it has a nonce of 24 bytes and a ciphertext
      of 16 bytes or more; otherwise it is refused unseen. */
  lemma OpenedIff(w: World, key: Bytes, entry: SealedEntry)
    ensures if IsSealed(entry)
            then Opened(w, key, entry) == w.open(key, BytesOf(entry.nonce.value), BytesOf(entry.ct.value))
            else Opened(w, key, entry) == None
  {
    if entry.nonce.Some? && entry.ct.Some? {
      DecodesIff(entry.nonce.value, 24);
      DecodesIff(entry.ct.value, |entry.ct.value| / 2);
      DecodesIff(entry.nonce.value, |entry.nonce.value| / 2);
    }
  }

  predicate IsSealed(entry: SealedEntry) {
    && entry.nonce.Some? && IsPairs(entry.nonce.value) && |entry.nonce.value| == 48
    && entry.ct.Some? && IsPairs(entry.ct.value) && |entry.ct.value| >= 32
  }

  function BytesOf(text: string): Bytes
    requires IsPairs(text)
  {
    DecodesIff(text, |text| / 2);
    Decoded(text, |text| / 2).value
  }

  /** The value of a hexadecimal digit, by its place among them. */
  predicate IsDigitOf(c: char, d: int) {
    || (0 <= d <= 9 && c as int == '0' as int + d)
    || (10 <= d <= 15 && (c as int == 'a' as int + d - 10 || c as int == 'A' as int + d - 10))
  }

  /** What strtol makes of a pair, as a byte: a minus sign wraps. */
  predicate IsByteOf(a: char, b: char, v: int) {
    exists low | 0 <= low <= 15 && IsDigitOf(b, low) ::
      || (exists high | 0 <= high <= 15 && IsDigitOf(a, high) :: v == 16 * high + low)
      || (!IsHex(a) && a != '-' && v == low)
      || (a == '-' && v == if low == 0 then 0 else 256 - low)
  }

  lemma DigitIs(c: char)
    requires IsHex(c)
    ensures DigitValue(c).Some? && 0 <= DigitValue(c).value <= 15 && IsDigitOf(c, DigitValue(c).value)
  {
  }

  lemma PairIsByteOf(a: char, b: char)
    requires IsPair(a, b)
    ensures Strtol(a, b).Some? && IsByteOf(a, b, Strtol(a, b).value % 256)
  {
    DigitIs(b);
    var low := DigitValue(b).value;
    if IsHex(a) {
      DigitIs(a);
      var high := DigitValue(a).value;
      assert IsDigitOf(a, high) && IsDigitOf(b, low);
      assert (16 * high + low) % 256 == 16 * high + low;
    } else {
      assert IsDigitOf(b, low);
      assert low % 256 == low && (-low) % 256 == if low == 0 then 0 else 256 - low;
    }
  }

  lemma {:induction false} DecodedAt(text: string, k: nat, i: nat)
    requires i < k && 2 * k <= |text| && DecodedTo(text, k).Some? && HasPair(text, i)
    ensures IsByteOf(text[2 * i], text[2 * i + 1], DecodedTo(text, k).value[i])
  {
    if i == k - 1 {
      PairIsByteOf(text[2 * i], text[2 * i + 1]);
    } else {
      DecodedAt(text, k - 1, i);
    }
  }

  /** Every byte is that of its pair. */
  lemma BytesAreOfPairs(text: string, i: nat)
    requires IsPairs(text) && i < |text| / 2
    ensures |BytesOf(text)| == |text| / 2 && IsByteOf(text[2 * i], text[2 * i + 1], BytesOf(text)[i])
  {
    DecodesIff(text, |text| / 2);
    assert HasPair(text, i);
    DecodedAt(text, |text| / 2, i);
  }

  /** What is encoded has lower-case digits, two for each byte. */
  lemma {:induction false} EncodedIsLowerCase(bytes: Bytes)
    ensures forall i :: 0 <= i < |Encoded(bytes)| ==>
      '0' <= Encoded(bytes)[i] <= '9' || 'a' <= Encoded(bytes)[i] <= 'f'
  {
    if bytes != [] {
      EncodedIsLowerCase(bytes[..|bytes| - 1]);
      PairIsLowerCase(bytes[|bytes| - 1]);
    }
  }

  lemma PairIsLowerCase(b: Byte)
    ensures forall i :: 0 <= i < 2 ==> '0' <= Pair(b)[i] <= '9' || 'a' <= Pair(b)[i] <= 'f'
  {
    DigitIsLowerCase(b / 16);
    DigitIsLowerCase(b % 16);
  }

  lemma DigitIsLowerCase(d: int)
    requires 0 <= d < 16
    ensures '0' <= HEX_DIGITS[d] <= '9' || 'a' <= HEX_DIGITS[d] <= 'f'
  {
  }

  /** The path of an entry, and the part of it that the mount uses. */
  lemma BaseOf(path: string) returns (base: string)
    ensures base == Basename(path) && IsLastPart(base, path) && (IsPlain(base) <==> EndsInName(path))
  {
    base := Basename(path);
    BasenameIsLastPart(path);
    NameIsPlain(path);
  }

  lemma OpenedIntoBase(w: World, key: Bytes, entry: SealedEntry, i: nat, content: map<string, Bytes>, env: Env,
                       base: string, plain: bool)
    requires base == Basename(NameOf(entry)) && (plain <==> IsPlain(base))
    ensures OpenedInto(w, key, entry, i, content, env) ==
      if Opened(w, key, entry).Some? && plain && i !in env.putFails
      then Some(content[base := Opened(w, key, entry).value]) else None
  {
  }

  lemma PathIs(entry: SealedEntry)
    ensures NameOf(entry) == if entry.name.Some? then entry.name.value else "file"
  {
  }

  /** An entry goes into the mount if it opens, its path ends in a name and the write succeeds: under
      the last part of its path, which is `file` if it has none. */
  lemma OpenedIntoIs(w: World, key: Bytes, entry: SealedEntry, i: nat, content: map<string, Bytes>, env: Env)
    returns (path: string, base: string)
    ensures path == (if entry.name.Some? then entry.name.value else "file") && IsLastPart(base, path)
    ensures OpenedInto(w, key, entry, i, content, env) ==
      if Opened(w, key, entry).Some? && EndsInName(path) && i !in env.putFails
      then Some(content[base := Opened(w, key, entry).value]) else None
  {
    path := NameOf(entry);
    PathIs(entry);
    base := BaseOf(path);
    OpenedIntoBase(w, key, entry, i, content, env, base, EndsInName(path));
  }

  // ---- keys -------------------------------------------------------------------------

  /** A vault's secret is made once and kept; its key comes from the secret, the policy and the id. */
  lemma DerivingIs(w: World, keychain: map<string, Bytes>, vid: string, policy: string, env: Env)
    ensures var (keychain', key) := Deriving(w, keychain, vid, policy, env);
      if !env.keychainOk then keychain' == keychain && key == None
      else
        && keychain' == (if vid in keychain then keychain else keychain[vid := env.master])
        && key == (if env.deriveOk then Some(w.derive(keychain'[vid], policy, vid)) else None)
  {
  }

  // ---- the commands -----------------------------------------------------------------

  /** What create answers, and that a vault it makes is the newest entry of the registry, with a
      secret of its own. */
  lemma CreateIs(w: World, s: State, name: string, dsl: string, env: Env)
    ensures var (s', reply) := Creating(w, s, Some(name), Some(dsl), env);
      && (reply == Failed(-32602) <==> name == "" || VaultParser.Parse(dsl) == None)
      && (reply.Created? <==> name != "" && VaultParser.Parse(dsl).Some? && env.keychainOk && env.saveOk)
      && (!reply.Created? ==> reply in {Failed(-32602), Failed(-32000)} && s'.registry == s.registry)
      && (reply.Created? ==>
            && reply.vaultId == env.freshId && s'.registry != []
            && s'.registry[|s'.registry| - 1] == RegistryEntry(env.freshId, name, dsl)
            && env.freshId in s'.keychain
            && (env.freshId !in s.keychain ==> s'.keychain[env.freshId] == env.master))
      && s'.files == s.files && s'.mounts == s.mounts && s'.openId == s.openId && s'.relockAt == s.relockAt
  {
  }

  /** What unlock answers, refusals in order. */
  lemma UnlockIs(w: World, s: State, vid: string, env: Env, d: E.Decision)
    ensures var (s', reply) := Unlocking(w, s, Some(vid), env, d);
      if vid == "" then reply == Failed(-32602) && s' == s
      else if s.openId != "" && s.openId != vid then reply == Denied(AnotherVaultOpen) && s' == s
      else if !IsKnown(w, s, vid) then reply == Denied(NoSuchVault) && s' == s
      else if d.Deny? then reply == Denied(ByPolicy) && s' == s
      else if d.Defer? then reply == Deferred(d.seconds) && s' == s
      else if !env.keychainOk || !env.deriveOk then reply == Denied(KeyUnavailable) && s' == s.(keychain := s'.keychain)
      else if vid !in s.mounts && !env.mountOk then reply == Denied(MountFailed) && s' == s.(keychain := s'.keychain)
      else reply.Unlocked? || reply == Denied(Integrity)
  {
    KnownIff(w, s, vid);
  }

  /** The vault is open for 900 seconds and mounted, with all its files counted, if the unlock went
      through; otherwise what is open stays as it was. */
  predicate OpensRightly(w: World, s: State, vid: string, env: Env, s': State, reply: Reply) {
    && s'.registry == s.registry && s'.files == s.files
    && (if reply.Unlocked?
        then s'.openId == vid && s'.relockAt == env.now + 900
             && vid in s'.mounts && s'.mounts - {vid} == s.mounts - {vid}
             && (w.indexSize(Index(s, vid)) <= 8388607 ==> reply.files == |Index(s, vid)|)
        else s'.openId == s.openId && s'.relockAt == s.relockAt)
  }

  lemma FillingOpens(w: World, s: State, vid: string, key: Bytes, env: Env)
    ensures var (s', reply) := Filling(w, s, vid, key, env); OpensRightly(w, s, vid, env, s', reply)
  {
  }

  lemma OpeningOpens(w: World, s: State, vid: string, policy: string, env: Env)
    ensures var (s', reply) := Opening(w, s, vid, policy, env); OpensRightly(w, s, vid, env, s', reply)
  {
    var (keychain, key) := Deriving(w, s.keychain, vid, policy, env);
    if key.Some? {
      FillingOpens(w, s.(keychain := keychain), vid, key.value, env);
    }
  }

  lemma UnlockOpens(w: World, s: State, vid: string, env: Env, d: E.Decision)
    ensures var (s', reply) := Unlocking(w, s, Some(vid), env, d); OpensRightly(w, s, vid, env, s', reply)
  {
    var policy := PolicyOf(Loaded(w, s.registry), vid);
    if policy.Some? {
      OpeningOpens(w, s, vid, policy.value, env);
    }
  }

  /** Lock, over runs: if it names the open vault or none, then nothing is open and nothing is
      mounted any more; otherwise nothing changes. What is stored stays. */
  lemma LockCloses(w: World, ops: seq<Op>, vid: Option<string>)
    requires AfterEpoch(ops)
    ensures var s := Run(w, ops).s; var (s', reply) := Locking(s, vid);
      && s'.registry == s.registry && s'.keychain == s.keychain && s'.files == s.files
      && (if s.openId != "" && (vid == None || vid == Some(s.openId))
          then reply == Done && s'.openId == "" && s'.relockAt == 0 && s'.mounts == map[]
          else reply == NotDone(NotOpen) && s' == s)
  {
    RunsKeepOneVault(w, ops);
  }

  /** So a lock undoes an unlock, but for a secret that the unlock had to make. */
  lemma LockUndoesUnlock(w: World, ops: seq<Op>, vid: string, env: Env, d: E.Decision)
    requires AfterEpoch(ops) && 0 <= env.now && Run(w, ops).s.openId == ""
    requires Unlocking(w, Run(w, ops).s, Some(vid), env, d).1.Unlocked?
    ensures var s, unlocked := Run(w, ops).s, Unlocking(w, Run(w, ops).s, Some(vid), env, d).0;
      var locked := Locking(unlocked, None).0;
      && locked == s.(keychain := locked.keychain)
      && forall v :: v in s.keychain ==> v in locked.keychain && locked.keychain[v] == s.keychain[v]
  {
    RunsKeepOneVault(w, ops);
  }

  /** What add_file answers. A file that is added changes the vault's own index only. */
  lemma AddIs(w: World, s: State, vid: string, path: string, env: Env)
    ensures var (s', reply) := Adding(w, s, Some(vid), Some(path), env);
      && (if s.openId != vid then reply == Failed(-31004)
          else if !IsKnown(w, s, vid) || env.source == None then reply == Failed(-32602)
          else if !env.keychainOk || !env.deriveOk then reply == Failed(-31004)
          else if !env.sealOk || !env.saveOk then reply == Failed(-32000)
          else reply == Done)
      && (reply != Done ==> s'.files == s.files)
      && (reply == Done ==>
            && vid in s'.files && s'.files - {vid} == s.files - {vid} && s'.files[vid] != []
            && s'.files[vid][|s'.files[vid]| - 1].name == Some(path))
      && s'.registry == s.registry && s'.mounts == s.mounts && s'.openId == s.openId && s'.relockAt == s.relockAt
  {
    KnownIff(w, s, vid);
  }

  /** What delete answers and removes: the first entry with that id, the secret and the index as far
      as the system lets it, and the mount. */
  lemma DeleteIs(w: World, s: State, vid: string, env: Env)
    ensures var (s', reply) := Deleting(w, s, Some(vid), env);
      if !IsKnown(w, s, vid) then reply == NotDone(NoSuchVault) && s' == s
      else if !env.saveOk then reply == Failed(-32000) && s' == s
      else
        && reply == Done
        && (exists i: nat :: IsFirst(s.registry, vid, i) && s'.registry == s.registry[..i] + s.registry[i + 1..])
        && s'.keychain == (if env.evictOk then s.keychain - {vid} else s.keychain)
        && s'.files == (if env.unlinkOk then s.files - {vid} else s.files)
        && s'.mounts == s.mounts - {vid}
        && (if s.openId == vid then s'.openId == "" && s'.relockAt == 0
            else s'.openId == s.openId && s'.relockAt == s.relockAt)
  {
    KnownIff(w, s, vid);
    FindIsFirst(s.registry, vid);
    assert s.mounts - {vid} - {vid} == s.mounts - {vid};
  }

  /** What policy.update answers and changes: the policy of the first entry with that id, of a vault
      whose index reads back empty; and it closes that vault. */
  lemma UpdateIs(w: World, s: State, vid: string, dsl: string, env: Env)
    ensures var (s', reply) := Updating(w, s, Some(vid), Some(dsl), env);
      if VaultParser.Parse(dsl) == None then reply == Failed(-32602) && s' == s
      else if !IsKnown(w, s, vid) then reply == NotDone(NoSuchVault) && s' == s
      else if Index(s, vid) != [] && w.indexSize(Index(s, vid)) <= 8388607 then
        reply == NotDone(VaultNotEmpty) && s' == s
      else if !env.saveOk then reply == Failed(-32000) && s' == s
      else
        && reply == Done && s'.keychain == s.keychain && s'.files == s.files
        && (exists i: nat :: IsFirst(s.registry, vid, i) && IsRepoliced(s.registry, s'.registry, i, dsl))
        && (if s.openId == vid then s'.openId == "" && s'.relockAt == 0 && s'.mounts == s.mounts - {vid}
            else s'.openId == s.openId && s'.relockAt == s.relockAt && s'.mounts == s.mounts)
  {
    KnownIff(w, s, vid);
    FindIsFirst(s.registry, vid);
  }

  /** Only the policy of entry `i` is new. */
  ghost predicate IsRepoliced(before: seq<RegistryEntry>, after: seq<RegistryEntry>, i: nat, dsl: string) {
    && i < |before| == |after|
    && (forall j :: 0 <= j < |before| && j != i ==> after[j] == before[j])
    && after[i] == RegistryEntry(before[i].vaultId, before[i].name, dsl)
  }

  /** A command without an id, a name or a policy where it needs one is refused. */
  lemma MissingIsRefused(w: World, s: State, env: Env, d: E.Decision, other: Option<string>)
    ensures Unlocking(w, s, None, env, d) == (s, Failed(-32602)) && Deleting(w, s, None, env) == (s, Failed(-32602))
    ensures Creating(w, s, None, other, env) == Creating(w, s, other, None, env) == (s, Failed(-32602))
    ensures Adding(w, s, None, other, env) == Adding(w, s, other, None, env) == (s, Failed(-32602))
    ensures Updating(w, s, None, other, env) == Updating(w, s, other, None, env) == (s, Failed(-32602))
  {
  }

  // ---- what the mount shows ---------------------------------------------------------

  lemma LongerHasSlash(path: string, a: string, b: string)
    requires IsLastPart(a, path) && |a| < |b| <= |path| && path[|path| - |b|..] == b
    ensures '/' in b
  {
    assert b[|b| - |a| - 1] == path[|path| - |a| - 1];
  }

  lemma LastPartIs(path: string, name: string)
    ensures IsLastPart(name, path) <==> name == Basename(path)
  {
    var base := Basename(path);
    BasenameIsLastPart(path);
    if IsLastPart(name, path) {
      if |base| < |name| {
        LongerHasSlash(path, base, name);
      } else if |name| < |base| {
        LongerHasSlash(path, name, base);
      }
    }
  }

  lemma {:induction false} MountOfHas(added: seq<Added>, k: nat, i: nat)
    requires i < k <= |added|
    requires forall j :: i < j < k ==> Basename(added[j].path) != Basename(added[i].path)
    ensures var name := Basename(added[i].path);
      name in MountOf(added, k) && MountOf(added, k)[name] == FirstPart(added[i].content)
  {
    if i < k - 1 {
      MountOfHas(added, k - 1, i);
    }
  }

  /** An unlock gives back every file that was added, unless a later one has the same name: the
      file itself if it has 64 KiB or less, its first 64 KiB otherwise. */
  lemma UnlockReturnsFile(w: World, ops: seq<Op>, vid: string, env: Env, i: nat, name: string)
    requires IsReady(w, ops, vid) && AllGoesWell(env) && i < |AddedTo(Run(w, ops), vid)|
    requires Unlocking(w, Run(w, ops).s, Some(vid), env, E.Allow).1.Unlocked?
    requires var added := AddedTo(Run(w, ops), vid);
      IsLastPart(name, added[i].path) && forall j :: i < j < |added| ==> !IsLastPart(name, added[j].path)
    ensures var content := AddedTo(Run(w, ops), vid)[i].content;
      var mounts := Unlocking(w, Run(w, ops).s, Some(vid), env, E.Allow).0.mounts;
      && vid in mounts && name in mounts[vid]
      && mounts[vid][name] <= content
      && |mounts[vid][name]| == (if |content| < 65536 then |content| else 65536)
      && (|content| <= 65536 ==> mounts[vid][name] == content)
  {
    var added := AddedTo(Run(w, ops), vid);
    UnlockRestores(w, ops, vid, env);
    LastPartIs(added[i].path, name);
    forall j | i < j < |added| ensures Basename(added[j].path) != name {
      LastPartIs(added[j].path, name);
    }
    MountOfHas(added, |added|, i);
  }
}
