/** What was added to a vault stays readable: no command orphans a sealed file, as long as the
    vault's own index fits the buffer it is read into when it is written back. */
module VaultSealing {
  import opened Options
  import opened VaultHex
  import opened VaultRuntime
  import opened VaultRuns
  import E = VaultEvaluator

  /** All that is known of the cipher: opening undoes sealing, which adds a tag of 16 bytes. */
  ghost predicate Lawful(w: World) {
    forall key: Bytes, nonce: Bytes, plain: Bytes ::
      w.open(key, nonce, w.seal(key, nonce, plain)) == Some(plain) && |w.seal(key, nonce, plain)| == |plain| + 16
  }

  predicate RegistryFits(w: World, s: State) {
    w.registrySize(s.registry) <= 65535
  }

  /** The vault's index is read back as it was written. */
  predicate ReadsBack(w: World, s: State, vid: string) {
    Index(s, vid) == [] || w.indexSize(Index(s, vid)) <= 8388607
  }

  predicate IsNewId(s: State, id: string) {
    id != "" && id !in s.keychain && id !in s.files && PolicyOf(s.registry, id) == None
  }

  /** Random values are as they should be: an id never seen before, a nonce of 24 bytes. */
  predicate IsRandom(p: Past, op: Op) {
    && (op.Create? ==> IsNewId(p.s, op.env.freshId) && op.env.freshId !in p.added)
    && (op.AddFile? ==> |op.env.nonce| == 24)
  }

  /** The commands that read the vault's index in order to replace it or the policy. */
  predicate Rewrites(op: Op, vid: string) {
    (op.AddFile? || op.UpdatePolicy?) && op.vid == Some(vid)
  }

  /** Runs in which random values are as they should be and the index of this vault is read back
      whole whenever a command goes on to replace it or the policy. */
  predicate IsSmooth(w: World, ops: seq<Op>, vid: string) {
    ops != [] ==>
      var p, op := Run(w, ops[..|ops| - 1]), ops[|ops| - 1];
      IsSmooth(w, ops[..|ops| - 1], vid) && IsRandom(p, op) && (Rewrites(op, vid) ==> ReadsBack(w, p.s, vid))
  }

  // ---- the registry -----------------------------------------------------------------

  /** No id occurs twice. */
  predicate HasUniqueIds(registry: seq<RegistryEntry>) {
    registry == [] ||
    (Find(registry[1..], registry[0].vaultId) == |registry| - 1 && HasUniqueIds(registry[1..]))
  }

  lemma {:induction false} FindSnoc(registry: seq<RegistryEntry>, e: RegistryEntry, vid: string)
    ensures Find(registry + [e], vid) ==
      if Find(registry, vid) < |registry| then Find(registry, vid)
      else if e.vaultId == vid then |registry| else |registry| + 1
  {
    if registry != [] {
      assert (registry + [e])[1..] == registry[1..] + [e];
      FindSnoc(registry[1..], e, vid);
    }
  }

  lemma {:induction false} UniqueSnoc(registry: seq<RegistryEntry>, e: RegistryEntry)
    requires HasUniqueIds(registry) && Find(registry, e.vaultId) == |registry|
    ensures HasUniqueIds(registry + [e])
  {
    if registry != [] {
      assert (registry + [e])[1..] == registry[1..] + [e];
      FindSnoc(registry[1..], e, registry[0].vaultId);
      UniqueSnoc(registry[1..], e);
    }
  }

  lemma {:induction false} FindUpdate(registry: seq<RegistryEntry>, i: nat, e: RegistryEntry, vid: string)
    requires i < |registry| && e.vaultId == registry[i].vaultId
    ensures Find(registry[i := e], vid) == Find(registry, vid)
  {
    if i > 0 {
      assert registry[i := e][1..] == registry[1..][i - 1 := e];
      FindUpdate(registry[1..], i - 1, e, vid);
    }
  }

  lemma {:induction false} UniqueUpdate(registry: seq<RegistryEntry>, i: nat, e: RegistryEntry)
    requires HasUniqueIds(registry) && i < |registry| && e.vaultId == registry[i].vaultId
    ensures HasUniqueIds(registry[i := e])
  {
    if i > 0 {
      assert registry[i := e][1..] == registry[1..][i - 1 := e];
      FindUpdate(registry[1..], i - 1, e, registry[0].vaultId);
      UniqueUpdate(registry[1..], i - 1, e);
    } else {
      assert registry[i := e][1..] == registry[1..];
    }
  }

  function Without(registry: seq<RegistryEntry>, i: nat): seq<RegistryEntry>
    requires i < |registry|
  {
    registry[..i] + registry[i + 1..]
  }

  lemma {:induction false} NotFound(registry: seq<RegistryEntry>, vid: string, i: nat)
    requires Find(registry, vid) == |registry| && i < |registry|
    ensures registry[i].vaultId != vid
  {
    if i > 0 {
      NotFound(registry[1..], vid, i - 1);
    }
  }

  lemma {:induction false} PolicyWithout(registry: seq<RegistryEntry>, i: nat, vid: string)
    requires HasUniqueIds(registry) && i < |registry|
    ensures PolicyOf(Without(registry, i), vid) == if registry[i].vaultId == vid then None else PolicyOf(registry, vid)
  {
    if i > 0 {
      assert Without(registry, i)[1..] == Without(registry[1..], i - 1);
      NotFound(registry[1..], registry[0].vaultId, i - 1);
      PolicyWithout(registry[1..], i - 1, vid);
    } else {
      assert Without(registry, 0) == registry[1..];
    }
  }

  lemma {:induction false} UniqueWithout(registry: seq<RegistryEntry>, i: nat)
    requires HasUniqueIds(registry) && i < |registry|
    ensures HasUniqueIds(Without(registry, i))
  {
    if i > 0 {
      assert Without(registry, i)[1..] == Without(registry[1..], i - 1);
      PolicyWithout(registry[1..], i - 1, registry[0].vaultId);
      UniqueWithout(registry[1..], i - 1);
    } else {
      assert Without(registry, 0) == registry[1..];
    }
  }

  lemma CreatingIs(w: World, s: State, name: Option<string>, dsl: Option<string>, env: Env)
    requires RegistryFits(w, s) && env.freshId !in s.keychain && Creating(w, s, name, dsl, env).1.Created?
    ensures name.Some? && dsl.Some?
    ensures Creating(w, s, name, dsl, env) ==
      (s.(registry := s.registry + [RegistryEntry(env.freshId, name.value, dsl.value)],
          keychain := s.keychain[env.freshId := env.master]), Created(env.freshId))
  {
  }

  lemma DeletingLast(w: World, s: State, entry: RegistryEntry, s': State, env: Env)
    requires RegistryFits(w, s') && entry.vaultId != s.openId && Find(s.registry, entry.vaultId) == |s.registry|
    requires entry.vaultId !in s.mounts && entry.vaultId !in s.files
    requires s' == s.(registry := s.registry + [entry], keychain := s'.keychain)
    requires s'.keychain - {entry.vaultId} == s.keychain && env.saveOk && env.evictOk && env.unlinkOk
    ensures Deleting(w, s', Some(entry.vaultId), env) == (s, Done)
  {
    FindSnoc(s.registry, entry, entry.vaultId);
    assert Without(s.registry + [entry], |s.registry|) == s.registry;
    assert s.files - {entry.vaultId} == s.files && s.mounts - {entry.vaultId} == s.mounts;
  }

  /** A created vault is registered under its policy, and deleting it undoes all of that. */
  lemma DeleteUndoesCreate(w: World, s: State, name: Option<string>, dsl: Option<string>, env: Env, env': Env)
    requires IsNewId(s, env.freshId) && env.freshId !in s.mounts && env.freshId != s.openId
    requires Creating(w, s, name, dsl, env).1.Created? && dsl.Some?
    requires RegistryFits(w, s) && RegistryFits(w, Creating(w, s, name, dsl, env).0)
    requires env'.saveOk && env'.evictOk && env'.unlinkOk
    ensures var (s', reply) := Creating(w, s, name, dsl, env);
      && reply == Created(env.freshId)
      && PolicyOf(s'.registry, env.freshId) == Some(Truncated(dsl.value))
      && Deleting(w, s', Some(env.freshId), env') == (s, Done)
  {
    CreatingIs(w, s, name, dsl, env);
    var entry := RegistryEntry(env.freshId, name.value, dsl.value);
    FindSnoc(s.registry, entry, env.freshId);
    Unmade(s.keychain, env.freshId, env.master);
    DeletingLast(w, s, entry, Creating(w, s, name, dsl, env).0, env');
  }

  lemma Unmade<K, V>(m: map<K, V>, k: K, v: V)
    requires k !in m
    ensures m[k := v] - {k} == m
  {
  }

  // ---- what is kept -----------------------------------------------------------------

  function KeyOf(w: World, s: State, vid: string): (key: Option<Bytes>) {
    if vid in s.keychain && PolicyOf(s.registry, vid).Some?
    then Some(w.derive(s.keychain[vid], PolicyOf(s.registry, vid).value, vid))
    else None
  }

  /** The first 64 KiB of a file, or all of a shorter one. */
  function FirstPart(content: Bytes): (plain: Bytes)
    ensures plain <= content && |plain| == if |content| < 65536 then |content| else 65536
    ensures |content| <= 65536 ==> plain == content
  {
    content[..if |content| < 65536 then |content| else 65536]
  }

  /** A sealed entry opens under the key to the first 64 KiB of what was added. */
  predicate Holds(w: World, key: Bytes, entry: SealedEntry, added: Added) {
    entry.name == Some(added.path) && Opened(w, key, entry) == Some(FirstPart(added.content))
  }

  predicate AllHold(w: World, key: Bytes, entries: seq<SealedEntry>, added: seq<Added>) {
    |entries| == |added| && forall i :: 0 <= i < |entries| ==> Holds(w, key, entries[i], added[i])
  }

  /** The vault, if it is registered, has its key, and its index holds all that was added, in
      order, under the key of its current policy. */
  predicate IsKept(w: World, s: State, added: seq<Added>, vid: string) {
    PolicyOf(s.registry, vid).Some? ==>
      KeyOf(w, s, vid).Some? && vid != "" && AllHold(w, KeyOf(w, s, vid).value, Index(s, vid), added)
  }

  predicate IsSound(w: World, s: State, added: seq<Added>, vid: string) {
    HasUniqueIds(s.registry) && IsKept(w, s, added, vid)
  }

  lemma SealedHolds(w: World, key: Bytes, path: string, nonce: Bytes, content: Bytes)
    requires Lawful(w) && |nonce| == 24
    ensures Holds(w, key, Sealed(w, key, path, nonce, Head(content)), Added(path, content))
  {
    var plain := FirstPart(content);
    var ct := w.seal(key, nonce, plain);
    assert w.open(key, nonce, ct) == Some(plain) && |ct| == |plain| + 16;
    RoundTrip(nonce, 24);
    RoundTrip(ct, |Encoded(ct)| / 2);
  }

  /** Changes elsewhere: the vault's policy, key and index stay. */
  lemma OthersAreKept(w: World, s: State, s': State, added: seq<Added>, vid: string)
    requires IsKept(w, s, added, vid) && PolicyOf(s'.registry, vid) == PolicyOf(s.registry, vid)
    requires vid in s.keychain ==> vid in s'.keychain && s'.keychain[vid] == s.keychain[vid]
    requires Index(s', vid) == Index(s, vid)
    ensures IsKept(w, s', added, vid)
  {
  }

  /** Over a registry that reads back empty, the new entry is the only one. */
  lemma CreatingKeeps(w: World, s: State, name: Option<string>, dsl: Option<string>, env: Env,
                      added: seq<Added>, vid: string)
    requires IsSound(w, s, added, vid)
    requires IsNewId(s, env.freshId) && (vid == env.freshId ==> added == [])
    ensures IsSound(w, Creating(w, s, name, dsl, env).0, added, vid)
  {
    var (s', reply) := Creating(w, s, name, dsl, env);
    if reply.Created? {
      var entry := RegistryEntry(env.freshId, name.value, dsl.value);
      AppendedEntryKeeps(w, s, s', Loaded(w, s.registry), entry, added, vid);
    } else {
      OthersAreKept(w, s, s', added, vid);
    }
  }

  lemma AppendedEntryKeeps(w: World, s: State, s': State, kept: seq<RegistryEntry>, entry: RegistryEntry,
                           added: seq<Added>, vid: string)
    requires IsSound(w, s, added, vid) && (kept == s.registry || kept == [])
    requires PolicyOf(s.registry, entry.vaultId) == None && entry.vaultId != ""
    requires s'.registry == kept + [entry] && s'.files == s.files && entry.vaultId in s'.keychain
    requires vid in s.keychain ==> vid in s'.keychain && s'.keychain[vid] == s.keychain[vid]
    requires vid == entry.vaultId ==> added == [] && Index(s, vid) == []
    ensures IsSound(w, s', added, vid)
  {
    UniqueSnoc(kept, entry);
    FindSnoc(kept, entry, vid);
    if vid != entry.vaultId && kept == s.registry {
      OthersAreKept(w, s, s', added, vid);
    }
  }

  lemma WithoutKeeps(w: World, s: State, s': State, i: nat, added: seq<Added>, vid: string)
    requires IsSound(w, s, added, vid) && i < |s.registry| && s'.registry == Without(s.registry, i)
    requires vid != s.registry[i].vaultId ==>
      && Index(s', vid) == Index(s, vid)
      && (vid in s.keychain ==> vid in s'.keychain && s'.keychain[vid] == s.keychain[vid])
    ensures IsSound(w, s', added, vid)
  {
    UniqueWithout(s.registry, i);
    PolicyWithout(s.registry, i, vid);
    if vid != s.registry[i].vaultId {
      OthersAreKept(w, s, s', added, vid);
    }
  }

  /** What a deletion leaves of the other vaults. */
  lemma DeletingIs(w: World, s: State, gone: Option<string>, env: Env, vid: string)
    requires Deleting(w, s, gone, env).1 == Done
    ensures gone.Some? && Find(s.registry, gone.value) < |s.registry|
    ensures var s' := Deleting(w, s, gone, env).0;
      && s'.registry == Without(s.registry, Find(s.registry, gone.value))
      && (vid != gone.value ==>
            Index(s', vid) == Index(s, vid) &&
            (vid in s.keychain ==> vid in s'.keychain && s'.keychain[vid] == s.keychain[vid]))
  {
  }

  lemma DeletingKeeps(w: World, s: State, gone: Option<string>, env: Env, added: seq<Added>, vid: string)
    requires IsSound(w, s, added, vid)
    ensures IsSound(w, Deleting(w, s, gone, env).0, added, vid)
  {
    if Deleting(w, s, gone, env).1 == Done {
      DeletingIs(w, s, gone, env, vid);
      WithoutKeeps(w, s, Deleting(w, s, gone, env).0, Find(s.registry, gone.value), added, vid);
    }
  }

  /** What a new policy leaves of everything else. */
  lemma RewritingIs(w: World, s: State, changed: string, dsl: string, env: Env)
    requires Rewriting(w, s, changed, dsl, env).1 == Done
    ensures Find(s.registry, changed) < |s.registry| && LoadedIndex(w, s, changed) == []
    ensures var s', i := Rewriting(w, s, changed, dsl, env).0, Find(s.registry, changed);
      && s'.registry == s.registry[i := s.registry[i].(policyDsl := dsl)]
      && s'.keychain == s.keychain && s'.files == s.files
  {
  }

  /** A vault that holds sealed files keeps its policy; one that holds none loses nothing. */
  lemma RewritingKeeps(w: World, s: State, changed: string, dsl: string, env: Env, added: seq<Added>, vid: string)
    requires IsSound(w, s, added, vid) && (vid == changed ==> ReadsBack(w, s, vid))
    ensures IsSound(w, Rewriting(w, s, changed, dsl, env).0, added, vid)
  {
    var (s', reply) := Rewriting(w, s, changed, dsl, env);
    if reply == Done {
      RewritingIs(w, s, changed, dsl, env);
      ReplacedKeeps(w, s, s', Find(s.registry, changed), dsl, added, vid);
    }
  }

  lemma ReplacedKeeps(w: World, s: State, s': State, i: nat, dsl: string, added: seq<Added>, vid: string)
    requires IsSound(w, s, added, vid) && i < |s.registry|
    requires s'.registry == s.registry[i := s.registry[i].(policyDsl := dsl)]
    requires s'.keychain == s.keychain && s'.files == s.files && (vid == s.registry[i].vaultId ==> Index(s, vid) == [])
    ensures IsSound(w, s', added, vid)
  {
    var entry := s.registry[i].(policyDsl := dsl);
    UniqueUpdate(s.registry, i, entry);
    FindUpdate(s.registry, i, entry, vid);
    if vid != s.registry[i].vaultId {
      OthersAreKept(w, s, s', added, vid);
    }
  }

  lemma AppendedHold(
    w: World, key: Bytes, entries: seq<SealedEntry>, added: seq<Added>, entry: SealedEntry, more: Added)
    requires AllHold(w, key, entries, added) && Holds(w, key, entry, more)
    ensures AllHold(w, key, entries + [entry], added + [more])
  {
  }

  /** What adding a file to this vault adds to the record. */
  function Recorded(w: World, s: State, to: Option<string>, path: Option<string>, env: Env, vid: string): seq<Added> {
    if Adding(w, s, to, path, env).1 == Done && to == Some(vid) && path.Some? && env.source.Some?
    then [Added(path.value, env.source.value)] else []
  }

  lemma AppendingKeeps(w: World, s: State, s': State, entry: SealedEntry, added: seq<Added>, more: Added, vid: string)
    requires IsSound(w, s, added, vid) && PolicyOf(s.registry, vid).Some?
    requires Holds(w, KeyOf(w, s, vid).value, entry, more)
    requires s'.registry == s.registry && s'.keychain == s.keychain && Index(s', vid) == Index(s, vid) + [entry]
    ensures IsSound(w, s', added + [more], vid)
  {
    AppendedHold(w, KeyOf(w, s, vid).value, Index(s, vid), added, entry, more);
  }

  lemma AddingHereKeeps(w: World, s: State, path: string, env: Env, added: seq<Added>, vid: string)
    requires Lawful(w) && IsSound(w, s, added, vid) && ReadsBack(w, s, vid) && |env.nonce| == 24
    requires Adding(w, s, Some(vid), Some(path), env).1 == Done && env.source.Some?
    ensures IsSound(w, Adding(w, s, Some(vid), Some(path), env).0, added + [Added(path, env.source.value)], vid)
  {
    var s' := Adding(w, s, Some(vid), Some(path), env).0;
    var key := KeyOf(w, s, vid).value;
    var entry := Sealed(w, key, path, env.nonce, Head(env.source.value));
    assert s'.keychain == s.keychain && Index(s', vid) == Index(s, vid) + [entry];
    SealedHolds(w, key, path, env.nonce, env.source.value);
    AppendingKeeps(w, s, s', entry, added, Added(path, env.source.value), vid);
  }

  /** Adding to another vault, or in vain. */
  lemma AddingElsewhere(w: World, s: State, to: Option<string>, path: Option<string>, env: Env, vid: string)
    requires Adding(w, s, to, path, env).1 != Done || to != Some(vid)
    ensures var s' := Adding(w, s, to, path, env).0;
      && s'.registry == s.registry && Index(s', vid) == Index(s, vid)
      && (vid in s.keychain ==> vid in s'.keychain && s'.keychain[vid] == s.keychain[vid])
  {
  }

  lemma AddingKeeps(
    w: World, s: State, to: Option<string>, path: Option<string>, env: Env, added: seq<Added>, vid: string)
    requires Lawful(w) && IsSound(w, s, added, vid) && |env.nonce| == 24
    requires to == Some(vid) ==> ReadsBack(w, s, vid)
    ensures IsSound(w, Adding(w, s, to, path, env).0, added + Recorded(w, s, to, path, env, vid), vid)
  {
    if Adding(w, s, to, path, env).1 == Done && to == Some(vid) {
      AddingHereKeeps(w, s, path.value, env, added, vid);
    } else {
      assert added + [] == added;
      AddingElsewhere(w, s, to, path, env, vid);
      OthersAreKept(w, s, Adding(w, s, to, path, env).0, added, vid);
    }
  }

  lemma OpeningKeeps(w: World, s: State, asked: string, policy: string, env: Env, added: seq<Added>, vid: string)
    requires IsSound(w, s, added, vid)
    ensures IsSound(w, Opening(w, s, asked, policy, env).0, added, vid)
  {
    OthersAreKept(w, s, Opening(w, s, asked, policy, env).0, added, vid);
  }

  function RecordedBy(w: World, s: State, op: Op, vid: string): seq<Added> {
    if op.AddFile? then Recorded(w, s, op.vid, op.path, op.env, vid) else []
  }

  lemma StepRecords(w: World, p: Past, op: Op, vid: string)
    ensures Step(w, p, op).s == Reaction(w, p.s, op).0
    ensures AddedTo(Step(w, p, op), vid) == AddedTo(p, vid) + RecordedBy(w, p.s, op, vid)
  {
  }

  lemma UnlockingKeeps(
    w: World, s: State, asked: Option<string>, env: Env, d: E.Decision, added: seq<Added>, vid: string)
    requires IsSound(w, s, added, vid)
    ensures IsSound(w, Unlocking(w, s, asked, env, d).0, added, vid)
  {
    if Unlocking(w, s, asked, env, d).0 != s {
      OpeningKeeps(w, s, asked.value, PolicyOf(Loaded(w, s.registry), asked.value).value, env, added, vid);
    }
  }

  lemma UpdatingKeeps(w: World, s: State, changed: Option<string>, dsl: Option<string>, env: Env,
                      added: seq<Added>, vid: string)
    requires IsSound(w, s, added, vid) && (changed == Some(vid) ==> ReadsBack(w, s, vid))
    ensures IsSound(w, Updating(w, s, changed, dsl, env).0, added, vid)
  {
    if Updating(w, s, changed, dsl, env).0 != s {
      RewritingKeeps(w, s, changed.value, dsl.value, env, added, vid);
    }
  }

  lemma ReactionKeeps(w: World, s: State, op: Op, added: seq<Added>, vid: string)
    requires Lawful(w) && IsSound(w, s, added, vid) && (Rewrites(op, vid) ==> ReadsBack(w, s, vid))
    requires op.Create? ==> IsNewId(s, op.env.freshId) && (vid == op.env.freshId ==> added == [])
    requires op.AddFile? ==> |op.env.nonce| == 24
    ensures IsSound(w, Reaction(w, s, op).0, added + RecordedBy(w, s, op, vid), vid)
  {
    assert added + [] == added;
    match op {
      case Create(name, dsl, env) => CreatingKeeps(w, s, name, dsl, env, added, vid);
      case Unlock(asked, env, d) => UnlockingKeeps(w, s, asked, env, d, added, vid);
      case Lock(asked) => OthersAreKept(w, s, Locking(s, asked).0, added, vid);
      case AddFile(to, path, env) => AddingKeeps(w, s, to, path, env, added, vid);
      case Delete(gone, env) => DeletingKeeps(w, s, gone, env, added, vid);
      case UpdatePolicy(changed, dsl, env) => UpdatingKeeps(w, s, changed, dsl, env, added, vid);
      case Tick(now) => OthersAreKept(w, s, Ticking(s, now), added, vid);
    }
  }

  lemma StepKeeps(w: World, p: Past, op: Op, vid: string)
    requires Lawful(w) && IsSound(w, p.s, AddedTo(p, vid), vid) && IsRandom(p, op)
    requires Rewrites(op, vid) ==> ReadsBack(w, p.s, vid)
    ensures IsSound(w, Step(w, p, op).s, AddedTo(Step(w, p, op), vid), vid)
  {
    ReactionKeeps(w, p.s, op, AddedTo(p, vid), vid);
    StepRecords(w, p, op, vid);
  }

  /** For every vault, in every run that is smooth for it: if the vault is registered, then every
      one of its sealed files opens under the key derived from its current policy, to the first
      64 KiB of what was added. */
  lemma {:induction false} NothingIsOrphaned(w: World, ops: seq<Op>, vid: string)
    requires Lawful(w) && IsSmooth(w, ops, vid)
    ensures IsSound(w, Run(w, ops).s, AddedTo(Run(w, ops), vid), vid)
  {
    if ops != [] {
      var before := ops[..|ops| - 1];
      NothingIsOrphaned(w, before, vid);
      StepKeeps(w, Run(w, before), ops[|ops| - 1], vid);
    }
  }

  // ---- what an unlock gives back ----------------------------------------------------

  /** The last part of a path is a name: not empty, nor the one or two dots that mean a directory. */
  predicate EndsInName(path: string) {
    var n := |path|;
    && n > 0 && path[n - 1] != '/'
    && !(path[n - 1] == '.' && (n == 1 || path[n - 2] == '/'))
    && !(n >= 2 && path[n - 1] == '.' && path[n - 2] == '.' && (n == 2 || path[n - 3] == '/'))
  }

  /** What comes after the last slash. */
  predicate IsLastPart(base: string, path: string) {
    && '/' !in base && |base| <= |path| && path[|path| - |base|..] == base
    && (|base| < |path| ==> path[|path| - |base| - 1] == '/')
  }

  lemma {:induction false} BasenameIsLastPart(path: string)
    ensures IsLastPart(Basename(path), path)
  {
    if path != "" && path[|path| - 1] != '/' {
      var n := |path| - 1;
      var base := Basename(path[..n]);
      BasenameIsLastPart(path[..n]);
      assert path[n - |base|..] == path[..n][n - |base|..] + [path[n]];
    }
  }

  lemma NameIsPlain(path: string)
    ensures IsPlain(Basename(path)) <==> EndsInName(path)
  {
    var n := |path|;
    if n > 0 && path[n - 1] != '/' {
      var p := path[..n - 1];
      assert Basename(path) == Basename(p) + [path[n - 1]];
      if n > 1 && p[n - 2] != '/' {
        assert Basename(p) == Basename(p[..n - 2]) + [p[n - 2]];
        BasenameIsEmpty(p[..n - 2]);
        TwoMore(Basename(p[..n - 2]), p[n - 2], path[n - 1]);
      } else {
        BasenameIsEmpty(p);
        assert Basename(path) == [path[n - 1]];
      }
    }
  }

  lemma TwoMore(a: string, c: char, d: char)
    ensures IsPlain(a + [c] + [d]) <==> !(a == "" && c == '.' && d == '.')
  {
    var s := a + [c] + [d];
    assert s[|s| - 1] == d && s[|s| - 2] == c;
    if a == "" && c == '.' && d == '.' {
      assert s == "..";
    }
  }

  lemma BasenameIsEmpty(path: string)
    ensures Basename(path) == "" <==> path == "" || path[|path| - 1] == '/'
  {
  }

  /** The mount writes a file under the last part of its path, so that part must be a name. */
  predicate IsMountable(added: seq<Added>, k: nat)
    requires k <= |added|
  {
    k == 0 || (IsMountable(added, k - 1) && EndsInName(added[k - 1].path))
  }

  /** The first `k` files that were added, under the last parts of their paths. */
  function MountOf(added: seq<Added>, k: nat): map<string, Bytes>
    requires k <= |added|
  {
    if k == 0 then map[] else MountOf(added, k - 1)[Basename(added[k - 1].path) := FirstPart(added[k - 1].content)]
  }

  /** What a mount becomes when they are opened into it. */
  function Restored(added: seq<Added>, content: map<string, Bytes>, k: nat): Option<map<string, Bytes>>
    requires k <= |added|
  {
    if IsMountable(added, k) then Some(content + MountOf(added, k)) else None
  }

  lemma {:induction false} OpenedToIs(w: World, key: Bytes, entries: seq<SealedEntry>, added: seq<Added>,
                                      content: map<string, Bytes>, env: Env, k: nat)
    requires AllHold(w, key, entries, added) && k <= |added| && env.putFails == {}
    ensures OpenedTo(w, key, entries, content, env, k) == Restored(added, content, k)
  {
    if k == 0 {
      assert content + map[] == content;
    } else {
      OpenedToIs(w, key, entries, added, content, env, k - 1);
      assert Holds(w, key, entries[k - 1], added[k - 1]);
      RestoredNext(w, key, entries[k - 1], added, content, env, k);
    }
  }

  lemma RestoredNext(w: World, key: Bytes, entry: SealedEntry, added: seq<Added>,
                     content: map<string, Bytes>, env: Env, k: nat)
    requires 0 < k <= |added| && Holds(w, key, entry, added[k - 1]) && env.putFails == {}
    ensures Restored(added, content, k) ==
      if Restored(added, content, k - 1) == None then None
      else OpenedInto(w, key, entry, k - 1, Restored(added, content, k - 1).value, env)
  {
    OpenedNext(w, key, entry, added[k - 1], k - 1, content + MountOf(added, k - 1), env);
    MergedUpdate(content, MountOf(added, k - 1), Basename(added[k - 1].path), FirstPart(added[k - 1].content));
  }

  lemma MergedUpdate<K, V>(a: map<K, V>, b: map<K, V>, k: K, v: V)
    ensures (a + b)[k := v] == a + b[k := v]
  {
  }

  lemma OpenedNext(
    w: World, key: Bytes, entry: SealedEntry, added: Added, i: nat, content: map<string, Bytes>, env: Env)
    requires Holds(w, key, entry, added) && env.putFails == {}
    ensures OpenedInto(w, key, entry, i, content, env) ==
      if EndsInName(added.path) then Some(content[Basename(added.path) := FirstPart(added.content)]) else None
  {
    NameIsPlain(added.path);
  }

  predicate AllGoesWell(env: Env) {
    env.keychainOk && env.deriveOk && env.mountOk && env.putFails == {}
  }

  lemma FillingIs(
    w: World, s: State, vid: string, key: Bytes, env: Env, content: Option<map<string, Bytes>>)
    requires ReadsBack(w, s, vid)
    requires content == OpenedTo(w, key, Index(s, vid), Content(s.mounts, vid), env, |Index(s, vid)|)
    ensures var (s', reply) := Filling(w, s, vid, key, env);
      if content.Some?
      then reply == Unlocked(|Index(s, vid)|) && s'.mounts == s.mounts[vid := content.value]
      else reply == Denied(Integrity)
  {
    assert LoadedIndex(w, s, vid) == Index(s, vid);
  }

  lemma FillingRestores(w: World, s: State, vid: string, key: Bytes, env: Env, added: seq<Added>)
    requires AllHold(w, key, Index(s, vid), added) && ReadsBack(w, s, vid) && env.putFails == {}
    ensures var (s', reply) := Filling(w, s, vid, key, env);
      if IsMountable(added, |added|)
      then reply == Unlocked(|added|) && s'.mounts == s.mounts[vid := Content(s.mounts, vid) + MountOf(added, |added|)]
      else reply == Denied(Integrity)
  {
    var content := Restored(added, Content(s.mounts, vid), |added|);
    OpenedToIs(w, key, Index(s, vid), added, Content(s.mounts, vid), env, |added|);
    FillingIs(w, s, vid, key, env, content);
  }

  lemma OpeningFills(w: World, s: State, vid: string, env: Env, added: seq<Added>)
    requires IsSound(w, s, added, vid) && AllGoesWell(env) && PolicyOf(s.registry, vid).Some?
    ensures Opening(w, s, vid, PolicyOf(s.registry, vid).value, env) == Filling(w, s, vid, KeyOf(w, s, vid).value, env)
  {
  }

  lemma UnlockingOpens(w: World, s: State, vid: string, env: Env)
    requires RegistryFits(w, s) && PolicyOf(s.registry, vid).Some? && vid != "" && (s.openId == "" || s.openId == vid)
    ensures Unlocking(w, s, Some(vid), env, E.Allow) == Opening(w, s, vid, PolicyOf(s.registry, vid).value, env)
  {
  }

  /** Where an unlock that the policy allows and the system supports starts from: the end of a
      smooth run, with the vault registered, no other open, and both files read back whole. */
  ghost predicate IsReady(w: World, ops: seq<Op>, vid: string) {
    var s := Run(w, ops).s;
    && Lawful(w) && IsSmooth(w, ops, vid) && RegistryFits(w, s) && ReadsBack(w, s, vid)
    && PolicyOf(s.registry, vid).Some? && (s.openId == "" || s.openId == vid)
  }

  /** Such an unlock gives back the first 64 KiB of every file that was added, the last of those
      with the same name, exactly if every path ends in a name. */
  lemma UnlockRestores(w: World, ops: seq<Op>, vid: string, env: Env)
    requires IsReady(w, ops, vid) && AllGoesWell(env)
    ensures var s, added := Run(w, ops).s, AddedTo(Run(w, ops), vid);
      var (s', reply) := Unlocking(w, s, Some(vid), env, E.Allow);
      if IsMountable(added, |added|)
      then reply == Unlocked(|added|) && s'.mounts == s.mounts[vid := Content(s.mounts, vid) + MountOf(added, |added|)]
      else reply == Denied(Integrity)
  {
    var s, added := Run(w, ops).s, AddedTo(Run(w, ops), vid);
    NothingIsOrphaned(w, ops, vid);
    UnlockingOpens(w, s, vid, env);
    OpeningFills(w, s, vid, env, added);
    FillingRestores(w, s, vid, KeyOf(w, s, vid).value, env, added);
  }

  /** Over runs: an unlock of the vault that is already open and mounted takes its mount, and
      leaves it open, exactly if some path that was added does not end in a name. */
  lemma ReunlockTakesTheMount(w: World, ops: seq<Op>, vid: string, env: Env)
    requires IsReady(w, ops, vid) && AllGoesWell(env) && Run(w, ops).s.openId == vid && vid in Run(w, ops).s.mounts
    ensures var s, added := Run(w, ops).s, AddedTo(Run(w, ops), vid);
      var s' := Unlocking(w, s, Some(vid), env, E.Allow).0;
      s'.openId == vid && (vid !in s'.mounts <==> !IsMountable(added, |added|))
  {
    UnlockRestores(w, ops, vid, env);
    NothingIsOrphaned(w, ops, vid);
    ReunlockIs(w, Run(w, ops).s, env, E.Allow);
  }

  /** What was added stays on the record. */
  lemma {:induction false} AddedPersists(w: World, ops: seq<Op>, more: seq<Op>, vid: string)
    ensures AddedTo(Run(w, ops), vid) <= AddedTo(Run(w, ops + more), vid)
    decreases |more|
  {
    if more == [] {
      assert ops + more == ops;
    } else {
      var n := |more| - 1;
      AddedPersists(w, ops, more[..n], vid);
      assert (ops + more)[..|ops + more| - 1] == ops + more[..n];
      assert (ops + more)[|ops + more| - 1] == more[n];
      RecordGrows(w, Run(w, ops + more[..n]), more[n], vid);
    }
  }

  lemma RecordGrows(w: World, p: Past, op: Op, vid: string)
    ensures AddedTo(p, vid) <= AddedTo(Step(w, p, op), vid)
  {
  }

  lemma {:induction false} UnmountableStays(added: seq<Added>, longer: seq<Added>, j: nat, k: nat)
    requires added <= longer && j <= |added| && j <= k <= |longer| && !IsMountable(added, j)
    ensures !IsMountable(longer, k)
    decreases j, k
  {
    if j < k {
      UnmountableStays(added, longer, j, k - 1);
    } else if !IsMountable(added, j - 1) {
      UnmountableStays(added, longer, j - 1, k - 1);
    }
  }

  lemma {:induction false} UnmountableFails(w: World, key: Bytes, entries: seq<SealedEntry>, added: seq<Added>,
                                            content: map<string, Bytes>, env: Env, k: nat)
    requires AllHold(w, key, entries, added) && k <= |added| && !IsMountable(added, k)
    ensures OpenedTo(w, key, entries, content, env, k) == None
  {
    if !IsMountable(added, k - 1) {
      UnmountableFails(w, key, entries, added, content, env, k - 1);
    } else {
      assert Holds(w, key, entries[k - 1], added[k - 1]);
      NameIsPlain(added[k - 1].path);
    }
  }

  lemma UnmountableIsDenied(w: World, s: State, vid: string, env: Env, d: E.Decision, added: seq<Added>)
    requires IsSound(w, s, added, vid) && RegistryFits(w, s) && ReadsBack(w, s, vid) && PolicyOf(s.registry, vid).Some?
    requires !IsMountable(added, |added|)
    ensures !Unlocking(w, s, Some(vid), env, d).1.Unlocked?
  {
    UnmountableFails(w, KeyOf(w, s, vid).value, Index(s, vid), added, Content(s.mounts, vid), env, |added|);
  }

  /** Once a path that does not end in a name was added, no later unlock goes through, whatever
      the world answers and the policy decides. */
  lemma NeverUnlockedAgain(w: World, ops: seq<Op>, more: seq<Op>, vid: string, env: Env, d: E.Decision)
    requires !IsMountable(AddedTo(Run(w, ops), vid), |AddedTo(Run(w, ops), vid)|)
    requires IsReady(w, ops + more, vid)
    ensures !Unlocking(w, Run(w, ops + more).s, Some(vid), env, d).1.Unlocked?
  {
    var added, longer := AddedTo(Run(w, ops), vid), AddedTo(Run(w, ops + more), vid);
    AddedPersists(w, ops, more, vid);
    UnmountableStays(added, longer, |added|, |longer|);
    NothingIsOrphaned(w, ops + more, vid);
    UnmountableIsDenied(w, Run(w, ops + more).s, vid, env, d, longer);
  }

  // ---- what does not fit ------------------------------------------------------------

  /** The guard of policy.update sees the sealed files of a vault exactly if their index fits: an
      oversized one reads back as empty, and the policy is replaced over it. */
  lemma UpdateRefusesIffFits(w: World, s: State, vid: string, dsl: string, env: Env)
    requires w.registrySize(s.registry) <= 65535 && PolicyOf(s.registry, vid).Some? && env.saveOk
    ensures var (s', reply) := Rewriting(w, s, vid, dsl, env);
      if Index(s, vid) != [] && w.indexSize(Index(s, vid)) <= 8388607
      then reply == NotDone(VaultNotEmpty) && s' == s
      else reply == Done && PolicyOf(s'.registry, vid) == Some(Truncated(dsl)) && Index(s', vid) == Index(s, vid)
  {
    if Rewriting(w, s, vid, dsl, env).1 == Done {
      var i := Find(s.registry, vid);
      FindUpdate(s.registry, i, s.registry[i].(policyDsl := dsl), vid);
    }
  }

  /** A file that is added leaves the vault's earlier ones in the index exactly if the index is
      read back whole; otherwise it is the only one left. */
  lemma AddKeepsIffFits(w: World, s: State, vid: string, path: string, env: Env)
    requires Adding(w, s, Some(vid), Some(path), env).1 == Done
    ensures var index := Index(Adding(w, s, Some(vid), Some(path), env).0, vid);
      && (Index(s, vid) <= index && |index| == |Index(s, vid)| + 1 <==> ReadsBack(w, s, vid))
      && (!ReadsBack(w, s, vid) ==> |index| == 1)
  {
  }

  /** A new vault leaves the registry's earlier entries in place exactly if the registry fits. */
  lemma CreateKeepsIffFits(w: World, s: State, name: Option<string>, dsl: Option<string>, env: Env)
    requires Creating(w, s, name, dsl, env).1.Created? && s.registry != [] && PolicyOf(s.registry, env.freshId) == None
    ensures s.registry <= Creating(w, s, name, dsl, env).0.registry <==> w.registrySize(s.registry) <= 65535
  {
    assert s.registry[0].vaultId != env.freshId;
    var entry := RegistryEntry(env.freshId, name.value, dsl.value);
    assert ([] + [entry])[0] == entry;
  }
}
