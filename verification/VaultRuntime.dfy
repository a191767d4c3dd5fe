/** The VAULT runtime: one open vault over a registry, a keychain, sealed-file indexes and a mount,
    with an automatic relock. Cryptography and the outside world are parameters. */
module VaultRuntime {
  import opened Options
  import opened VaultHex
  import VaultParser
  import E = VaultEvaluator

  const RELOCK_SECONDS: int := 900
  const MAX_FILE: nat := 65536
  const REGISTRY_BUFFER: nat := 65535
  const INDEX_BUFFER: nat := 8388607
  const POLICY_BUFFER: nat := 4095
  const NONCE_BYTES: nat := 24
  const TAG_BYTES: nat := 16

  datatype RegistryEntry = RegistryEntry(vaultId: string, name: string, policyDsl: string)

  /** An entry of a sealed-file index as read back; a field that is no string is None. */
  datatype SealedEntry = SealedEntry(name: Option<string>, nonce: Option<string>, ct: Option<string>)

  /** What never changes: the cryptography, and the sizes of the two files when printed. */
  datatype World = World(
    derive: (Bytes, string, string) -> Bytes,
    seal: (Bytes, Bytes, Bytes) -> Bytes,
    open: (Bytes, Bytes, Bytes) -> Option<Bytes>,
    registrySize: seq<RegistryEntry> -> nat,
    indexSize: seq<SealedEntry> -> nat)

  /** What the outside world answers to one command: fresh random values, the clock, the policy
      context, the file to add, and which of the foreign calls succeed. */
  datatype Env = Env(
    freshId: string, master: Bytes, nonce: Bytes,
    now: int, context: E.Context, source: Option<Bytes>,
    keychainOk: bool, deriveOk: bool, sealOk: bool, mountOk: bool, saveOk: bool,
    unlinkOk: bool, evictOk: bool, putFails: set<nat>)

  datatype State = State(
    openId: string,
    relockAt: int,
    registry: seq<RegistryEntry>,
    keychain: map<string, Bytes>,
    files: map<string, seq<SealedEntry>>,
    mounts: map<string, map<string, Bytes>>)

  const INITIAL := State("", 0, [], map[], map[], map[])

  datatype Reason =
    | AnotherVaultOpen | NoSuchVault | KeyUnavailable | MountFailed | Integrity | ByPolicy
    | NotOpen | VaultNotEmpty

  datatype Reply =
    | Done
    | Created(vaultId: string)
    | Unlocked(files: nat)
    | Deferred(seconds: int)
    | Denied(reason: Reason)
    | NotDone(reason: Reason)
    | Failed(code: int)

  const INVALID_PARAMS: int := -32602
  const SERVER_ERROR: int := -32000
  const PRECONDITION_FAILED: int := -31004

  // ---- reading the files ------------------------------------------------------------

  /** A registry that does not fit the buffer does not parse, and reads back as empty. */
  function Loaded(w: World, registry: seq<RegistryEntry>): seq<RegistryEntry> {
    if w.registrySize(registry) <= REGISTRY_BUFFER then registry else []
  }

  function Index(s: State, vid: string): seq<SealedEntry> {
    if vid in s.files then s.files[vid] else []
  }

  /** So does an index. */
  function LoadedIndex(w: World, s: State, vid: string): seq<SealedEntry> {
    if w.indexSize(Index(s, vid)) <= INDEX_BUFFER then Index(s, vid) else []
  }

  /** The position of the first entry with that id, or the length. */
  function Find(registry: seq<RegistryEntry>, vid: string): (i: nat)
    ensures i <= |registry| && (i < |registry| ==> registry[i].vaultId == vid)
  {
    if registry == [] || registry[0].vaultId == vid then 0 else 1 + Find(registry[1..], vid)
  }

  function Truncated(text: string): string {
    if |text| <= POLICY_BUFFER then text else text[..POLICY_BUFFER]
  }

  /** What find_policy copies: the start of the policy of the first entry with that id. */
  function PolicyOf(registry: seq<RegistryEntry>, vid: string): Option<string> {
    var i := Find(registry, vid);
    if i == |registry| then None else Some(Truncated(registry[i].policyDsl))
  }

  // ---- keys and sealed entries ------------------------------------------------------

  function LoadOrCreate(keychain: map<string, Bytes>, vid: string, env: Env): (map<string, Bytes>, Option<Bytes>) {
    if !env.keychainOk then (keychain, None)
    else if vid in keychain then (keychain, Some(keychain[vid]))
    else (keychain[vid := env.master], Some(env.master))
  }

  function Deriving(w: World, keychain: map<string, Bytes>, vid: string, policy: string, env: Env):
    (map<string, Bytes>, Option<Bytes>)
  {
    var (keychain', master) := LoadOrCreate(keychain, vid, env);
    (keychain', if master == None || !env.deriveOk then None else Some(w.derive(master.value, policy, vid)))
  }

  /** The plaintext of a sealed entry, or None if it is malformed or does not verify. */
  function Opened(w: World, key: Bytes, entry: SealedEntry): Option<Bytes> {
    if entry.nonce == None || entry.ct == None then None
    else
      var nonce, ct := Decoded(entry.nonce.value, NONCE_BYTES), Decoded(entry.ct.value, |entry.ct.value| / 2);
      if nonce == None || |nonce.value| != NONCE_BYTES then None
      else if |entry.ct.value| / 2 < TAG_BYTES || ct == None then None
      else w.open(key, nonce.value, ct.value)
  }

  /** The part of a path after its last slash. */
  function Basename(path: string): string {
    if path == "" || path[|path| - 1] == '/' then "" else Basename(path[..|path| - 1]) + [path[|path| - 1]]
  }

  predicate IsPlain(base: string) {
    base != "" && base != "." && base != ".."
  }

  function NameOf(entry: SealedEntry): string {
    if entry.name == None then "file" else entry.name.value
  }

  /** The mount after entry `i` was opened into it, if that went well. */
  function OpenedInto(w: World, key: Bytes, entry: SealedEntry, i: nat, content: map<string, Bytes>, env: Env):
    Option<map<string, Bytes>>
  {
    var plain, base := Opened(w, key, entry), Basename(NameOf(entry));
    if plain == None || !IsPlain(base) || i in env.putFails then None else Some(content[base := plain.value])
  }

  /** The mount after the first `k` entries were opened into it, if all of them were. */
  function OpenedTo(w: World, key: Bytes, entries: seq<SealedEntry>, content: map<string, Bytes>, env: Env, k: nat):
    Option<map<string, Bytes>>
    requires k <= |entries|
  {
    if k == 0 then Some(content)
    else
      var before := OpenedTo(w, key, entries, content, env, k - 1);
      if before == None then None else OpenedInto(w, key, entries[k - 1], k - 1, before.value, env)
  }

  // ---- the commands -----------------------------------------------------------------

  function Ticking(s: State, now: int): State {
    if s.relockAt != 0 && now >= s.relockAt then Closed(s, s.openId) else s
  }

  /** The mount of that vault gone, and nothing open. */
  function Closed(s: State, vid: string): State {
    s.(openId := "", relockAt := 0, mounts := s.mounts - {vid})
  }

  function Creating(w: World, s: State, name: Option<string>, dsl: Option<string>, env: Env): (State, Reply) {
    if name == None || name.value == "" || dsl == None || VaultParser.Parse(dsl.value) == None then
      (s, Failed(INVALID_PARAMS))
    else
      var (keychain, master) := LoadOrCreate(s.keychain, env.freshId, env);
      if master == None then (s, Failed(SERVER_ERROR))
      else if !env.saveOk then (s.(keychain := keychain), Failed(SERVER_ERROR))
      else
        var entry := RegistryEntry(env.freshId, name.value, dsl.value);
        (s.(keychain := keychain, registry := Loaded(w, s.registry) + [entry]), Created(env.freshId))
  }

  /** What is in the mount of a vault, if it has one. */
  function Content(mounts: map<string, map<string, Bytes>>, vid: string): map<string, Bytes> {
    if vid in mounts then mounts[vid] else map[]
  }

  function Opening(w: World, s: State, vid: string, policy: string, env: Env): (State, Reply) {
    var (keychain, key) := Deriving(w, s.keychain, vid, policy, env);
    var s' := s.(keychain := keychain);
    if key == None then (s', Denied(KeyUnavailable))
    else if vid !in s.mounts && !env.mountOk then (s', Denied(MountFailed))
    else Filling(w, s', vid, key.value, env)
  }

  /** The sealed files opened into the mount. If one cannot be, the mount is ended, but a vault
      that was open stays open. */
  function Filling(w: World, s: State, vid: string, key: Bytes, env: Env): (State, Reply) {
    var entries := LoadedIndex(w, s, vid);
    var content := OpenedTo(w, key, entries, Content(s.mounts, vid), env, |entries|);
    if content == None then (s.(mounts := s.mounts - {vid}), Denied(Integrity))
    else
      (s.(mounts := s.mounts[vid := content.value], openId := vid, relockAt := env.now + RELOCK_SECONDS),
       Unlocked(|entries|))
  }

  /** `d` is what the policy decides. */
  function Unlocking(w: World, s: State, vid: Option<string>, env: Env, d: E.Decision): (State, Reply) {
    if vid == None || vid.value == "" then (s, Failed(INVALID_PARAMS))
    else if s.openId != "" && s.openId != vid.value then (s, Denied(AnotherVaultOpen))
    else
      var policy := PolicyOf(Loaded(w, s.registry), vid.value);
      if policy == None then (s, Denied(NoSuchVault))
      else
        match d
        case Allow => Opening(w, s, vid.value, policy.value, env)
        case Defer(seconds) => (s, Deferred(seconds))
        case Deny => (s, Denied(ByPolicy))
  }

  /** If unlock comes to consult the policy, then `d` is what it decides. */
  ghost predicate Decided(w: World, s: State, vid: Option<string>, env: Env, d: E.Decision)
    requires E.ValidClock(env.context)
  {
    vid.Some? && vid.value != "" && (s.openId == "" || s.openId == vid.value) &&
    PolicyOf(Loaded(w, s.registry), vid.value).Some? ==>
      E.PolicyDecides(PolicyOf(Loaded(w, s.registry), vid.value).value, env.context, d)
  }

  function Locking(s: State, vid: Option<string>): (State, Reply) {
    if s.openId != "" && (vid == None || vid.value == s.openId) then (Closed(s, s.openId), Done)
    else (s, NotDone(NotOpen))
  }

  /** The sealed form of a plaintext. */
  function Sealed(w: World, key: Bytes, path: string, nonce: Bytes, plain: Bytes): SealedEntry {
    SealedEntry(Some(path), Some(Encoded(nonce)), Some(Encoded(w.seal(key, nonce, plain))))
  }

  function Head(content: Bytes): Bytes {
    if |content| <= MAX_FILE then content else content[..MAX_FILE]
  }

  function Adding(w: World, s: State, vid: Option<string>, path: Option<string>, env: Env): (State, Reply) {
    if vid == None || path == None then (s, Failed(INVALID_PARAMS))
    else if s.openId != vid.value then (s, Failed(PRECONDITION_FAILED))
    else
      var policy := PolicyOf(Loaded(w, s.registry), vid.value);
      if policy == None || env.source == None then (s, Failed(INVALID_PARAMS))
      else
        var (keychain, key) := Deriving(w, s.keychain, vid.value, policy.value, env);
        var s' := s.(keychain := keychain);
        if key == None then (s', Failed(PRECONDITION_FAILED))
        else if !env.sealOk || !env.saveOk then (s', Failed(SERVER_ERROR))
        else
          var entry := Sealed(w, key.value, path.value, env.nonce, Head(env.source.value));
          (s'.(files := s.files[vid.value := LoadedIndex(w, s, vid.value) + [entry]]), Done)
  }

  /** Registry, keychain, mount and index, in that order; the last three as far as they go. */
  function Deleting(w: World, s: State, vid: Option<string>, env: Env): (State, Reply) {
    if vid == None then (s, Failed(INVALID_PARAMS))
    else
      var registry := Loaded(w, s.registry);
      var i := Find(registry, vid.value);
      if i == |registry| then (s, NotDone(NoSuchVault))
      else if !env.saveOk then (s, Failed(SERVER_ERROR))
      else
        var s' := s.(registry := registry[..i] + registry[i + 1..],
                     keychain := if env.evictOk then s.keychain - {vid.value} else s.keychain,
                     mounts := s.mounts - {vid.value},
                     files := if env.unlinkOk then s.files - {vid.value} else s.files);
        (if s.openId == vid.value then Closed(s', vid.value) else s', Done)
  }

  function Updating(w: World, s: State, vid: Option<string>, dsl: Option<string>, env: Env): (State, Reply) {
    if vid == None || dsl == None || VaultParser.Parse(dsl.value) == None then (s, Failed(INVALID_PARAMS))
    else Rewriting(w, s, vid.value, dsl.value, env)
  }

  /** The part of policy.update after the new policy was found to parse. */
  function Rewriting(w: World, s: State, vid: string, dsl: string, env: Env): (State, Reply) {
    var registry := Loaded(w, s.registry);
    var i := Find(registry, vid);
    if i == |registry| then (s, NotDone(NoSuchVault))
    else if LoadedIndex(w, s, vid) != [] then (s, NotDone(VaultNotEmpty))
    else if !env.saveOk then (s, Failed(SERVER_ERROR))
    else
      var s' := s.(registry := registry[i := registry[i].(policyDsl := dsl)]);
      (if s.openId == vid then Closed(s', vid) else s', Done)
  }

  // ---- the object -------------------------------------------------------------------

  class Runtime {
    const world: World
    var openVaultId: string
    var relockAt: int
    var registry: seq<RegistryEntry>
    var keychain: map<string, Bytes>
    var files: map<string, seq<SealedEntry>>
    var mounts: map<string, map<string, Bytes>>

    ghost function Abstract(): State
      reads this
    {
      State(openVaultId, relockAt, registry, keychain, files, mounts)
    }

    constructor (world: World)
      ensures this.world == world && Abstract() == INITIAL
    {
      this.world := world;
      openVaultId, relockAt, registry := "", 0, [];
      keychain, files, mounts := map[], map[], map[];
    }

    method Tick(now: int)
      modifies this
      ensures Abstract() == Ticking(old(Abstract()), now)
    {
      if relockAt != 0 && now >= relockAt {
        Close(openVaultId);
      }
    }

    /** Ends the mount of that vault and clears the open vault and its timer. */
    method Close(vid: string)
      modifies this`openVaultId, this`relockAt, this`mounts
      ensures Abstract() == Closed(old(Abstract()), vid)
    {
      mounts := mounts - {vid};
      openVaultId := "";
      relockAt := 0;
    }

    method LoadRegistry() returns (r: seq<RegistryEntry>)
      ensures r == Loaded(world, registry)
    {
      r := if world.registrySize(registry) <= REGISTRY_BUFFER then registry else [];
    }

    method LoadIndex(vid: string) returns (r: seq<SealedEntry>)
      ensures r == LoadedIndex(world, Abstract(), vid)
    {
      r := if vid in files then files[vid] else [];
      if world.indexSize(r) > INDEX_BUFFER {
        r := [];
      }
    }

    /** The loop over the registry that unlock, delete and policy.update share. */
    method FindVault(entries: seq<RegistryEntry>, vid: string) returns (i: nat)
      ensures i == Find(entries, vid)
    {
      i := 0;
      while i < |entries|
        invariant i <= |entries| && Find(entries, vid) == i + Find(entries[i..], vid)
      {
        if entries[i].vaultId == vid {
          return;
        }
        assert entries[i..][1..] == entries[i + 1..];
        i := i + 1;
      }
    }

    method FindPolicy(vid: string) returns (policy: Option<string>)
      ensures policy == PolicyOf(Loaded(world, registry), vid)
    {
      var entries := LoadRegistry();
      var i := FindVault(entries, vid);
      if i == |entries| {
        return None;
      }
      var dsl := entries[i].policyDsl;
      policy := Some(if |dsl| <= POLICY_BUFFER then dsl else dsl[..POLICY_BUFFER]);
    }

    method KeychainLoadOrCreate(vid: string, env: Env) returns (master: Option<Bytes>)
      modifies this`keychain
      ensures (keychain, master) == LoadOrCreate(old(keychain), vid, env)
    {
      if !env.keychainOk {
        return None;
      }
      if vid !in keychain {
        keychain := keychain[vid := env.master];
      }
      master := Some(keychain[vid]);
    }

    method DeriveKey(vid: string, policy: string, env: Env) returns (key: Option<Bytes>)
      modifies this`keychain
      ensures (keychain, key) == Deriving(world, old(keychain), vid, policy, env)
    {
      var master := KeychainLoadOrCreate(vid, env);
      if master == None || !env.deriveOk {
        return None;
      }
      key := Some(world.derive(master.value, policy, vid));
    }

    method Create(name: Option<string>, dsl: Option<string>, env: Env) returns (reply: Reply)
      modifies this
      ensures (Abstract(), reply) == Creating(world, old(Abstract()), name, dsl, env)
    {
      if name == None || name.value == "" {
        return Failed(INVALID_PARAMS);
      }
      if dsl == None {
        return Failed(INVALID_PARAMS);
      }
      var policy := VaultParser.ParseText(dsl.value);
      if policy == None {
        return Failed(INVALID_PARAMS);
      }
      var master := KeychainLoadOrCreate(env.freshId, env);
      if master == None {
        return Failed(SERVER_ERROR);
      }
      var entries := LoadRegistry();
      if !env.saveOk {
        return Failed(SERVER_ERROR);
      }
      registry := entries + [RegistryEntry(env.freshId, name.value, dsl.value)];
      reply := Created(env.freshId);
    }

    /** The body of the loop of vault_open_all up to the write to the mount. */
    method OpenEntry(entry: SealedEntry, key: Bytes) returns (plain: Option<Bytes>)
      ensures plain == Opened(world, key, entry)
    {
      if entry.nonce == None || entry.ct == None {
        return None;
      }
      var nonce := new Byte[NONCE_BYTES](_ => 0);
      var n := HexDecode(entry.nonce.value, nonce);
      if n != NONCE_BYTES {
        return None;
      }
      var length := |entry.ct.value| / 2;
      if length < TAG_BYTES {
        return None;
      }
      var ct := new Byte[length](_ => 0);
      n := HexDecode(entry.ct.value, ct);
      if n != length {
        return None;
      }
      assert nonce[..NONCE_BYTES] == nonce[..] && ct[..length] == ct[..];
      plain := world.open(key, nonce[..], ct[..]);
    }

    /** The body of the loop of vault_open_all; `start` is what was in the mount before it. */
    method OpenNext(
      sealed: seq<SealedEntry>, i: nat, key: Bytes, vid: string, env: Env, ghost start: map<string, Bytes>)
      returns (ok: bool)
      requires i < |sealed| && vid in mounts && OpenedTo(world, key, sealed, start, env, i) == Some(mounts[vid])
      modifies this`mounts
      ensures match OpenedTo(world, key, sealed, start, env, i + 1)
              case None => !ok && mounts == old(mounts)
              case Some(content) => ok && mounts == old(mounts)[vid := content]
    {
      var plain := OpenEntry(sealed[i], key);
      var base := Basename(NameOf(sealed[i]));
      if plain == None || !IsPlain(base) || i in env.putFails {
        return false;
      }
      mounts := mounts[vid := mounts[vid][base := plain.value]];
      ok := true;
    }

    /** Opens every sealed file into the vault's mount, and counts them; None at the first that
        cannot be opened or written. */
    method OpenAll(sealed: seq<SealedEntry>, key: Bytes, vid: string, env: Env) returns (count: Option<nat>)
      requires vid in mounts
      modifies this`mounts
      ensures match OpenedTo(world, key, sealed, old(mounts[vid]), env, |sealed|)
              case None => count == None && mounts - {vid} == old(mounts) - {vid}
              case Some(content) => count == Some(|sealed|) && mounts == old(mounts)[vid := content]
    {
      ghost var was := mounts;
      assert was[vid := was[vid]] == was;
      for i := 0 to |sealed|
        invariant vid in mounts && mounts == was[vid := mounts[vid]]
        invariant OpenedTo(world, key, sealed, was[vid], env, i) == Some(mounts[vid])
      {
        ghost var content := mounts[vid];
        var ok := OpenNext(sealed, i, key, vid, env, was[vid]);
        if !ok {
          FailureStays(world, key, sealed, was[vid], env, i + 1, |sealed|);
          Removed(was, vid, content);
          return None;
        }
        Overwritten(was, vid, content, mounts[vid]);
      }
      count := Some(|sealed|);
    }

    /** Also returns, for the record, what the policy decides. */
    method Unlock(vid: Option<string>, env: Env) returns (reply: Reply, ghost d: E.Decision)
      requires E.ValidClock(env.context)
      modifies this
      ensures (Abstract(), reply) == Unlocking(world, old(Abstract()), vid, env, d)
      ensures Decided(world, old(Abstract()), vid, env, d)
    {
      d := E.Deny;
      if vid == None || vid.value == "" {
        return Failed(INVALID_PARAMS), d;
      }
      if openVaultId != "" && openVaultId != vid.value {
        return Denied(AnotherVaultOpen), d;
      }
      var policy := FindPolicy(vid.value);
      if policy == None {
        return Denied(NoSuchVault), d;
      }
      var decision := E.PolicyDecide(policy.value, env.context);
      d := decision;
      if decision.Allow? {
        reply := Open(vid.value, policy.value, env);
      } else if decision.Defer? {
        reply := Deferred(decision.seconds);
      } else {
        reply := Denied(ByPolicy);
      }
    }

    /** The part of unlock after the policy has allowed it. */
    method Open(vid: string, policy: string, env: Env) returns (reply: Reply)
      modifies this
      ensures (Abstract(), reply) == Opening(world, old(Abstract()), vid, policy, env)
    {
      var key := DeriveKey(vid, policy, env);
      if key == None {
        return Denied(KeyUnavailable);
      }
      var mounted := MountBegin(vid, env);
      if !mounted {
        return Denied(MountFailed);
      }
      FillingFresh(world, Abstract().(mounts := old(mounts)), vid, key.value, env);
      reply := Fill(vid, key.value, env);
    }

    /** The part of unlock that fills the mount. */
    method Fill(vid: string, key: Bytes, env: Env) returns (reply: Reply)
      requires vid in mounts
      modifies this`mounts, this`openVaultId, this`relockAt
      ensures (Abstract(), reply) == Filling(world, old(Abstract()), vid, key, env)
    {
      var sealed := LoadIndex(vid);
      var count := OpenAll(sealed, key, vid, env);
      if count == None {
        mounts := mounts - {vid};
        return Denied(Integrity);
      }
      openVaultId := vid;
      relockAt := env.now + RELOCK_SECONDS;
      reply := Unlocked(count.value);
    }

    /** The vault's mount, as it is or newly made. */
    method MountBegin(vid: string, env: Env) returns (ok: bool)
      modifies this`mounts
      ensures ok <==> vid in old(mounts) || env.mountOk
      ensures !ok ==> mounts == old(mounts)
      ensures ok ==> mounts == old(mounts)[vid := Content(old(mounts), vid)]
    {
      if vid in mounts {
        assert mounts == mounts[vid := mounts[vid]];
        return true;
      }
      if !env.mountOk {
        return false;
      }
      mounts := mounts[vid := map[]];
      ok := true;
    }

    method Lock(vid: Option<string>) returns (reply: Reply)
      modifies this
      ensures (Abstract(), reply) == Locking(old(Abstract()), vid)
    {
      if openVaultId != "" && (vid == None || vid.value == openVaultId) {
        Close(openVaultId);
        reply := Done;
      } else {
        reply := NotDone(NotOpen);
      }
    }

    method AddFile(vid: Option<string>, path: Option<string>, env: Env) returns (reply: Reply)
      modifies this
      ensures (Abstract(), reply) == Adding(world, old(Abstract()), vid, path, env)
    {
      if vid == None || path == None {
        return Failed(INVALID_PARAMS);
      }
      if openVaultId != vid.value {
        return Failed(PRECONDITION_FAILED);
      }
      var policy := FindPolicy(vid.value);
      if policy == None || env.source == None {
        return Failed(INVALID_PARAMS);
      }
      var plain := if |env.source.value| <= MAX_FILE then env.source.value else env.source.value[..MAX_FILE];
      var key := DeriveKey(vid.value, policy.value, env);
      if key == None {
        return Failed(PRECONDITION_FAILED);
      }
      if !env.sealOk {
        return Failed(SERVER_ERROR);
      }
      var nonceHex := EncodeBytes(env.nonce);
      var ctHex := EncodeBytes(world.seal(key.value, env.nonce, plain));
      var index := LoadIndex(vid.value);
      if !env.saveOk {
        return Failed(SERVER_ERROR);
      }
      files := files[vid.value := index + [SealedEntry(Some(path.value), Some(nonceHex), Some(ctHex))]];
      reply := Done;
    }

    method Delete(vid: Option<string>, env: Env) returns (reply: Reply)
      modifies this
      ensures (Abstract(), reply) == Deleting(world, old(Abstract()), vid, env)
    {
      if vid == None {
        return Failed(INVALID_PARAMS);
      }
      var entries := LoadRegistry();
      var i := FindVault(entries, vid.value);
      if i == |entries| {
        return NotDone(NoSuchVault);
      }
      if !env.saveOk {
        return Failed(SERVER_ERROR);
      }
      registry := entries[..i] + entries[i + 1..];
      if env.evictOk {
        keychain := keychain - {vid.value};
      }
      mounts := mounts - {vid.value};
      if env.unlinkOk {
        files := files - {vid.value};
      }
      assert mounts - {vid.value} == mounts;
      if openVaultId == vid.value {
        openVaultId := "";
        relockAt := 0;
      }
      reply := Done;
    }

    method UpdatePolicy(vid: Option<string>, dsl: Option<string>, env: Env) returns (reply: Reply)
      modifies this
      ensures (Abstract(), reply) == Updating(world, old(Abstract()), vid, dsl, env)
    {
      if vid == None || dsl == None {
        return Failed(INVALID_PARAMS);
      }
      var policy := VaultParser.ParseText(dsl.value);
      if policy == None {
        return Failed(INVALID_PARAMS);
      }
      reply := Rewrite(vid.value, dsl.value, env);
    }

    method Rewrite(vid: string, dsl: string, env: Env) returns (reply: Reply)
      modifies this
      ensures (Abstract(), reply) == Rewriting(world, old(Abstract()), vid, dsl, env)
    {
      var entries := LoadRegistry();
      var i := FindVault(entries, vid);
      if i == |entries| {
        return NotDone(NoSuchVault);
      }
      var sealed := LoadIndex(vid);
      if sealed != [] {
        return NotDone(VaultNotEmpty);
      }
      if !env.saveOk {
        return Failed(SERVER_ERROR);
      }
      registry := entries[i := entries[i].(policyDsl := dsl)];
      if openVaultId == vid {
        Close(vid);
      }
      reply := Done;
    }
  }

  lemma Removed<K, V>(m: map<K, V>, k: K, v: V)
    ensures m[k := v] - {k} == m - {k}
  {
  }

  lemma Overwritten<K, V>(m: map<K, V>, k: K, v: V, v': V)
    ensures m[k := v][k := v'] == m[k := v']
  {
  }

  method EncodeBytes(bytes: Bytes) returns (hex: string)
    ensures hex == Encoded(bytes)
  {
    var b := new Byte[|bytes|](i requires 0 <= i < |bytes| => bytes[i]);
    assert b[..] == bytes;
    var out := HexEncode(b);
    hex := out[..];
  }

  /** Whether the mount is made first or as it is filled is the same. */
  lemma FillingFresh(w: World, s: State, vid: string, key: Bytes, env: Env)
    ensures Filling(w, s.(mounts := s.mounts[vid := Content(s.mounts, vid)]), vid, key, env) ==
            Filling(w, s, vid, key, env)
  {
    var s' := s.(mounts := s.mounts[vid := Content(s.mounts, vid)]);
    assert Content(s'.mounts, vid) == Content(s.mounts, vid) && LoadedIndex(w, s', vid) == LoadedIndex(w, s, vid);
    assert s'.mounts - {vid} == s.mounts - {vid};
    var entries := LoadedIndex(w, s, vid);
    var content := OpenedTo(w, key, entries, Content(s.mounts, vid), env, |entries|);
    assert content.Some? ==> s'.mounts[vid := content.value] == s.mounts[vid := content.value];
  }

  lemma FailureStays(
    w: World, key: Bytes, entries: seq<SealedEntry>, content: map<string, Bytes>, env: Env, j: nat, k: nat)
    requires j <= k <= |entries| && OpenedTo(w, key, entries, content, env, j) == None
    ensures OpenedTo(w, key, entries, content, env, k) == None
  {
    if j < k {
      FailureStays(w, key, entries, content, env, j, k - 1);
    }
  }
}
