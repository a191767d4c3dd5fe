/** Runs of the VAULT runtime: what stays open and mounted, and what becomes of what was added. */
module VaultRuns {
  import opened Options
  import opened VaultHex
  import opened VaultRuntime
  import VaultParser
  import E = VaultEvaluator

  datatype Op =
    | Create(name: Option<string>, dsl: Option<string>, env: Env)
    | Unlock(vid: Option<string>, env: Env, d: E.Decision)
    | Lock(vid: Option<string>)
    | AddFile(vid: Option<string>, path: Option<string>, env: Env)
    | Delete(vid: Option<string>, env: Env)
    | UpdatePolicy(vid: Option<string>, dsl: Option<string>, env: Env)
    | Tick(now: int)

  /** A file that was added: its path and all that was in it. */
  datatype Added = Added(path: string, content: Bytes)

  /** The runtime, every file ever added to each vault, and the time of the last unlock. */
  datatype Past = Past(s: State, added: map<string, seq<Added>>, lastUnlock: int)

  function Reaction(w: World, s: State, op: Op): (State, Reply) {
    match op
    case Create(name, dsl, env) => Creating(w, s, name, dsl, env)
    case Unlock(vid, env, d) => Unlocking(w, s, vid, env, d)
    case Lock(vid) => Locking(s, vid)
    case AddFile(vid, path, env) => Adding(w, s, vid, path, env)
    case Delete(vid, env) => Deleting(w, s, vid, env)
    case UpdatePolicy(vid, dsl, env) => Updating(w, s, vid, dsl, env)
    case Tick(now) => (Ticking(s, now), Done)
  }

  function AddedTo(p: Past, vid: string): seq<Added> {
    if vid in p.added then p.added[vid] else []
  }

  function Step(w: World, p: Past, op: Op): Past {
    var (s', reply) := Reaction(w, p.s, op);
    Past(s',
         if op.AddFile? && reply == Done && op.vid.Some? && op.path.Some? && op.env.source.Some? then
           p.added[op.vid.value := AddedTo(p, op.vid.value) + [Added(op.path.value, op.env.source.value)]]
         else p.added,
         if op.Unlock? && reply.Unlocked? then op.env.now else p.lastUnlock)
  }

  function Run(w: World, ops: seq<Op>): Past {
    if ops == [] then Past(INITIAL, map[], 0) else Step(w, Run(w, ops[..|ops| - 1]), ops[|ops| - 1])
  }

  lemma RunSnoc(w: World, ops: seq<Op>, op: Op)
    ensures Run(w, ops + [op]) == Step(w, Run(w, ops), op)
  {
    assert (ops + [op])[..|ops|] == ops;
  }

  // ---- what is open and mounted -----------------------------------------------------

  /** The clock reads no earlier than the epoch. */
  ghost predicate AfterEpoch(ops: seq<Op>) {
    forall i :: 0 <= i < |ops| && ops[i].Unlock? ==> 0 <= ops[i].env.now
  }

  /** Only the open vault is mounted; a vault is open exactly while a deadline is armed, which is
      900 seconds after the last unlock. */
  predicate OneVault(s: State, lastUnlock: int) {
    && (forall vid :: vid in s.mounts ==> vid == s.openId)
    && "" !in s.mounts
    && (s.openId == "" <==> s.relockAt == 0)
    && (s.openId != "" ==> s.relockAt == lastUnlock + 900)
  }

  /** The registry, the keychain and the indexes have no part in it. */
  lemma ElsewhereKeepsOneVault(s: State, s': State, lastUnlock: int)
    requires OneVault(s, lastUnlock)
    requires s'.openId == s.openId && s'.relockAt == s.relockAt && s'.mounts.Keys <= s.mounts.Keys
    ensures OneVault(s', lastUnlock)
  {
  }

  lemma ClosedIsNoVault(s: State, lastUnlock: int)
    requires OneVault(s, lastUnlock)
    ensures OneVault(Closed(s, s.openId), lastUnlock) && Closed(s, s.openId).mounts == map[]
  {
    assert forall vid :: vid in Closed(s, s.openId).mounts ==> vid in s.mounts;
  }

  lemma OpeningKeepsOneVault(w: World, s: State, vid: string, policy: string, env: Env, lastUnlock: int)
    requires OneVault(s, lastUnlock) && vid != "" && (s.openId == "" || s.openId == vid) && 0 <= env.now
    ensures var (s', reply) := Opening(w, s, vid, policy, env);
      OneVault(s', if reply.Unlocked? then env.now else lastUnlock)
  {
    var (s', reply) := Opening(w, s, vid, policy, env);
    if reply.Unlocked? {
      assert forall v :: v in s'.mounts ==> v == vid || v in s.mounts;
    } else {
      ElsewhereKeepsOneVault(s, s', lastUnlock);
    }
  }

  lemma DeletingKeepsOneVault(w: World, s: State, vid: Option<string>, env: Env, lastUnlock: int)
    requires OneVault(s, lastUnlock)
    ensures OneVault(Deleting(w, s, vid, env).0, lastUnlock)
  {
    var (s', reply) := Deleting(w, s, vid, env);
    assert s'.mounts.Keys <= s.mounts.Keys;
    if s'.openId == s.openId {
      ElsewhereKeepsOneVault(s, s', lastUnlock);
    }
  }

  lemma UpdatingKeepsOneVault(w: World, s: State, vid: string, dsl: string, env: Env, lastUnlock: int)
    requires OneVault(s, lastUnlock)
    ensures OneVault(Rewriting(w, s, vid, dsl, env).0, lastUnlock)
  {
    var s' := Rewriting(w, s, vid, dsl, env).0;
    ClosedIsNoVault(s, lastUnlock);
    ElsewhereKeepsOneVault(if s'.openId == s.openId then s else Closed(s, s.openId), s', lastUnlock);
  }

  lemma StepKeepsOneVault(w: World, p: Past, op: Op)
    requires OneVault(p.s, p.lastUnlock) && (op.Unlock? ==> 0 <= op.env.now)
    ensures OneVault(Step(w, p, op).s, Step(w, p, op).lastUnlock)
  {
    var (s', reply) := Reaction(w, p.s, op);
    match op {
      case Create(_, _, _) => ElsewhereKeepsOneVault(p.s, s', p.lastUnlock);
      case AddFile(_, _, _) => ElsewhereKeepsOneVault(p.s, s', p.lastUnlock);
      case Unlock(vid, env, d) =>
        if s' != p.s || reply.Unlocked? {
          var policy := PolicyOf(Loaded(w, p.s.registry), vid.value).value;
          OpeningKeepsOneVault(w, p.s, vid.value, policy, env, p.lastUnlock);
        }
      case Lock(_) => ClosedIsNoVault(p.s, p.lastUnlock);
      case Delete(vid, env) => DeletingKeepsOneVault(w, p.s, vid, env, p.lastUnlock);
      case UpdatePolicy(vid, dsl, env) =>
        if s' != p.s {
          UpdatingKeepsOneVault(w, p.s, vid.value, dsl.value, env, p.lastUnlock);
        }
      case Tick(_) => ClosedIsNoVault(p.s, p.lastUnlock);
    }
  }

  /** In every run at most one vault is mounted, and it is the open one. */
  lemma {:induction false} RunsKeepOneVault(w: World, ops: seq<Op>)
    requires AfterEpoch(ops)
    ensures OneVault(Run(w, ops).s, Run(w, ops).lastUnlock)
  {
    if ops != [] {
      var before := ops[..|ops| - 1];
      assert forall i :: 0 <= i < |before| ==> before[i] == ops[i];
      RunsKeepOneVault(w, before);
      StepKeepsOneVault(w, Run(w, before), ops[|ops| - 1]);
    }
  }

  /** A tick 900 seconds or more after the last unlock leaves nothing open and nothing mounted;
      an earlier one changes nothing. What is stored always stays. */
  lemma TickRelocks(w: World, ops: seq<Op>, now: int)
    requires AfterEpoch(ops)
    ensures var p := Run(w, ops); var s := Ticking(p.s, now);
      && (if p.lastUnlock + 900 <= now then s.openId == "" && s.relockAt == 0 && s.mounts == map[] else s == p.s)
      && s.registry == p.s.registry && s.keychain == p.s.keychain && s.files == p.s.files
  {
    RunsKeepOneVault(w, ops);
    ClosedIsNoVault(Run(w, ops).s, Run(w, ops).lastUnlock);
  }

  lemma ClosingTakesBoth(w: World, s: State, vid: Option<string>, dsl: string, env: Env)
    requires s.openId != "" && s.openId in s.mounts
    ensures var s' := Deleting(w, s, vid, env).0; s'.openId != "" ==> s'.openId in s'.mounts
    ensures vid.Some? ==>
      var s' := Rewriting(w, s, vid.value, dsl, env).0; s'.openId != "" ==> s'.openId in s'.mounts
  {
  }

  /** What a further unlock of the open vault comes down to: its policy allows and is found, the
      key can be derived, and some sealed file cannot be opened into the mount. */
  predicate ReunlockFails(w: World, s: State, env: Env, d: E.Decision) {
    var policy := PolicyOf(Loaded(w, s.registry), s.openId);
    d.Allow? && policy.Some? && env.keychainOk && env.deriveOk &&
    var key := w.derive(if s.openId in s.keychain then s.keychain[s.openId] else env.master, policy.value, s.openId);
    var entries := LoadedIndex(w, s, s.openId);
    OpenedTo(w, key, entries, Content(s.mounts, s.openId), env, |entries|) == None
  }

  lemma ReunlockIs(w: World, s: State, env: Env, d: E.Decision)
    requires s.openId != "" && s.openId in s.mounts
    ensures var (s', reply) := Unlocking(w, s, Some(s.openId), env, d);
      if ReunlockFails(w, s, env, d)
      then reply == Denied(Integrity) && s'.openId == s.openId && s'.mounts == s.mounts - {s.openId}
      else s'.openId == s.openId && s'.openId in s'.mounts
  {
  }

  /** The converse fails in one way only: a mounted vault is open without its mount after a step
      exactly if the step is another unlock of it that is bound to fail on a sealed file. */
  lemma MountIsLostByReunlock(w: World, p: Past, op: Op)
    requires OneVault(p.s, p.lastUnlock) && p.s.openId in p.s.mounts
    ensures var s' := Reaction(w, p.s, op).0;
      s'.openId != "" && s'.openId !in s'.mounts <==>
        op.Unlock? && op.vid == Some(p.s.openId) && ReunlockFails(w, p.s, op.env, op.d)
  {
    match op {
      case Unlock(vid, env, d) =>
        if vid == Some(p.s.openId) {
          ReunlockIs(w, p.s, env, d);
        }
      case Delete(vid, env) => ClosingTakesBoth(w, p.s, vid, "", env);
      case UpdatePolicy(vid, dsl, env) => ClosingTakesBoth(w, p.s, vid, if dsl.Some? then dsl.value else "", env);
      case _ =>
    }
  }

  /** A vault is unlocked only if what the runtime keeps of its policy parses and holds. */
  lemma UnlockObeysKept(w: World, s: State, vid: Option<string>, env: Env, d: E.Decision)
    requires E.ValidClock(env.context) && Decided(w, s, vid, env, d)
    requires Unlocking(w, s, vid, env, d).1.Unlocked?
    ensures vid.Some? && PolicyOf(Loaded(w, s.registry), vid.value).Some?
    ensures var policy := VaultParser.Parse(PolicyOf(Loaded(w, s.registry), vid.value).value);
      policy.Some? && E.Eval(policy.value.allow, env.context) == E.True
  {
  }
}
