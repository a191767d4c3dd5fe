/** Runs of the VAULT runtime that show its limits: a vault created and unlocked, one that loses
    its mount, and one that loses files to a full index. */
module VaultWitnesses {
  import opened Options
  import opened VaultHex
  import opened VaultRuntime
  import opened VaultRuns
  import opened VaultSealing
  import VaultParser
  import E = VaultEvaluator

  /** Every decision in the run is the policy's. */
  ghost predicate IsPlayed(w: World, ops: seq<Op>) {
    ops != [] ==>
      var p, op := Run(w, ops[..|ops| - 1]), ops[|ops| - 1];
      IsPlayed(w, ops[..|ops| - 1]) &&
      (op.Unlock? ==> E.ValidClock(op.env.context) && Decided(w, p.s, op.vid, op.env, op.d))
  }

  lemma PlayedSnoc(w: World, ops: seq<Op>, op: Op)
    requires IsPlayed(w, ops)
    requires op.Unlock? ==> E.ValidClock(op.env.context) && Decided(w, Run(w, ops).s, op.vid, op.env, op.d)
    ensures IsPlayed(w, ops + [op])
  {
    assert (ops + [op])[..|ops|] == ops;
  }

  lemma SmoothSnoc(w: World, ops: seq<Op>, op: Op, vid: string)
    requires IsSmooth(w, ops, vid) && IsRandom(Run(w, ops), op)
    requires Rewrites(op, vid) ==> ReadsBack(w, Run(w, ops).s, vid)
    ensures IsSmooth(w, ops + [op], vid)
  {
    assert (ops + [op])[..|ops|] == ops;
  }

  // ---- a vault created and unlocked -------------------------------------------------

  predicate Cooperates(env: Env) {
    AllGoesWell(env) && env.sealOk && env.saveOk && 0 <= env.now && |env.nonce| == 24
  }

  const NAME := Some("vault")

  function EntryOf(dsl: string, env: Env): RegistryEntry {
    RegistryEntry(env.freshId, "vault", dsl)
  }

  /** A policy that is valid, a registry entry that fits, and a context that what is kept of the
      policy allows. */
  ghost predicate CanOpen(w: World, dsl: string, env: Env) {
    && Cooperates(env) && env.freshId != "" && E.ValidClock(env.context)
    && VaultParser.Parse(dsl).Some? && w.registrySize([EntryOf(dsl, env)]) <= 65535
    && E.PolicyDecides(Truncated(dsl), env.context, E.Allow)
  }

  function Make(dsl: string, env: Env): Op {
    Create(NAME, Some(dsl), env)
  }

  function OpenIt(env: Env): Op {
    Unlock(Some(env.freshId), env, E.Allow)
  }

  function MadeState(dsl: string, env: Env): State {
    State("", 0, [EntryOf(dsl, env)], map[env.freshId := env.master], map[], map[])
  }

  function OpenState(dsl: string, env: Env): State {
    State(env.freshId, env.now + 900, [EntryOf(dsl, env)], map[env.freshId := env.master],
          map[], map[env.freshId := map[]])
  }

  lemma MakingIs(w: World, dsl: string, env: Env)
    requires CanOpen(w, dsl, env)
    ensures Creating(w, INITIAL, NAME, Some(dsl), env) == (MadeState(dsl, env), Created(env.freshId))
  {
    assert [] + [EntryOf(dsl, env)] == [EntryOf(dsl, env)];
  }

  lemma MadePolicy(dsl: string, env: Env)
    ensures PolicyOf([EntryOf(dsl, env)], env.freshId) == Some(Truncated(dsl))
  {
  }

  lemma OpeningIs(w: World, dsl: string, env: Env)
    requires CanOpen(w, dsl, env)
    ensures Unlocking(w, MadeState(dsl, env), Some(env.freshId), env, E.Allow) == (OpenState(dsl, env), Unlocked(0))
  {
    MadePolicy(dsl, env);
    UnlockingOpens(w, MadeState(dsl, env), env.freshId, env);
  }

  /** A played run that is smooth for the vault. */
  ghost predicate IsGood(w: World, ops: seq<Op>, vid: string) {
    IsPlayed(w, ops) && IsSmooth(w, ops, vid)
  }

  /** One more command on a good run. */
  lemma GoodSnoc(w: World, ops: seq<Op>, op: Op, vid: string, p: Past)
    requires IsGood(w, ops, vid) && Run(w, ops) == p && IsRandom(p, op)
    requires Rewrites(op, vid) ==> ReadsBack(w, p.s, vid)
    requires op.Unlock? ==> E.ValidClock(op.env.context) && Decided(w, p.s, op.vid, op.env, op.d)
    ensures IsGood(w, ops + [op], vid) && Run(w, ops + [op]) == Step(w, p, op)
  {
    RunSnoc(w, ops, op);
    SmoothSnoc(w, ops, op, vid);
    PlayedSnoc(w, ops, op);
  }

  lemma MakeVault(w: World, dsl: string, env: Env) returns (ops: seq<Op>)
    requires CanOpen(w, dsl, env)
    ensures IsGood(w, ops, env.freshId) && Run(w, ops) == Past(MadeState(dsl, env), map[], 0)
  {
    MakingIs(w, dsl, env);
    GoodSnoc(w, [], Make(dsl, env), env.freshId, Past(INITIAL, map[], 0));
    ops := [] + [Make(dsl, env)];
  }

  /** Create, then unlock: the unlock goes through. */
  lemma OpenVault(w: World, dsl: string, env: Env) returns (before: seq<Op>, ops: seq<Op>)
    requires CanOpen(w, dsl, env)
    ensures ops == before + [OpenIt(env)] && IsGood(w, ops, env.freshId)
    ensures Run(w, before).s == MadeState(dsl, env) && Run(w, ops) == Past(OpenState(dsl, env), map[], env.now)
    ensures Reaction(w, Run(w, before).s, OpenIt(env)).1 == Unlocked(0)
  {
    before := MakeVault(w, dsl, env);
    MadePolicy(dsl, env);
    OpeningIs(w, dsl, env);
    GoodSnoc(w, before, OpenIt(env), env.freshId, Past(MadeState(dsl, env), map[], 0));
    ops := before + [OpenIt(env)];
  }

  // ---- files lost to a full index ---------------------------------------------------

  /** The hexadecimal characters of a full 64 KiB file and its tag. */
  const FULL_HEX: nat := 2 * (65536 + 16)

  function CtChars(entries: seq<SealedEntry>): nat {
    if entries == [] then 0 else
      var last := entries[|entries| - 1];
      CtChars(entries[..|entries| - 1]) + (if last.ct.Some? then |last.ct.value| else 0)
  }

  /** The printed index holds at least the ciphertexts. */
  ghost predicate PrintsCiphertexts(w: World) {
    forall entries :: w.indexSize(entries) >= CtChars(entries)
  }

  /** A file of 64 KiB or more added to the vault, with every call going well. */
  predicate IsFullAdd(op: Op, vid: string) {
    op.AddFile? && op.vid == Some(vid) && op.path.Some? && Cooperates(op.env)
    && op.env.source.Some? && |op.env.source.value| >= 65536
  }

  predicate IsOpen(w: World, s: State, vid: string) {
    s.openId == vid && PolicyOf(Loaded(w, s.registry), vid).Some?
  }

  lemma FullEntry(w: World, key: Bytes, path: string, nonce: Bytes, content: Bytes)
    requires Lawful(w) && |content| >= 65536
    ensures var ct := Sealed(w, key, path, nonce, Head(content)).ct; ct.Some? && |ct.value| == FULL_HEX
  {
    assert |w.seal(key, nonce, Head(content))| == |Head(content)| + 16;
  }

  /** One more full file: it is appended to what the index reads back as. */
  lemma FullAdd(w: World, s: State, op: Op, vid: string) returns (entry: SealedEntry)
    requires Lawful(w) && IsFullAdd(op, vid) && IsOpen(w, s, vid)
    ensures entry.ct.Some? && |entry.ct.value| == FULL_HEX
    ensures var (s', reply) := Reaction(w, s, op);
      reply == Done && IsOpen(w, s', vid) && Index(s', vid) == LoadedIndex(w, s, vid) + [entry]
  {
    var env := op.env;
    var policy := PolicyOf(Loaded(w, s.registry), vid).value;
    var key := Deriving(w, s.keychain, vid, policy, env).1.value;
    entry := Sealed(w, key, op.path.value, env.nonce, Head(env.source.value));
    FullEntry(w, key, op.path.value, env.nonce, env.source.value);
  }

  /** The state of the index after `n` full files: it never has more entries than were added, and
      if it has them all it has their ciphertexts. */
  predicate Filled(w: World, p: Past, vid: string, n: nat) {
    && IsOpen(w, p.s, vid) && |AddedTo(p, vid)| == n
    && |Index(p.s, vid)| <= n && (|Index(p.s, vid)| == n ==> CtChars(Index(p.s, vid)) == n * FULL_HEX)
  }

  lemma FillOne(w: World, p: Past, op: Op, vid: string, n: nat)
    requires Lawful(w) && IsFullAdd(op, vid) && Filled(w, p, vid, n)
    ensures Filled(w, Step(w, p, op), vid, n + 1)
    ensures !ReadsBack(w, p.s, vid) ==> |Index(Step(w, p, op).s, vid)| == 1
  {
    var entry := FullAdd(w, p.s, op, vid);
    StepRecords(w, p, op, vid);
    Appended(LoadedIndex(w, p.s, vid), entry);
  }

  lemma Appended(entries: seq<SealedEntry>, entry: SealedEntry)
    requires entry.ct.Some?
    ensures CtChars(entries + [entry]) == CtChars(entries) + |entry.ct.value|
  {
    assert (entries + [entry])[..|entries|] == entries;
  }

  lemma FillSnoc(w: World, ops: seq<Op>, op: Op, vid: string, n: nat)
    requires Lawful(w) && IsFullAdd(op, vid) && Filled(w, Run(w, ops), vid, n)
    ensures Filled(w, Run(w, ops + [op]), vid, n + 1)
  {
    RunSnoc(w, ops, op);
    FillOne(w, Run(w, ops), op, vid, n);
  }

  predicate AreFullAdds(adds: seq<Op>, vid: string) {
    adds != [] ==> AreFullAdds(adds[..|adds| - 1], vid) && IsFullAdd(adds[|adds| - 1], vid)
  }

  lemma {:induction false} Fill(w: World, ops: seq<Op>, adds: seq<Op>, vid: string) returns (all: seq<Op>)
    requires Lawful(w) && Filled(w, Run(w, ops), vid, 0) && AreFullAdds(adds, vid)
    ensures all == ops + adds && Filled(w, Run(w, all), vid, |adds|)
  {
    if adds == [] {
      all := ops;
    } else {
      var last := adds[|adds| - 1];
      var before := Fill(w, ops, adds[..|adds| - 1], vid);
      FillSnoc(w, before, last, vid, |adds| - 1);
      all := before + [last];
      SplitLast(ops, adds);
    }
  }

  lemma SplitLast<T>(a: seq<T>, b: seq<T>)
    requires b != []
    ensures a + b == a + b[..|b| - 1] + [b[|b| - 1]]
  {
  }

  /** Of any 65 full files added to a new vault, at least one is lost: 64 of them do not fit the
      buffer that the index is read into, so adding one more starts it over. */
  lemma FullIndexLosesFiles(w: World, dsl: string, env: Env, adds: seq<Op>) returns (ops: seq<Op>)
    requires Lawful(w) && PrintsCiphertexts(w) && CanOpen(w, dsl, env)
    requires |adds| == 65 && AreFullAdds(adds, env.freshId)
    ensures IsGood(w, ops, env.freshId) && Filled(w, Run(w, ops), env.freshId, 0)
    ensures LosesFile(w, ops + adds, env.freshId)
  {
    var made;
    made, ops := OpenVault(w, dsl, env);
    NewIsOpen(w, dsl, env);
    var before := Fill(w, ops, adds[..64], env.freshId);
    OverfillSnoc(w, before, adds[64], env.freshId);
    SplitLast(ops, adds);
  }

  /** At the end of the run, the vault's index has fewer entries than were added. */
  ghost predicate LosesFile(w: World, ops: seq<Op>, vid: string) {
    |Index(Run(w, ops).s, vid)| < |AddedTo(Run(w, ops), vid)|
  }

  lemma OverfillSnoc(w: World, ops: seq<Op>, op: Op, vid: string)
    requires Lawful(w) && PrintsCiphertexts(w) && IsFullAdd(op, vid) && Filled(w, Run(w, ops), vid, 64)
    ensures LosesFile(w, ops + [op], vid)
  {
    RunSnoc(w, ops, op);
    Overfill(w, Run(w, ops), op, vid);
  }

  lemma NewIsOpen(w: World, dsl: string, env: Env)
    requires CanOpen(w, dsl, env)
    ensures Filled(w, Past(OpenState(dsl, env), map[], env.now), env.freshId, 0)
  {
    MadePolicy(dsl, env);
  }

  lemma Overfill(w: World, p: Past, op: Op, vid: string)
    requires Lawful(w) && PrintsCiphertexts(w) && IsFullAdd(op, vid) && Filled(w, p, vid, 64)
    ensures |AddedTo(Step(w, p, op), vid)| == 65 && |Index(Step(w, p, op).s, vid)| < 65
  {
    FillOne(w, p, op, vid, 64);
    assert w.indexSize(Index(p.s, vid)) >= CtChars(Index(p.s, vid));
    if |Index(p.s, vid)| == 64 {
      assert 64 * FULL_HEX > 8388607;
    } else {
      var entry := FullAdd(w, p.s, op, vid);
    }
  }

  // ---- a vault open without its mount -----------------------------------------------

  function AddDot(env: Env): Op {
    AddFile(Some(env.freshId), Some("."), env)
  }

  lemma DotIsUnmountable(content: Bytes)
    ensures !IsMountable([Added(".", content)], 1)
  {
  }

  /** An entry with a name of one character and no more than 64 KiB. */
  predicate IsSmall(entry: SealedEntry) {
    entry.name == Some(".") && entry.nonce.Some? && |entry.nonce.value| == 48
    && entry.ct.Some? && |entry.ct.value| <= FULL_HEX
  }

  /** An index of one such entry fits the buffer. */
  ghost predicate SmallIndexFits(w: World) {
    forall entry :: IsSmall(entry) ==> w.indexSize([entry]) <= 8388607
  }

  lemma SmallEntry(w: World, key: Bytes, nonce: Bytes, content: Bytes)
    requires Lawful(w) && |nonce| == 24
    ensures IsSmall(Sealed(w, key, ".", nonce, Head(content)))
  {
    assert |w.seal(key, nonce, Head(content))| == |Head(content)| + 16;
  }

  function DotEntry(w: World, dsl: string, env: Env): SealedEntry
    requires env.source.Some?
  {
    Sealed(w, w.derive(env.master, Truncated(dsl), env.freshId), ".", env.nonce, Head(env.source.value))
  }

  lemma AddingIs(w: World, s: State, vid: string, path: string, env: Env, policy: string)
    requires Cooperates(env) && env.source.Some? && s.openId == vid && vid in s.keychain
    requires PolicyOf(Loaded(w, s.registry), vid) == Some(policy)
    ensures var entry := Sealed(w, w.derive(s.keychain[vid], policy, vid), path, env.nonce, Head(env.source.value));
      Adding(w, s, Some(vid), Some(path), env) == (s.(files := s.files[vid := LoadedIndex(w, s, vid) + [entry]]), Done)
  {
  }

  lemma DotAdding(w: World, dsl: string, env: Env)
    requires CanOpen(w, dsl, env) && env.source.Some?
    ensures Adding(w, OpenState(dsl, env), Some(env.freshId), Some("."), env) ==
      (OpenState(dsl, env).(files := map[env.freshId := [DotEntry(w, dsl, env)]]), Done)
  {
    MadePolicy(dsl, env);
    AddingIs(w, OpenState(dsl, env), env.freshId, ".", env, Truncated(dsl));
    assert [] + [DotEntry(w, dsl, env)] == [DotEntry(w, dsl, env)];
  }

  lemma DotStep(w: World, dsl: string, env: Env)
    requires Lawful(w) && CanOpen(w, dsl, env) && env.source.Some?
    ensures var (s', reply) := Adding(w, OpenState(dsl, env), Some(env.freshId), Some("."), env);
      && reply == Done && s' == OpenState(dsl, env).(files := s'.files)
      && |Index(s', env.freshId)| == 1 && IsSmall(Index(s', env.freshId)[0])
  {
    DotAdding(w, dsl, env);
    SmallEntry(w, w.derive(env.master, Truncated(dsl), env.freshId), env.nonce, env.source.value);
  }

  lemma DotRecorded(w: World, dsl: string, env: Env, p: Past)
    requires Lawful(w) && CanOpen(w, dsl, env) && env.source.Some?
    requires p == Past(OpenState(dsl, env), map[], env.now)
    ensures var p' := Step(w, p, AddDot(env));
      && p'.s == p.s.(files := p'.s.files)
      && |Index(p'.s, env.freshId)| == 1 && IsSmall(Index(p'.s, env.freshId)[0])
      && AddedTo(p', env.freshId) == [Added(".", env.source.value)]
  {
    DotStep(w, dsl, env);
    StepRecords(w, p, AddDot(env), env.freshId);
  }

  /** A vault that holds `.`, open and mounted. */
  ghost predicate HoldsDot(w: World, p: Past, dsl: string, env: Env) {
    && p.s == OpenState(dsl, env).(files := p.s.files)
    && |Index(p.s, env.freshId)| == 1 && IsSmall(Index(p.s, env.freshId)[0])
    && env.source.Some? && AddedTo(p, env.freshId) == [Added(".", env.source.value)]
  }

  lemma DotAdded(w: World, dsl: string, env: Env) returns (ops: seq<Op>)
    requires Lawful(w) && CanOpen(w, dsl, env) && env.source.Some?
    ensures IsGood(w, ops, env.freshId) && HoldsDot(w, Run(w, ops), dsl, env)
  {
    var made, start := OpenVault(w, dsl, env);
    var p := Past(OpenState(dsl, env), map[], env.now);
    GoodSnoc(w, start, AddDot(env), env.freshId, p);
    DotRecorded(w, dsl, env, p);
    ops := start + [AddDot(env)];
  }

  lemma DotIsReady(w: World, ops: seq<Op>, dsl: string, env: Env)
    requires Lawful(w) && CanOpen(w, dsl, env) && IsGood(w, ops, env.freshId) && HoldsDot(w, Run(w, ops), dsl, env)
    requires SmallIndexFits(w)
    ensures IsReady(w, ops, env.freshId) && env.freshId in Run(w, ops).s.mounts
    ensures Decided(w, Run(w, ops).s, Some(env.freshId), env, E.Allow)
  {
    MadePolicy(dsl, env);
    var index := Index(Run(w, ops).s, env.freshId);
    assert index == [index[0]];
  }

  /** Create, unlock, add `.` and unlock again: the vault is open and nothing is mounted. From then
      on no unlock of it goes through (NeverUnlockedAgain). */
  lemma MountLost(w: World, dsl: string, env: Env) returns (ops: seq<Op>)
    requires Lawful(w) && CanOpen(w, dsl, env) && env.source.Some?
    requires SmallIndexFits(w)
    ensures IsGood(w, ops, env.freshId)
    ensures var s := Run(w, ops).s; s.openId == env.freshId && s.openId !in s.mounts
  {
    var dotted := DotAdded(w, dsl, env);
    DotIsReady(w, dotted, dsl, env);
    DotIsUnmountable(env.source.value);
    ReunlockTakesTheMount(w, dotted, env.freshId, env);
    GoodSnoc(w, dotted, OpenIt(env), env.freshId, Run(w, dotted));
    ops := dotted + [OpenIt(env)];
  }
}
