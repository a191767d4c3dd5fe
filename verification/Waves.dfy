/** The supervisor's startup order: modules layered into waves by what they depend on. */
module Waves {
  import opened Options
  import opened Modules

  datatype WaveError = UnknownDependency(dependency: string, name: string) | Cycle(remaining: seq<string>)

  type Graph = map<string, Spec>

  /** The specs by name; of two with the same name, the later one counts. */
  function ByName(specs: seq<Spec>): (g: Graph)
    ensures forall name :: name in g ==> g[name].name == name && g[name] in specs
    ensures forall spec :: spec in specs ==> spec.name in g
  {
    if specs == [] then map[] else
      var last := specs[|specs| - 1];
      ByName(specs[..|specs| - 1])[last.name := last]
  }

  /** A spec counts if no later one has its name. */
  lemma {:induction false} LastCounts(specs: seq<Spec>, i: nat)
    requires i < |specs| && forall j :: i < j < |specs| ==> specs[j].name != specs[i].name
    ensures specs[i].name in ByName(specs) && ByName(specs)[specs[i].name] == specs[i]
  {
    if i < |specs| - 1 {
      LastCounts(specs[..|specs| - 1], i);
    }
  }

  // ---- dependency chains ------------------------------------------------------------

  ghost predicate AllKnown(g: Graph) {
    forall name, d :: name in g && d in g[name].dependsOn ==> d in g
  }

  /** Each module but the last depends on the next. */
  ghost predicate IsChain(g: Graph, c: seq<string>) {
    && (forall i :: 0 <= i < |c| ==> c[i] in g)
    && (forall i :: 0 < i < |c| ==> c[i] in g[c[i - 1]].dependsOn)
  }

  ghost predicate IsCycle(g: Graph, c: seq<string>) {
    IsChain(g, c) && 2 <= |c| && c[0] == c[|c| - 1]
  }

  /** The longest dependency chain from a module has `depth` links. */
  ghost predicate IsDepth(g: Graph, name: string, depth: nat) {
    && (exists c :: IsChain(g, c) && |c| == depth + 1 && c[0] == name)
    && (forall c :: IsChain(g, c) && c != [] && c[0] == name ==> |c| <= depth + 1)
  }

  // ---- order of names ---------------------------------------------------------------

  /** The lexicographic order by code points. */
  predicate Before(a: string, b: string) {
    b != "" && (a == "" || a[0] < b[0] || (a[0] == b[0] && Before(a[1..], b[1..])))
  }

  /** One text is before another exactly if it is a proper start of it, or has the smaller character
      where they first differ. */
  lemma {:induction false} BeforeIff(a: string, b: string)
    ensures Before(a, b) <==> a < b || exists k :: DiffersAt(a, b, k) && a[k] < b[k]
  {
    if a != "" && b != "" && a[0] == b[0] {
      BeforeIff(a[1..], b[1..]);
      TailsDiffer(a, b);
      assert a < b <==> a[1..] < b[1..] by {
        assert a == [a[0]] + a[1..] && b == [b[0]] + b[1..];
      }
    } else if a != "" && b != "" {
      assert DiffersAt(a, b, 0);
      assert forall k :: DiffersAt(a, b, k) ==> k == 0;
    }
  }

  ghost predicate DiffersAt(a: string, b: string, k: int) {
    0 <= k < |a| && k < |b| && a[k] != b[k] && forall i :: 0 <= i < k ==> a[i] == b[i]
  }

  lemma TailsDiffer(a: string, b: string)
    requires a != "" && b != "" && a[0] == b[0]
    ensures (exists k :: DiffersAt(a, b, k) && a[k] < b[k]) <==>
            (exists k :: DiffersAt(a[1..], b[1..], k) && a[1..][k] < b[1..][k])
  {
    forall k | DiffersAt(a, b, k) ensures k > 0 && DiffersAt(a[1..], b[1..], k - 1) {
    }
    forall k | DiffersAt(a[1..], b[1..], k) ensures DiffersAt(a, b, k + 1) {
      forall i | 0 <= i < k + 1 ensures a[i] == b[i] {
        assert i > 0 ==> a[i] == a[1..][i - 1] && b[i] == b[1..][i - 1];
      }
    }
  }

  lemma {:induction false} BeforeIsTotal(a: string, b: string)
    ensures a == b || Before(a, b) || Before(b, a)
  {
    if a != "" && b != "" && a[0] == b[0] {
      BeforeIsTotal(a[1..], b[1..]);
      assert a == [a[0]] + a[1..] && b == [b[0]] + b[1..];
    }
  }

  lemma {:induction false} BeforeIsTransitive(a: string, b: string, c: string)
    requires Before(a, b) && Before(b, c)
    ensures Before(a, c)
  {
    if a != "" && a[0] == b[0] == c[0] {
      BeforeIsTransitive(a[1..], b[1..], c[1..]);
    }
  }

  lemma {:induction false} BeforeIsStrict(a: string)
    ensures !Before(a, a)
  {
    if a != "" {
      BeforeIsStrict(a[1..]);
    }
  }

  ghost predicate IsLeast(names: set<string>, least: string) {
    least in names && forall name :: name in names && name != least ==> Before(least, name)
  }

  lemma LeastExists(names: set<string>) returns (least: string)
    requires names != {}
    ensures IsLeast(names, least)
  {
    var name :| name in names;
    if names == {name} {
      least := name;
    } else {
      var others := names - {name};
      assert names == others + {name};
      var other := LeastExists(others);
      BeforeIsTotal(name, other);
      if Before(name, other) {
        least := name;
        forall n | n in names && n != least ensures Before(least, n) {
          if n != other {
            BeforeIsTransitive(name, other, n);
          }
        }
      } else {
        least := other;
      }
    }
  }

  predicate InOrder(names: seq<string>) {
    forall i, j :: 0 <= i < j < |names| ==> Before(names[i], names[j])
  }

  method Sorted(names: set<string>) returns (r: seq<string>)
    ensures InOrder(r) && forall name :: name in r <==> name in names
  {
    r := [];
    var rest := names;
    while rest != {}
      invariant InOrder(r) && rest <= names && forall name :: name in r <==> name in names - rest
      invariant forall i, name :: 0 <= i < |r| && name in rest ==> Before(r[i], name)
      decreases rest
    {
      ghost var first := LeastExists(rest);
      var least :| least in rest && forall name :: name in rest && name != least ==> Before(least, name);
      r := r + [least];
      rest := rest - {least};
    }
  }

  // ---- levels -----------------------------------------------------------------------

  /** Modules at levels: each above all that it depends on, and just above one of them unless it
      is at the bottom. */
  ghost predicate IsLevelled(g: Graph, level: map<string, nat>) {
    forall name {:trigger IsPlaced(g, level, name)} :: name in level ==> IsPlaced(g, level, name)
  }

  ghost predicate IsPlaced(g: Graph, level: map<string, nat>, name: string)
    requires name in level
  {
    && name in g
    && (forall d :: d in g[name].dependsOn ==> d in level && level[d] < level[name])
    && (level[name] > 0 ==> exists d :: d in g[name].dependsOn && d in level && level[d] == level[name] - 1)
  }

  /** Along a chain, levels go down by at least one a link. */
  lemma {:induction false} ChainDescends(g: Graph, level: map<string, nat>, c: seq<string>)
    requires IsLevelled(g, level) && IsChain(g, c) && c != [] && c[0] in level
    ensures c[|c| - 1] in level && level[c[|c| - 1]] + |c| - 1 <= level[c[0]]
  {
    if |c| > 1 {
      assert IsPlaced(g, level, c[0]) && c[1] in g[c[0]].dependsOn;
      assert forall i :: 0 <= i < |c[1..]| ==> c[1..][i] == c[i + 1];
      ChainDescends(g, level, c[1..]);
    }
  }

  lemma {:induction false} ChainOfLevel(g: Graph, level: map<string, nat>, name: string) returns (c: seq<string>)
    requires IsLevelled(g, level) && name in level
    ensures IsChain(g, c) && |c| == level[name] + 1 && c[0] == name
    decreases level[name]
  {
    assert IsPlaced(g, level, name);
    if level[name] == 0 {
      c := [name];
    } else {
      var d :| d in g[name].dependsOn && d in level && level[d] == level[name] - 1;
      var rest := ChainOfLevel(g, level, d);
      c := [name] + rest;
    }
  }

  lemma LevelIsDepth(g: Graph, level: map<string, nat>, name: string)
    requires IsLevelled(g, level) && name in level
    ensures IsDepth(g, name, level[name])
  {
    var longest := ChainOfLevel(g, level, name);
    forall c | IsChain(g, c) && c != [] && c[0] == name ensures |c| <= level[name] + 1 {
      ChainDescends(g, level, c);
    }
  }

  lemma LevelsHaveNoCycle(g: Graph, level: map<string, nat>, c: seq<string>)
    requires IsLevelled(g, level) && level.Keys == g.Keys
    ensures !IsCycle(g, c)
  {
    if IsCycle(g, c) {
      ChainDescends(g, level, c);
      assert false;
    }
  }

  lemma ChainSnoc(g: Graph, c: seq<string>, next: string)
    requires IsChain(g, c) && c != [] && next in g && next in g[c[|c| - 1]].dependsOn
    ensures IsChain(g, c + [next])
  {
  }

  lemma ChainFrom(g: Graph, c: seq<string>, i: nat)
    requires IsChain(g, c) && i <= |c|
    ensures IsChain(g, c[i..])
  {
    assert forall j :: 0 <= j < |c[i..]| ==> c[i..][j] == c[i + j];
  }

  ghost predicate Stays(g: Graph, rest: set<string>, name: string)
    requires name in g
  {
    exists d :: d in g[name].dependsOn && d in rest
  }

  /** Each of these modules depends on one of them. */
  ghost predicate NoneLeaves(g: Graph, rest: set<string>)
    requires rest <= g.Keys
  {
    forall name {:trigger Stays(g, rest, name)} :: name in rest ==> Stays(g, rest, name)
  }

  /** Following dependencies inside `rest` comes back to where it has been. */
  lemma FollowDependencies(g: Graph, rest: set<string>, path: seq<string>, seen: set<string>) returns (c: seq<string>)
    requires rest <= g.Keys && NoneLeaves(g, rest)
    requires path != [] && IsChain(g, path) && seen <= rest && forall name :: name in path <==> name in seen
    ensures IsCycle(g, c)
    decreases rest - seen
  {
    var last := path[|path| - 1];
    assert last in path && Stays(g, rest, last);
    var next :| next in g[last].dependsOn && next in rest;
    ChainSnoc(g, path, next);
    var longer := path + [next];
    if next in path {
      var i :| 0 <= i < |path| && path[i] == next;
      ChainFrom(g, longer, i);
      c := longer[i..];
    } else {
      c := FollowDependencies(g, rest, longer, seen + {next});
    }
  }

  /** If something remains and nothing is ready, the modules that remain contain a cycle. */
  lemma StuckHasCycle(g: Graph, remaining: set<string>, done: set<string>) returns (c: seq<string>)
    requires AllKnown(g) && remaining != {} && remaining == g.Keys - done && ReadyOf(g, remaining, done) == {}
    ensures IsCycle(g, c)
  {
    NoneReadyStays(g, remaining, done);
    var start :| start in remaining;
    c := FollowDependencies(g, remaining, [start], {start});
  }

  // ---- the modules of a cycle error -------------------------------------------------

  ghost predicate HasChain(g: Graph, name: string, links: nat) {
    exists c :: IsChain(g, c) && |c| == links + 1 && c[0] == name
  }

  /** Dependency chains from the module go on for ever: it is on a cycle or depends on one. */
  ghost predicate IsEndless(g: Graph, name: string) {
    forall links: nat :: HasChain(g, name, links)
  }

  lemma LevelledIsNotEndless(g: Graph, level: map<string, nat>, name: string)
    requires IsLevelled(g, level) && name in level
    ensures !IsEndless(g, name)
  {
    if HasChain(g, name, level[name] + 1) {
      var c :| IsChain(g, c) && |c| == level[name] + 2 && c[0] == name;
      ChainDescends(g, level, c);
    }
  }

  lemma {:induction false} RemainsHaveChains(g: Graph, rest: set<string>, name: string, links: nat)
    requires rest <= g.Keys && NoneLeaves(g, rest) && name in rest
    ensures HasChain(g, name, links)
    decreases links
  {
    if links == 0 {
      assert IsChain(g, [name]);
    } else {
      assert Stays(g, rest, name);
      var d :| d in g[name].dependsOn && d in rest;
      RemainsHaveChains(g, rest, d, links - 1);
      var c :| IsChain(g, c) && |c| == links && c[0] == d;
      ChainCons(g, name, c);
    }
  }

  lemma ChainCons(g: Graph, name: string, c: seq<string>)
    requires IsChain(g, c) && c != [] && name in g && c[0] in g[name].dependsOn
    ensures IsChain(g, [name] + c)
  {
  }

  lemma NoneReadyStays(g: Graph, remaining: set<string>, done: set<string>)
    requires AllKnown(g) && remaining == g.Keys - done && ReadyOf(g, remaining, done) == {}
    ensures NoneLeaves(g, remaining)
  {
    forall name | name in remaining ensures Stays(g, remaining, name) {
      assert name !in ReadyOf(g, remaining, done);
      var d :| d in g[name].dependsOn && d !in done;
    }
  }

  /** When nothing more is ready, the modules that remain are those whose chains never end. */
  lemma RemainingAreEndless(g: Graph, level: map<string, nat>, remaining: set<string>)
    requires AllKnown(g) && IsLevelled(g, level) && remaining == g.Keys - level.Keys
    requires ReadyOf(g, remaining, level.Keys) == {}
    ensures forall name :: name in remaining <==> name in g && IsEndless(g, name)
  {
    NoneReadyStays(g, remaining, level.Keys);
    forall name | name in remaining ensures IsEndless(g, name) {
      forall links: nat ensures HasChain(g, name, links) {
        RemainsHaveChains(g, remaining, name, links);
      }
    }
    forall name | name in level ensures !IsEndless(g, name) {
      LevelledIsNotEndless(g, level, name);
    }
  }

  /** The error names the modules that no wave can hold, in order. */
  ghost predicate IsCycleError(g: Graph, e: WaveError) {
    && e.Cycle? && InOrder(e.remaining) && e.remaining != []
    && forall name :: name in e.remaining <==> name in g && IsEndless(g, name)
  }

  // ---- the layering -----------------------------------------------------------------

  function NamesOf(wave: seq<Spec>): (names: seq<string>)
    ensures |names| == |wave| && forall i :: 0 <= i < |wave| ==> names[i] == wave[i].name
  {
    seq(|wave|, i requires 0 <= i < |wave| => wave[i].name)
  }

  /** A wave holds, in order of name, exactly the modules at one level. */
  ghost predicate IsWave(g: Graph, level: map<string, nat>, wave: seq<Spec>, k: nat)
    requires level.Keys <= g.Keys
  {
    && wave != [] && InOrder(NamesOf(wave))
    && (forall spec :: spec in wave ==> spec.name in level && level[spec.name] == k && spec == g[spec.name])
    && (forall name :: name in level && level[name] == k ==> name in NamesOf(wave))
  }

  /** What topological_waves promises: the waves hold every module, wave `k` those whose longest
      dependency chain has `k` links, in order of name. */
  ghost predicate IsLayering(g: Graph, waves: seq<seq<Spec>>) {
    && (forall name :: name in g ==> exists k :: 0 <= k < |waves| && g[name] in waves[k])
    && (forall k, spec :: 0 <= k < |waves| && spec in waves[k] ==>
          spec.name in g && spec == g[spec.name] && IsDepth(g, spec.name, k))
    && (forall k :: 0 <= k < |waves| ==> waves[k] != [] && InOrder(NamesOf(waves[k])))
  }

  lemma LevelsAreLayering(g: Graph, level: map<string, nat>, waves: seq<seq<Spec>>)
    requires IsLevelled(g, level) && level.Keys == g.Keys
    requires forall name :: name in level ==> level[name] < |waves|
    requires forall name :: name in g ==> g[name].name == name
    requires forall k :: 0 <= k < |waves| ==> IsWave(g, level, waves[k], k)
    ensures IsLayering(g, waves)
  {
    forall name | name in g ensures exists k :: 0 <= k < |waves| && g[name] in waves[k] {
      var k := level[name];
      assert IsWave(g, level, waves[k], k) && name in NamesOf(waves[k]);
      var i :| 0 <= i < |waves[k]| && NamesOf(waves[k])[i] == name;
      assert waves[k][i] in waves[k] && waves[k][i] == g[name];
    }
    forall k, spec | 0 <= k < |waves| && spec in waves[k]
      ensures spec.name in g && spec == g[spec.name] && IsDepth(g, spec.name, k)
    {
      assert IsWave(g, level, waves[k], k);
      LevelIsDepth(g, level, spec.name);
    }
    assert forall k :: 0 <= k < |waves| ==> IsWave(g, level, waves[k], k);
  }

  /** A module has one depth, so it is in one wave only. */
  lemma DepthIsUnique(g: Graph, name: string, j: nat, k: nat)
    requires IsDepth(g, name, j) && IsDepth(g, name, k)
    ensures j == k
  {
  }

  lemma SharedHead(a: seq<string>, b: seq<string>)
    requires InOrder(a) && InOrder(b) && a != [] && b != [] && a[0] in b && b[0] in a
    ensures a[0] == b[0]
  {
    var i :| 0 <= i < |a| && a[i] == b[0];
    var j :| 0 <= j < |b| && b[j] == a[0];
    if i > 0 && j > 0 {
      BeforeIsTransitive(a[0], b[0], a[0]);
      BeforeIsStrict(a[0]);
    }
  }

  lemma TailInOrder(a: seq<string>)
    requires InOrder(a) && a != []
    ensures InOrder(a[1..]) && a[0] !in a[1..]
  {
    BeforeIsStrict(a[0]);
    assert forall i :: 0 <= i < |a[1..]| ==> a[1..][i] == a[i + 1];
  }

  lemma NotEmpty(a: seq<string>, b: seq<string>)
    requires a != [] && forall name :: name in a ==> name in b
    ensures b != []
  {
    assert a[0] in a;
  }

  /** Two lists in order with the same names are the same list. */
  lemma {:induction false} OrderIsUnique(a: seq<string>, b: seq<string>)
    requires InOrder(a) && InOrder(b) && forall name :: name in a <==> name in b
    ensures a == b
  {
    if a != [] {
      NotEmpty(a, b);
    }
    if b != [] {
      NotEmpty(b, a);
      assert a[0] in b && b[0] in a;
      SharedHead(a, b);
      TailInOrder(a);
      TailInOrder(b);
      assert a == [a[0]] + a[1..] && b == [b[0]] + b[1..];
      forall name ensures name in a[1..] <==> name in b[1..] {
        assert name in a <==> name == a[0] || name in a[1..];
        assert name in b <==> name == b[0] || name in b[1..];
      }
      OrderIsUnique(a[1..], b[1..]);
    }
  }

  /** Waves of one layering are waves of the other. */
  lemma WaveIncluded(g: Graph, waves: seq<seq<Spec>>, waves': seq<seq<Spec>>, k: nat)
    requires IsLayering(g, waves) && IsLayering(g, waves') && k < |waves|
    ensures k < |waves'| && forall spec :: spec in waves[k] ==> spec in waves'[k]
  {
    forall spec | spec in waves[k] ensures k < |waves'| && spec in waves'[k] {
      var j: nat :| j < |waves'| && g[spec.name] in waves'[j];
      DepthIsUnique(g, spec.name, j, k);
    }
    assert waves[k][0] in waves[k];
  }

  lemma SameNames(wave: seq<Spec>, wave': seq<Spec>, name: string)
    requires (forall spec :: spec in wave ==> spec in wave') && name in NamesOf(wave)
    ensures name in NamesOf(wave')
  {
    var i :| 0 <= i < |wave| && NamesOf(wave)[i] == name;
    assert wave[i] in wave;
    var j :| 0 <= j < |wave'| && wave'[j] == wave[i];
    assert NamesOf(wave')[j] == name;
  }

  lemma WaveIsUnique(g: Graph, waves: seq<seq<Spec>>, waves': seq<seq<Spec>>, k: nat)
    requires IsLayering(g, waves) && IsLayering(g, waves') && k < |waves|
    ensures k < |waves'| && waves[k] == waves'[k]
  {
    WaveIncluded(g, waves, waves', k);
    WaveIncluded(g, waves', waves, k);
    var names, names' := NamesOf(waves[k]), NamesOf(waves'[k]);
    forall name ensures name in names <==> name in names' {
      if name in names {
        SameNames(waves[k], waves'[k], name);
      }
      if name in names' {
        SameNames(waves'[k], waves[k], name);
      }
    }
    OrderIsUnique(names, names');
    forall i | 0 <= i < |waves[k]| ensures waves[k][i] == waves'[k][i] {
      assert waves[k][i] in waves[k] && waves'[k][i] in waves'[k];
      assert names[i] == names'[i];
    }
  }

  /** There is one way only to lay the modules out, so the result is determined to the last place. */
  lemma LayeringIsUnique(g: Graph, waves: seq<seq<Spec>>, waves': seq<seq<Spec>>)
    requires IsLayering(g, waves) && IsLayering(g, waves')
    ensures waves == waves'
  {
    if |waves| < |waves'| {
      WaveIsUnique(g, waves', waves, |waves|);
    } else if |waves'| < |waves| {
      WaveIsUnique(g, waves, waves', |waves'|);
    } else {
      forall k: nat | k < |waves| ensures waves[k] == waves'[k] {
        WaveIsUnique(g, waves, waves', k);
      }
    }
  }

  // ---- the method -------------------------------------------------------------------

  predicate IsUnknownDependency(g: Graph, e: WaveError) {
    && e.UnknownDependency? && e.name in g
    && e.dependency in g[e.name].dependsOn && e.dependency !in g
  }

  method FindUnknown(g: Graph) returns (r: Option<WaveError>)
    ensures r == None ==> AllKnown(g)
    ensures r.Some? ==> IsUnknownDependency(g, r.value)
  {
    var rest := g.Keys;
    while rest != {}
      invariant rest <= g.Keys
      invariant forall name, d :: name in g.Keys - rest && d in g[name].dependsOn ==> d in g
      decreases rest
    {
      var name :| name in rest;
      for i := 0 to |g[name].dependsOn|
        invariant forall j :: 0 <= j < i ==> g[name].dependsOn[j] in g
      {
        if g[name].dependsOn[i] !in g {
          return Some(UnknownDependency(g[name].dependsOn[i], name));
        }
      }
      rest := rest - {name};
    }
    r := None;
  }

  /** The modules all of whose dependencies are done. */
  function ReadyOf(g: Graph, remaining: set<string>, done: set<string>): set<string>
    requires remaining <= g.Keys
  {
    set name | name in remaining && forall d :: d in g[name].dependsOn ==> d in done
  }

  /** The specs of some modules, in order of name. */
  method SpecsOf(g: Graph, names: set<string>) returns (wave: seq<Spec>)
    requires names <= g.Keys && forall name :: name in g ==> g[name].name == name
    ensures InOrder(NamesOf(wave)) && forall spec :: spec in wave ==> spec.name in g && spec == g[spec.name]
    ensures forall name :: name in NamesOf(wave) <==> name in names
    ensures wave == [] <==> names == {}
  {
    var sorted := Sorted(names);
    wave := [];
    for i := 0 to |sorted|
      invariant NamesOf(wave) == sorted[..i]
      invariant forall spec :: spec in wave ==> spec.name in g && spec == g[spec.name]
    {
      assert sorted[i] in sorted;
      wave := wave + [g[sorted[i]]];
    }
    assert NamesOf(wave) == sorted;
    assert names != {} ==> exists name :: name in names;
    assert wave != [] ==> NamesOf(wave)[0] in NamesOf(wave);
  }

  /** What the loop of topological_waves keeps. */
  ghost predicate Invariant(g: Graph, level: map<string, nat>, waves: seq<seq<Spec>>) {
    && IsLevelled(g, level) && level.Keys <= g.Keys
    && (forall name :: name in level ==> level[name] < |waves|)
    && (forall k :: 0 <= k < |waves| ==> IsWave(g, level, waves[k], k))
    && (waves != [] ==> forall name :: name in g && name !in level ==>
          IsHeldBack(g, level, name, |waves| - 1))
  }

  /** A module that was not ready for wave `k`: it depends on one that was not done before. */
  ghost predicate IsHeldBack(g: Graph, level: map<string, nat>, name: string, k: nat)
    requires name in g
  {
    exists d :: d in g[name].dependsOn && (d in level ==> level[d] == k)
  }

  /** The ready modules put on the next level. */
  ghost function Raised(g: Graph, level: map<string, nat>, k: nat): map<string, nat> {
    level + map name | name in ReadyOf(g, g.Keys - level.Keys, level.Keys) :: k
  }

  lemma RaisedKeys(g: Graph, level: map<string, nat>, k: nat)
    requires level.Keys <= g.Keys
    ensures Raised(g, level, k).Keys == level.Keys + ReadyOf(g, g.Keys - level.Keys, level.Keys)
  {
  }

  lemma RaisedIsLevelled(g: Graph, level: map<string, nat>, k: nat)
    requires IsLevelled(g, level) && forall name :: name in level ==> level[name] < k
    requires k > 0 ==> forall name :: name in g && name !in level ==> IsHeldBack(g, level, name, k - 1)
    ensures IsLevelled(g, Raised(g, level, k))
  {
    var level' := Raised(g, level, k);
    forall name | name in level' ensures IsPlaced(g, level', name) {
      if name in level {
        assert IsPlaced(g, level, name);
      } else if k > 0 {
        assert IsHeldBack(g, level, name, k - 1);
      }
    }
  }

  lemma WaveKept(g: Graph, level: map<string, nat>, k: nat, wave: seq<Spec>, j: nat)
    requires level.Keys <= g.Keys && IsWave(g, level, wave, j) && j < k
    ensures IsWave(g, Raised(g, level, k), wave, j)
  {
  }

  lemma WaveAdded(g: Graph, level: map<string, nat>, k: nat, wave: seq<Spec>)
    requires level.Keys <= g.Keys && forall name :: name in level ==> level[name] < k
    requires wave != [] && InOrder(NamesOf(wave))
    requires forall spec :: spec in wave ==> spec.name in g && spec == g[spec.name]
    requires forall name :: name in NamesOf(wave) <==> name in ReadyOf(g, g.Keys - level.Keys, level.Keys)
    ensures IsWave(g, Raised(g, level, k), wave, k)
  {
    forall spec | spec in wave ensures spec.name in NamesOf(wave) {
      var i :| 0 <= i < |wave| && wave[i] == spec;
      assert NamesOf(wave)[i] == spec.name;
    }
  }

  lemma OthersHeldBack(g: Graph, level: map<string, nat>, k: nat, name: string)
    requires level.Keys <= g.Keys && name in g && name !in Raised(g, level, k)
    ensures IsHeldBack(g, Raised(g, level, k), name, k)
  {
    var d :| d in g[name].dependsOn && d !in level;
  }

  /** One turn of the loop: the ready modules become the next wave. */
  lemma LayerAdded(g: Graph, level: map<string, nat>, waves: seq<seq<Spec>>, wave: seq<Spec>)
    requires Invariant(g, level, waves) && wave != [] && InOrder(NamesOf(wave))
    requires forall spec :: spec in wave ==> spec.name in g && spec == g[spec.name]
    requires forall name :: name in NamesOf(wave) <==> name in ReadyOf(g, g.Keys - level.Keys, level.Keys)
    ensures Invariant(g, Raised(g, level, |waves|), waves + [wave])
  {
    var k := |waves|;
    var level' := Raised(g, level, k);
    RaisedIsLevelled(g, level, k);
    forall j | 0 <= j <= k ensures IsWave(g, level', (waves + [wave])[j], j) {
      if j < k {
        WaveKept(g, level, k, waves[j], j);
      } else {
        WaveAdded(g, level, k, wave);
      }
    }
    forall name | name in g && name !in level' ensures IsHeldBack(g, level', name, k) {
      OthersHeldBack(g, level, k, name);
    }
  }

  /** The end of the loop: all modules have a level. */
  lemma AllLayered(g: Graph, level: map<string, nat>, waves: seq<seq<Spec>>)
    requires Invariant(g, level, waves) && level.Keys == g.Keys && forall name :: name in g ==> g[name].name == name
    ensures IsLayering(g, waves) && forall c :: !IsCycle(g, c)
  {
    LevelsAreLayering(g, level, waves);
    forall c ensures !IsCycle(g, c) {
      LevelsHaveNoCycle(g, level, c);
    }
  }

  lemma SortedIsNotEmpty(names: set<string>, sorted: seq<string>)
    requires names != {} && forall name :: name in sorted <==> name in names
    ensures sorted != []
  {
    var name :| name in names;
    assert name in sorted;
  }

  /** The loop of topological_waves. */
  method Layers(g: Graph) returns (r: Result<seq<seq<Spec>>, WaveError>)
    requires AllKnown(g) && forall name :: name in g ==> g[name].name == name
    ensures r.Ok? ==> IsLayering(g, r.value) && forall c :: !IsCycle(g, c)
    ensures r.Err? ==> IsCycleError(g, r.error) && exists c :: IsCycle(g, c)
  {
    var done, remaining, waves := {}, g.Keys, [];
    ghost var level: map<string, nat> := map[];
    while remaining != {}
      invariant done == level.Keys && remaining == g.Keys - done && Invariant(g, level, waves)
      decreases remaining
    {
      var ready := ReadyOf(g, remaining, done);
      if ready == {} {
        ghost var c := StuckHasCycle(g, remaining, done);
        RemainingAreEndless(g, level, remaining);
        var stuck := Sorted(remaining);
        SortedIsNotEmpty(remaining, stuck);
        return Err(Cycle(stuck));
      }
      var wave := SpecsOf(g, ready);
      LayerAdded(g, level, waves, wave);
      RaisedKeys(g, level, |waves|);
      level := Raised(g, level, |waves|);
      waves, done, remaining := waves + [wave], done + ready, remaining - ready;
    }
    AllLayered(g, level, waves);
    r := Ok(waves);
  }

  /** Waves exist exactly if every dependency is known and no chain of dependencies comes back. */
  method TopologicalWaves(specs: seq<Spec>) returns (r: Result<seq<seq<Spec>>, WaveError>)
    ensures r.Ok? ==> IsLayering(ByName(specs), r.value)
    ensures r.Ok? <==> AllKnown(ByName(specs)) && forall c :: !IsCycle(ByName(specs), c)
    ensures r.Err? ==>
      if r.error.Cycle? then AllKnown(ByName(specs)) && IsCycleError(ByName(specs), r.error)
      else IsUnknownDependency(ByName(specs), r.error)
  {
    var g := ByName(specs);
    var unknown := FindUnknown(g);
    if unknown.Some? {
      return Err(unknown.value);
    }
    r := Layers(g);
  }
}
