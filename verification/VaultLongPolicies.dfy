/** What the runtime's policy buffer does to a policy that does not fit it. */
module VaultLongPolicies {
  import opened Options
  import opened VaultAst
  import opened VaultLexer
  import opened VaultGrammar
  import opened VaultParser
  import opened VaultParserCorrect
  import opened VaultPrinter
  import VaultCutting
  import opened VaultRuntime
  import E = VaultEvaluator
  import R = VaultRuns
  import W = VaultWitnesses

  /** The runtime decides on the policy that was validated exactly if the buffer holds all tokens
      of its text. */
  lemma KeptIsWholeIffTokens(dsl: string)
    requires Parse(dsl).Some?
    ensures Parse(Truncated(dsl)) == Parse(dsl) <==> Tokens(Truncated(dsl)) == Tokens(dsl)
  {
    if |dsl| > 4095 {
      VaultCutting.CutIsSameIffTokens(dsl, 4095);
    }
  }

  /** So a vault whose policy is kept whole is unlocked only while that policy holds. */
  lemma UnlockObeysPolicy(w: World, s: State, vid: string, env: Env, d: E.Decision, dsl: string)
    requires E.ValidClock(env.context) && Decided(w, s, Some(vid), env, d)
    requires PolicyOf(Loaded(w, s.registry), vid) == Some(Truncated(dsl)) && Parse(dsl).Some?
    requires Tokens(Truncated(dsl)) == Tokens(dsl)
    ensures Unlocking(w, s, Some(vid), env, d).1.Unlocked? ==>
      E.Eval(Parse(dsl).value.allow, env.context) == E.True
  {
    KeptIsWholeIffTokens(dsl);
    if Unlocking(w, s, Some(vid), env, d).1.Unlocked? {
      R.UnlockObeysKept(w, s, Some(vid), env, d);
    }
  }

  function Spaces(n: nat): (s: string)
    ensures |s| == n && forall i :: 0 <= i < n ==> s[i] == ' '
  {
    if n == 0 then "" else [' '] + Spaces(n - 1)
  }

  lemma {:induction false} TokensOfSpaced(n: nat, s: string)
    ensures Tokens(Spaces(n) + s) == Tokens(s)
  {
    if n == 0 {
      assert Spaces(0) + s == s;
    } else {
      assert Spaces(n) + s == [' '] + (Spaces(n - 1) + s);
      TokensSkip(Spaces(n - 1) + s);
      TokensOfSpaced(n - 1, s);
    }
  }

  lemma OneMoreToken(t: Token, more: string)
    requires IsPrintable(t)
    ensures Tokens(TokenText(t) + ([' '] + more)) == [t] + Tokens(more)
  {
    TokensSkip(more);
    TokensStep(t, [' '] + more);
  }

  lemma RenderAppend(a: seq<Token>, rest: string)
    requires AllPrintable(a) && a != []
    ensures Render(a) + rest == TokenText(a[0]) + ([' '] + (Render(a[1..]) + rest))
  {
  }

  lemma Rejoined<T>(a: seq<T>, b: seq<T>)
    requires a != []
    ensures [a[0]] + (a[1..] + b) == a + b
  {
  }

  lemma TokensPrepend(a: seq<Token>, rest: string, more: string, tail: seq<Token>) returns (text: string)
    requires AllPrintable(a) && a != [] && more == Render(a[1..]) + rest && Tokens(more) == a[1..] + tail
    ensures text == Render(a) + rest && Tokens(text) == a + tail
  {
    text := TokenText(a[0]) + ([' '] + more);
    RenderAppend(a, rest);
    OneMoreToken(a[0], more);
    Rejoined(a, tail);
  }

  lemma {:induction false} TokensAppend(a: seq<Token>, rest: string, tail: seq<Token>) returns (text: string)
    requires AllPrintable(a) && Tokens(rest) == tail
    ensures text == Render(a) + rest && Tokens(text) == a + tail
    decreases |a|
  {
    if a == [] {
      text := rest;
      assert "" + rest == rest && [] + tail == tail;
    } else {
      text := TokensAppend(a[1..], rest, tail);
      text := TokensPrepend(a, rest, text, tail);
    }
  }

  /** A gap between printed tokens, however wide, is not read. */
  lemma TokensOfGap(a: seq<Token>, n: nat, b: seq<Token>)
    requires AllPrintable(a) && AllPrintable(b)
    ensures Tokens(Render(a) + (Spaces(n) + Render(b))) == a + b
  {
    TokensOfSpaced(n, Render(b));
    TokensOfRender(b);
    var text := TokensAppend(a, Spaces(n) + Render(b), b);
  }

  /** The tokens of `allow_when : e`, with `e` in parentheses if `and` binds more tightly. */
  function Opening(e: Expr): seq<Token>
    requires IsBuildableExpr(e)
  {
    [ALLOW_WHEN, Colon] + Print(e, 1)
  }

  lemma PrintedConjunction(e: Expr, f: Expr)
    requires IsBuildableExpr(e) && IsBuildableExpr(f)
    ensures PrintPolicy(Policy(And(e, f), None)) == Opening(e) + ([AND] + Print(f, 2))
  {
  }

  lemma OpeningDerives(e: Expr)
    requires IsBuildableExpr(e)
    ensures DerivesPolicy(Policy(e, None), Opening(e))
  {
    var ts := Print(e, 1);
    PrintDerives(e, 1);
    DerivesLooser(e, 1, 0, ts);
    BodyDerives(e, ts, Opening(e));
  }

  lemma BodyDerives(e: Expr, body: seq<Token>, ts: seq<Token>)
    requires DerivesOr(e, body) && ts == [ALLOW_WHEN, Colon] + body
    ensures DerivesPolicy(Policy(e, None), ts)
  {
    assert ts[2..|ts|] == body && ts[|ts|..] == [];
    assert DerivesPolicyAt(Policy(e, None), ts, |ts|);
  }

  lemma OpeningIsPrintable(e: Expr, f: Expr)
    requires IsBuildableExpr(e) && IsBuildableExpr(f)
    ensures AllPrintable(Opening(e)) && AllPrintable([AND] + Print(f, 2))
  {
    var p := PrintPolicy(Policy(And(e, f), None));
    PolicyIsPrintable(Policy(And(e, f), None));
    PrintedConjunction(e, f);
    assert forall i :: 0 <= i < |Opening(e)| ==> Opening(e)[i] == p[i];
    var cut := [AND] + Print(f, 2);
    assert forall i :: 0 <= i < |cut| ==> cut[i] == p[|Opening(e)| + i];
  }

  ghost function KeptText(e: Expr): string
    requires IsBuildableExpr(e)
  {
    OpeningIsPrintable(e, e);
    Render(Opening(e))
  }

  lemma ParsedFromTokens(text: string, p: Policy, ts: seq<Token>)
    requires Tokens(text) == ts && DerivesPolicy(p, ts)
    ensures Parse(text) == Some(p)
  {
    PolicyComplete(ts, p);
  }

  /** A policy may be written so that only its first condition is kept: for all conditions `e`
      that fit the buffer and `f`, there is a text of `e and f` that the runtime keeps as `e`. */
  lemma LongPolicyIsCut(e: Expr, f: Expr) returns (text: string)
    requires IsBuildableExpr(e) && IsBuildableExpr(f)
    requires |KeptText(e)| <= 4095
    ensures Parse(text) == Some(Policy(And(e, f), None))
    ensures Parse(Truncated(text)) == Some(Policy(e, None))
  {
    OpeningIsPrintable(e, f);
    var kept, cut := Opening(e), [AND] + Print(f, 2);
    text := Render(kept) + (Spaces(4095) + Render(cut));
    TokensOfGap(kept, 4095, cut);
    PrintedConjunction(e, f);
    PolicyDerives(Policy(And(e, f), None));
    ParsedFromTokens(text, Policy(And(e, f), None), kept + cut);
    var left := 4095 - |Render(kept)|;
    TruncatedGap(Render(kept), Render(cut), left);
    TokensOfGap(kept, left, []);
    assert kept + [] == kept;
    OpeningDerives(e);
    ParsedFromTokens(Truncated(text), Policy(e, None), kept);
  }

  lemma TruncatedGap(kept: string, cut: string, left: nat)
    requires |kept| + left == 4095
    ensures Truncated(kept + (Spaces(4095) + cut)) == kept + (Spaces(left) + "")
  {
  }

  /** So a vault can be created with a policy of `e and f` and unlocked while `e and f` does not
      hold, as long as `e` does. */
  lemma LongPolicyUnlocks(w: World, e: Expr, f: Expr, env: Env, text: string) returns (before: seq<R.Op>)
    requires Parse(text) == Some(Policy(And(e, f), None)) && Parse(Truncated(text)) == Some(Policy(e, None))
    requires W.Cooperates(env) && env.freshId != "" && E.ValidClock(env.context)
    requires w.registrySize([W.EntryOf(text, env)]) <= 65535
    requires E.Eval(e, env.context) == E.True && E.Eval(f, env.context) != E.True
    ensures R.Run(w, before).s.registry == [W.EntryOf(text, env)] && W.IsPlayed(w, before + [W.OpenIt(env)])
    ensures R.Reaction(w, R.Run(w, before).s, W.OpenIt(env)).1 == Unlocked(0)
    ensures E.Eval(And(e, f), env.context) != E.True
  {
    var ops;
    before, ops := W.OpenVault(w, text, env);
  }
}
