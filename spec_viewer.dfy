/**
 * `components/SpecViewer.tsx`: the LaTeX-lite text renderer `renderMathText`, the
 * confidence badge and the fallbacks the statement sheet shows for missing fields.
 * Rendered output is described by what it shows, not by its markup.
 */
module SpecViewer {
  import opened Wrappers
  import opened JsStrings
  import opened Types

  // ---- Symbol substitution ---------------------------------------------------

  /** A literal pattern and the text that replaces every occurrence of it. */
  type Rule = (string, string)

  /** The ten `.replace(/\\.../g, ...)` calls, in the order they are chained. */
  const MathSymbols: seq<Rule> := [
    ("\\le", "≤"), ("\\ge", "≥"), ("\\ne", "≠"), ("\\cdot", "·"), ("\\times", "×"),
    ("\\approx", "≈"), ("\\in", "∈"), ("\\infty", "∞"), ("\\rightarrow", "→"), ("\\leftarrow", "←")]

  /** The chain without the `\infty` and `\leftarrow` rules. */
  const LiveSymbols: seq<Rule> := [
    ("\\le", "≤"), ("\\ge", "≥"), ("\\ne", "≠"), ("\\cdot", "·"), ("\\times", "×"),
    ("\\approx", "≈"), ("\\in", "∈"), ("\\rightarrow", "→")]

  predicate WellFormedRules(rules: seq<Rule>) {
    forall i :: 0 <= i < |rules| ==> rules[i].0 != [] && rules[i].1 != []
  }

  /** Each rule of the chain replaces a backslash command by one symbol. */
  predicate CommandRules(rules: seq<Rule>) {
    forall i :: 0 <= i < |rules| ==> |rules[i].0| > 1 && rules[i].0[0] == '\\' && '\\' !in rules[i].1
  }

  /** Every slice of the chain is well formed and made of command rules. */
  lemma MathSymbolsFormed(i: nat, j: nat)
    requires i <= j <= |MathSymbols|
    ensures WellFormedRules(MathSymbols[i..j]) && CommandRules(MathSymbols[i..j])
  {
    assert WellFormedRules(MathSymbols) && CommandRules(MathSymbols) by {
      forall k | 0 <= k < |MathSymbols|
        ensures MathSymbols[k].0 != [] && MathSymbols[k].1 != []
        ensures |MathSymbols[k].0| > 1 && MathSymbols[k].0[0] == '\\' && '\\' !in MathSymbols[k].1
      {
      }
    }
    forall k | 0 <= k < j - i ensures MathSymbols[i..j][k] == MathSymbols[i + k] {
    }
  }

  /** The rules applied one after the other, each to the whole text the previous one produced. */
  function Substituted(s: string, rules: seq<Rule>): string
    requires WellFormedRules(rules)
    decreases |rules|
  {
    if rules == [] then s else Substituted(ReplaceAll(s, rules[0].0, rules[0].1), rules[1..])
  }

  /** Running two chains in a row is running their concatenation. */
  lemma {:induction false} SubstitutedAppend(s: string, a: seq<Rule>, b: seq<Rule>)
    requires WellFormedRules(a) && WellFormedRules(b)
    ensures WellFormedRules(a + b)
    ensures Substituted(s, a + b) == Substituted(Substituted(s, a), b)
    decreases |a|
  {
    assert WellFormedRules(a + b) by {
      forall i | 0 <= i < |a + b| ensures (a + b)[i].0 != [] && (a + b)[i].1 != [] {
        if i < |a| { assert (a + b)[i] == a[i]; } else { assert (a + b)[i] == b[i - |a|]; }
      }
    }
    if a == [] {
      assert a + b == b;
    } else {
      var t := ReplaceAll(s, a[0].0, a[0].1);
      assert (a + b)[0] == a[0] && (a + b)[1..] == a[1..] + b;
      assert Substituted(s, a + b) == Substituted(t, a[1..] + b);
      assert Substituted(s, a) == Substituted(t, a[1..]);
      SubstitutedAppend(t, a[1..], b);
    }
  }

  /** A chain whose replacements share no character with `q` never creates an occurrence of `q`. */
  lemma {:induction false} SubstitutedAddsNoOccurrence(s: string, rules: seq<Rule>, q: string)
    requires WellFormedRules(rules) && q != []
    requires forall i :: 0 <= i < |rules| ==> SharesNoChar(rules[i].1, q)
    requires !Occurs(s, q)
    ensures !Occurs(Substituted(s, rules), q)
    decreases |rules|
  {
    if rules != [] {
      ReplaceAllAddsNoOccurrence(s, rules[0].0, rules[0].1, q);
      SubstitutedAddsNoOccurrence(ReplaceAll(s, rules[0].0, rules[0].1), rules[1..], q);
    }
  }

  /** A rule that finds nothing in the text that reaches it can be dropped from the chain. */
  lemma SkipDeadRule(s: string, rules: seq<Rule>, k: nat)
    requires WellFormedRules(rules) && k < |rules|
    requires !Occurs(Substituted(s, rules[..k]), rules[k].0)
    ensures WellFormedRules(rules[..k] + rules[k + 1..])
    ensures Substituted(s, rules) == Substituted(s, rules[..k] + rules[k + 1..])
  {
    var t := Substituted(s, rules[..k]);
    assert rules == rules[..k] + rules[k..];
    SubstitutedAppend(s, rules[..k], rules[k..]);
    ReplaceAllAbsent(t, rules[k].0, rules[k].1);
    assert rules[k..][1..] == rules[k + 1..];
    SubstitutedAppend(s, rules[..k], rules[k + 1..]);
  }

  /** Text without a backslash passes the chain unchanged. */
  lemma {:induction false} SubstitutedKeepsPlainText(s: string, rules: seq<Rule>)
    requires WellFormedRules(rules) && CommandRules(rules)
    requires '\\' !in s
    ensures Substituted(s, rules) == s
    decreases |rules|
  {
    if rules != [] {
      OccursNeedsFirstChar(s, rules[0].0);
      ReplaceAllAbsent(s, rules[0].0, rules[0].1);
      SubstitutedKeepsPlainText(s, rules[1..]);
    }
  }

  /** Helper: once `\in` is gone, so is `\infty`. */
  lemma NoInftyAfterIn(t: string)
    requires !Occurs(t, "\\in")
    ensures !Occurs(t, "\\infty")
  {
    if Occurs(t, "\\infty") {
      assert "\\infty" == "\\in" + "fty";
      OccursOfPrefix(t, "\\in", "fty");
    }
  }

  /** Helper: once `\le` is gone, so is `\leftarrow`. */
  lemma NoLeftarrowAfterLe(t: string)
    requires !Occurs(t, "\\le")
    ensures !Occurs(t, "\\leftarrow")
  {
    if Occurs(t, "\\leftarrow") {
      assert "\\leftarrow" == "\\le" + "ftarrow";
      OccursOfPrefix(t, "\\le", "ftarrow");
    }
  }

  /** The chain without the `\infty` rule: the one step between the full chain and the live one. */
  const WithoutInfty: seq<Rule> := [
    ("\\le", "≤"), ("\\ge", "≥"), ("\\ne", "≠"), ("\\cdot", "·"), ("\\times", "×"),
    ("\\approx", "≈"), ("\\in", "∈"), ("\\rightarrow", "→"), ("\\leftarrow", "←")]

  /** Helper: the slices of the three chains used below. */
  lemma ChainSlices()
    ensures MathSymbols[..7] + MathSymbols[8..] == WithoutInfty
    ensures WithoutInfty[..8] + WithoutInfty[9..] == LiveSymbols
    ensures MathSymbols[..7] == MathSymbols[..6] + [MathSymbols[6]] && MathSymbols[6] == ("\\in", "∈")
    ensures WithoutInfty[..8] == [WithoutInfty[0]] + WithoutInfty[1..8] && WithoutInfty[0] == ("\\le", "≤")
    ensures WellFormedRules(MathSymbols) && WellFormedRules(WithoutInfty)
    ensures WellFormedRules(MathSymbols[..6]) && WellFormedRules(WithoutInfty[1..8])
    ensures forall i :: 0 <= i < |WithoutInfty[1..8]| ==> SharesNoChar(WithoutInfty[1..8][i].1, "\\le")
  {
    MathSymbolsFormed(0, |MathSymbols|);
    MathSymbolsFormed(0, 6);
    assert MathSymbols[0..|MathSymbols|] == MathSymbols && MathSymbols[0..6] == MathSymbols[..6];
    assert WithoutInfty[1..8] == [("\\ge", "≥"), ("\\ne", "≠"), ("\\cdot", "·"), ("\\times", "×"),
                                  ("\\approx", "≈"), ("\\in", "∈"), ("\\rightarrow", "→")];
  }

  /** Helper: the `\infty` rule finds nothing, since `\in` has just been replaced everywhere. */
  lemma InftyRuleFindsNothing(s: string)
    ensures WellFormedRules(MathSymbols[..7])
    ensures !Occurs(Substituted(s, MathSymbols[..7]), "\\infty")
  {
    ChainSlices();
    var before := Substituted(s, MathSymbols[..6]);
    SubstitutedAppend(s, MathSymbols[..6], [MathSymbols[6]]);
    assert Substituted(before, [MathSymbols[6]]) == ReplaceAll(before, "\\in", "∈");
    ReplaceAllRemovesPattern(before, "\\in", "∈");
    NoInftyAfterIn(Substituted(s, MathSymbols[..7]));
  }

  /** Helper: the `\leftarrow` rule finds nothing, since no rule after `\le` brings a `\le` back. */
  lemma LeftarrowRuleFindsNothing(s: string)
    ensures WellFormedRules(WithoutInfty[..8])
    ensures !Occurs(Substituted(s, WithoutInfty[..8]), "\\leftarrow")
  {
    ChainSlices();
    var afterLe := ReplaceAll(s, "\\le", "≤");
    ReplaceAllRemovesPattern(s, "\\le", "≤");
    SubstitutedAddsNoOccurrence(afterLe, WithoutInfty[1..8], "\\le");
    SubstitutedAppend(s, [WithoutInfty[0]], WithoutInfty[1..8]);
    assert Substituted(s, [WithoutInfty[0]]) == afterLe;
    NoLeftarrowAfterLe(Substituted(s, WithoutInfty[..8]));
  }

  /**
   * The `\infty` and `\leftarrow` rules never fire: the earlier `\in` and `\le` rules
   * have already consumed every occurrence, so the chain does what it would do without them.
   */
  lemma DeadRules(s: string)
    ensures WellFormedRules(MathSymbols) && WellFormedRules(LiveSymbols)
    ensures Substituted(s, MathSymbols) == Substituted(s, LiveSymbols)
  {
    ChainSlices();
    InftyRuleFindsNothing(s);
    SkipDeadRule(s, MathSymbols, 7);
    LeftarrowRuleFindsNothing(s);
    SkipDeadRule(s, WithoutInfty, 8);
  }

  /** Helper: the chain cut after its first `k` rules. */
  lemma MathSymbolsSplit(s: string, k: nat)
    requires k <= |MathSymbols|
    ensures WellFormedRules(MathSymbols) && WellFormedRules(MathSymbols[..k]) && WellFormedRules(MathSymbols[k..])
    ensures CommandRules(MathSymbols[k..])
    ensures Substituted(s, MathSymbols) == Substituted(Substituted(s, MathSymbols[..k]), MathSymbols[k..])
  {
    var m := MathSymbols;
    MathSymbolsFormed(0, |m|);
    MathSymbolsFormed(0, k);
    MathSymbolsFormed(k, |m|);
    assert m[0..|m|] == m && m[0..k] == m[..k] && m[k..|m|] == m[k..];
    assert m == m[..k] + m[k..];
    SubstitutedAppend(s, m[..k], m[k..]);
  }

  /** Helper: the first rule of a chain acts first. */
  lemma SubstitutedHead(s: string, rules: seq<Rule>)
    requires WellFormedRules(rules) && rules != []
    ensures WellFormedRules(rules[1..])
    ensures Substituted(s, rules) == Substituted(ReplaceAll(s, rules[0].0, rules[0].1), rules[1..])
  {
    assert forall i :: 0 <= i < |rules[1..]| ==> rules[1..][i] == rules[i + 1];
  }

  /** Helper: a replacement pattern that is a prefix of a plain-text-embedded word rewrites just that prefix. */
  lemma ReplaceCommandPrefix(pre: string, p: string, r: string, rest: string, post: string)
    requires |p| > 1 && p[0] == '\\' && '\\' !in pre && '\\' !in rest && '\\' !in post
    ensures ReplaceAll(pre + p + rest + post, p, r) == pre + r + rest + post
  {
    RegroupFour(pre, p, rest, post);
    ReplaceAllSkipsPrefix(pre, p + (rest + post), p, r);
    ReplaceAllAtMatch(p, rest + post, r);
    ReplaceAllSkipsPrefix(rest, post, p, r);
    OccursNeedsFirstChar(post, p);
    ReplaceAllAbsent(post, p, r);
    RegroupFour(pre, r, rest, post);
  }

  /** Helper: the chain is its first rule followed by the other nine. */
  lemma FirstRuleStep(s: string)
    ensures WellFormedRules(MathSymbols) && WellFormedRules(MathSymbols[1..])
    ensures Substituted(s, MathSymbols) == Substituted(ReplaceAll(s, "\\le", "≤"), MathSymbols[1..])
  {
    MathSymbolsSplit(s, 1);
    SubstitutedHead(s, MathSymbols[..1]);
    assert MathSymbols[..1][1..] == [];
  }

  /** Helper: the chain is its first six rules, the `\in` rule, then the last three. */
  lemma InRuleStep(s: string)
    ensures WellFormedRules(MathSymbols) && WellFormedRules(MathSymbols[..6]) && WellFormedRules(MathSymbols[7..])
    ensures Substituted(s, MathSymbols) ==
            Substituted(ReplaceAll(Substituted(s, MathSymbols[..6]), "\\in", "∈"), MathSymbols[7..])
  {
    var m := MathSymbols;
    MathSymbolsSplit(s, 6);
    SubstitutedHead(Substituted(s, m[..6]), m[6..]);
    assert m[6..][0] == m[6] && m[6..][1..] == m[7..];
  }

  /** Helper: text without a backslash passes the rules after the first `k` unchanged. */
  lemma PlainTextPassesRest(x: string, k: nat)
    requires '\\' !in x && k <= |MathSymbols|
    ensures WellFormedRules(MathSymbols[k..])
    ensures Substituted(x, MathSymbols[k..]) == x
  {
    MathSymbolsSplit(x, k);
    SubstitutedKeepsPlainText(x, MathSymbols[k..]);
  }

  /** Helper: text the first rule turns into plain text comes out of the chain as that text. */
  lemma PlainAfterFirstRule(s: string, t: string)
    requires ReplaceAll(s, "\\le", "≤") == t && '\\' !in t
    ensures WellFormedRules(MathSymbols)
    ensures Substituted(s, MathSymbols) == t
  {
    FirstRuleStep(s);
    PlainTextPassesRest(t, 1);
  }

  /** Helper: text the first seven rules turn into plain text, with the first six finding nothing. */
  lemma PlainAfterInRule(s: string, t: string)
    requires forall i :: 0 <= i < |MathSymbols[..6]| ==> !Occurs(s, MathSymbols[..6][i].0)
    requires ReplaceAll(s, "\\in", "∈") == t && '\\' !in t
    ensures WellFormedRules(MathSymbols)
    ensures Substituted(s, MathSymbols) == t
  {
    InRuleStep(s);
    SubstitutedSkipsAbsent(s, MathSymbols[..6]);
    PlainTextPassesRest(t, 7);
  }

  /**
   * Helper: a rule whose pattern begins a longer command in plain text rewrites just that
   * beginning, and leaves plain text when its replacement is plain.
   */
  lemma RuleEatsCommandPrefix(pre: string, p: string, r: string, tail: string, post: string)
    requires |p| > 1 && p[0] == '\\' && '\\' !in pre && '\\' !in tail && '\\' !in post && '\\' !in r
    ensures ReplaceAll(pre + (p + tail) + post, p, r) == pre + (r + tail) + post
    ensures '\\' !in pre + (r + tail) + post
  {
    assert pre + (p + tail) + post == pre + p + tail + post;
    assert pre + (r + tail) + post == pre + r + tail + post;
    ReplaceCommandPrefix(pre, p, r, tail, post);
  }

  /**
   * `\leftarrow` comes out as `≤ftarrow`: the `\le` rule takes its first three characters
   * (shown for the command standing in text without other backslashes).
   */
  lemma LeftarrowClobbered(pre: string, post: string)
    requires '\\' !in pre && '\\' !in post
    ensures WellFormedRules(MathSymbols)
    ensures Substituted(pre + "\\leftarrow" + post, MathSymbols) == pre + "≤ftarrow" + post
  {
    assert "\\leftarrow" == "\\le" + "ftarrow" && "≤ftarrow" == "≤" + "ftarrow";
    RuleEatsCommandPrefix(pre, "\\le", "≤", "ftarrow", post);
    PlainAfterFirstRule(pre + "\\leftarrow" + post, pre + "≤ftarrow" + post);
  }

  /**
   * `\infty` comes out as `∈fty`: the `\in` rule takes its first three characters
   * (shown for the command standing in text without other backslashes).
   */
  lemma InftyClobbered(pre: string, post: string)
    requires '\\' !in pre && '\\' !in post
    ensures WellFormedRules(MathSymbols)
    ensures Substituted(pre + "\\infty" + post, MathSymbols) == pre + "∈fty" + post
  {
    InftyMissesFirstSix(pre, post);
    assert "\\infty" == "\\in" + "fty" && "∈fty" == "∈" + "fty";
    RuleEatsCommandPrefix(pre, "\\in", "∈", "fty", post);
    PlainAfterInRule(pre + "\\infty" + post, pre + "∈fty" + post);
  }

  /** Helper: an occurrence of one command inside another means their letters agree. */
  lemma CommandOccursOnlyAtBackslash(pre: string, c: string, post: string, p: string)
    requires '\\' !in pre && '\\' !in post && |c| > 1 && c[0] == '\\' && '\\' !in c[1..]
    requires |p| > 1 && p[0] == '\\' && !StartsWith(c + post, p)
    ensures !Occurs(pre + c + post, p)
  {
    assert pre + c + post == pre + (c + post);
    if Occurs(pre + (c + post), p) {
      OccursSkipsPrefix(pre, c + post, p);
      assert (c + post)[1..] == c[1..] + post;
      OccursNeedsFirstChar(c[1..] + post, p);
    }
  }

  /** Helper: none of the first six patterns occurs in `\infty` standing in plain text. */
  lemma InftyMissesFirstSix(pre: string, post: string)
    requires '\\' !in pre && '\\' !in post
    ensures forall i :: 0 <= i < |MathSymbols[..6]| ==> !Occurs(pre + "\\infty" + post, MathSymbols[..6][i].0)
  {
    var c := "\\infty";
    assert c[1..] == "infty";
    forall i | 0 <= i < 6 ensures !Occurs(pre + c + post, MathSymbols[i].0) {
      var p := MathSymbols[i].0;
      assert p[0] == '\\' && p[1] != 'i';
      if |p| <= |c + post| {
        assert (c + post)[..|p|][1] == c[1];
      }
      CommandOccursOnlyAtBackslash(pre, c, post, p);
    }
  }

  /** Helper: a chain none of whose patterns occurs in the text leaves it alone. */
  lemma {:induction false} SubstitutedSkipsAbsent(s: string, rules: seq<Rule>)
    requires WellFormedRules(rules)
    requires forall i :: 0 <= i < |rules| ==> !Occurs(s, rules[i].0)
    ensures Substituted(s, rules) == s
    decreases |rules|
  {
    if rules != [] {
      ReplaceAllAbsent(s, rules[0].0, rules[0].1);
      SubstitutedSkipsAbsent(s, rules[1..]);
    }
  }

  // ---- Fractions -------------------------------------------------------------

  /** The length of the longest prefix without `}`: what the greedy `[^}]+` can take. */
  function NonBraceRun(s: string): (n: nat)
    ensures n <= |s|
    ensures n < |s| ==> s[n] == '}'
    decreases |s|
  {
    if s == [] || s[0] == '}' then 0 else 1 + NonBraceRun(s[1..])
  }

  /** No `}` comes before the end of the brace-free run. */
  lemma {:induction false} NonBraceRunFree(s: string)
    ensures forall i :: 0 <= i < NonBraceRun(s) ==> s[i] != '}'
    decreases |s|
  {
    if s != [] && s[0] != '}' {
      NonBraceRunFree(s[1..]);
      assert forall i :: 1 <= i < NonBraceRun(s) ==> s[i] == s[1..][i - 1];
    }
  }

  /** A match of `/\\frac\{([^}]+)\}\{([^}]+)\}/` at the start of the text. */
  datatype FracMatch = FracMatch(numerator: string, denominator: string, length: nat)

  const FracOpen := "\\frac{"

  /** Helper: the pieces `FracAt` cuts out spell the text they were cut from. */
  lemma FracSpelled(s: string, n: nat, m: nat)
    requires StartsWith(s, FracOpen) && 0 < n && n + 1 < |s[6..]| && s[6..][n] == '}' && s[6..][n + 1] == '{'
    requires 0 < m < |s[6..][n + 2..]| && s[6..][n + 2..][m] == '}'
    ensures s[..6 + n + 2 + m + 1] == FracOpen + s[6..][..n] + "}{" + s[6..][n + 2..][..m] + "}"
  {
    var t := s[6..];
    var q := t[n..];
    var u := t[n + 2..];
    var len := 6 + n + 2 + m + 1;
    PrefixThen(s, 6, len);
    PrefixThen(t, n, n + 3 + m);
    PrefixThen(q, 2, 3 + m);
    assert q[..2] == "}{" && q[2..] == u;
    PrefixThen(u, m, m + 1);
    assert u[m..][..1] == "}";
    var a, b := t[..n], u[..m];
    assert u[..m + 1] == b + "}";
    assert q[..3 + m] == "}{" + (b + "}");
    assert t[..n + 3 + m] == a + ("}{" + (b + "}"));
    assert s[..len] == FracOpen + (a + ("}{" + (b + "}")));
    RegroupFive(FracOpen, a, "}{", b, "}");
  }

  /** The match at the start of `s`, if any; what it spells is proved in `FracAtSpells`. */
  function FracAt(s: string): (r: Option<FracMatch>)
    ensures r.Some? ==> 0 < r.value.length <= |s|
  {
    if !StartsWith(s, FracOpen) then None
    else
      match FracArgs(s[6..])
      case None => None
      case Some(f) => Some(FracMatch(f.numerator, f.denominator, 6 + f.length))
  }

  /** `([^}]+)\}\{([^}]+)\}` at the start of what follows `\frac{`; the length counts from there. */
  function FracArgs(t: string): (r: Option<FracMatch>)
    ensures r.Some? ==> 0 < r.value.length <= |t|
  {
    var n := NonBraceRun(t);
    if n == 0 || n + 1 >= |t| || t[n + 1] != '{' then None
    else
      match FracDenominator(t[n + 2..])
      case None => None
      case Some(m) => Some(FracMatch(t[..n], t[n + 2..][..m], n + 2 + m + 1))
  }

  /** `([^}]+)\}`: the length of a non-empty run free of `}` that a `}` closes. */
  function FracDenominator(u: string): (m: Option<nat>)
    ensures m.Some? ==> 0 < m.value < |u| && u[m.value] == '}' && NonBraceRun(u) == m.value
    ensures m.None? ==> NonBraceRun(u) == 0 || NonBraceRun(u) == |u|
  {
    var m := NonBraceRun(u);
    if m == 0 || m >= |u| then None else Some(m)
  }

  /** A match spells `\frac{a}{b}` at the start of the text, with non-empty `a` and `b` free of `}`. */
  lemma FracAtSpells(s: string)
    requires FracAt(s).Some?
    ensures var f := FracAt(s).value;
            && s[..f.length] == FracOpen + f.numerator + "}{" + f.denominator + "}"
            && f.numerator != [] && f.denominator != []
            && '}' !in f.numerator && '}' !in f.denominator
  {
    var n, m := FracAtShape(s);
    NoBraceInRun(s[6..]);
    NoBraceInRun(s[6..][n + 2..]);
    FracSpelled(s, n, m);
  }

  /** Helper: the two run lengths behind a match. */
  lemma FracAtShape(s: string) returns (n: nat, m: nat)
    requires FracAt(s).Some?
    ensures StartsWith(s, FracOpen) && 0 < n && n + 1 < |s[6..]| && s[6..][n] == '}' && s[6..][n + 1] == '{'
    ensures 0 < m < |s[6..][n + 2..]| && s[6..][n + 2..][m] == '}'
    ensures NonBraceRun(s[6..]) == n && NonBraceRun(s[6..][n + 2..]) == m
    ensures FracAt(s).value == FracMatch(s[6..][..n], s[6..][n + 2..][..m], 6 + n + 2 + m + 1)
  {
    var t := s[6..];
    n := NonBraceRun(t);
    assert FracArgs(t).Some?;
    m := FracDenominator(t[n + 2..]).value;
  }

  /** Helper: the brace-free run holds no `}`. */
  lemma NoBraceInRun(s: string)
    ensures '}' !in s[..NonBraceRun(s)]
  {
    var n := NonBraceRun(s);
    NonBraceRunFree(s);
    assert forall i :: 0 <= i < n ==> s[..n][i] == s[i];
  }

  /** `.replace(/\\frac\{([^}]+)\}\{([^}]+)\}/g, '($1/$2)')`: left to right, matches do not overlap. */
  function FracReplaced(s: string): string
    decreases |s|
  {
    if s == [] then s
    else
      match FracAt(s)
      case Some(f) => "(" + f.numerator + "/" + f.denominator + ")" + FracReplaced(s[f.length..])
      case None => [s[0]] + FracReplaced(s[1..])
  }

  /** Text before the first backslash is copied as it is. */
  lemma {:induction false} FracReplacedKeepsPlainPrefix(x: string, y: string)
    requires '\\' !in x
    ensures FracReplaced(x + y) == x + FracReplaced(y)
    decreases |x|
  {
    if x == [] {
      assert x + y == y;
    } else {
      var c, rest := x[0], x[1..];
      FracReplacedKeepsPlainPrefix(rest, y);
      FracReplacedPlainHead(c, rest + y);
      ConsAppend(x, y);
      ConsAppend(x, FracReplaced(y));
    }
  }

  /** Helper: a first character other than a backslash is copied. */
  lemma FracReplacedPlainHead(c: char, t: string)
    requires c != '\\'
    ensures FracReplaced([c] + t) == [c] + FracReplaced(t)
  {
    var s := [c] + t;
    assert s[0] == c && s[1..] == t;
    assert !StartsWith(s, FracOpen) by {
      assert FracOpen[0] == '\\';
    }
  }

  /** Helper: the brace-free run of `a + "}" + rest` is `a`. */
  lemma {:induction false} NonBraceRunOf(a: string, rest: string)
    requires '}' !in a
    ensures NonBraceRun(a + "}" + rest) == |a|
    decreases |a|
  {
    if a != [] {
      assert (a + "}" + rest)[1..] == a[1..] + "}" + rest;
      NonBraceRunOf(a[1..], rest);
    }
  }

  /** Helper: `FracArgs` given the two brace-free runs it finds. */
  lemma FracArgsRuns(t: string, n: nat, m: nat)
    requires NonBraceRun(t) == n && 0 < n && n + 1 < |t| && t[n + 1] == '{'
    requires NonBraceRun(t[n + 2..]) == m && 0 < m < |t| - (n + 2)
    ensures FracArgs(t) == Some(FracMatch(t[..n], t[n + 2..][..m], n + 2 + m + 1))
  {
    assert FracDenominator(t[n + 2..]) == Some(m);
  }

  /** Helper: a match after the opening `\frac{` is a match of the whole command. */
  lemma FracAtOfArgs(s: string, a: string, b: string, len: nat)
    requires StartsWith(s, FracOpen) && FracArgs(s[6..]) == Some(FracMatch(a, b, len))
    ensures FracAt(s) == Some(FracMatch(a, b, 6 + len))
  {
  }

  /** Helper: a match right at the start of `\frac{a}{b}` followed by anything. */
  lemma FracAtCommand(a: string, b: string, post: string)
    requires a != [] && b != [] && '}' !in a && '}' !in b
    ensures FracAt(FracOpen + (a + ("}" + ("{" + (b + ("}" + post)))))) == Some(FracMatch(a, b, 6 + |a| + 2 + |b| + 1))
  {
    var u := b + ("}" + post);
    var t := a + ("}" + ("{" + u));
    var s := FracOpen + t;
    OpensFrac(t);
    BracePair(a, u);
    BraceClose(b, post);
    FracArgsRuns(t, |a|, |b|);
    FracAtOfArgs(s, a, b, |a| + 2 + |b| + 1);
  }

  /** Helper: `\frac{` followed by `t` opens a fraction, and `t` follows the opening. */
  lemma OpensFrac(t: string)
    ensures StartsWith(FracOpen + t, FracOpen) && (FracOpen + t)[6..] == t
  {
  }

  /** Helper: what follows the match in `\frac{a}{b}` followed by `post` is `post`. */
  lemma FracCommandRest(a: string, b: string, post: string)
    requires '}' !in a && '}' !in b
    ensures (FracOpen + (a + ("}" + ("{" + (b + ("}" + post))))))[6 + |a| + 2 + |b| + 1..] == post
  {
    var u := b + ("}" + post);
    var t := a + ("}" + ("{" + u));
    var s := FracOpen + t;
    assert s[6..] == t;
    BracePair(a, u);
    BraceClose(b, post);
    DropThen(s, 6, |a| + 2);
    DropThen(s, 6 + |a| + 2, |b| + 1);
  }

  /** Helper: in `a}{u` the brace-free run is `a`, and `u` follows the two braces. */
  lemma BracePair(a: string, u: string)
    requires '}' !in a
    ensures var t := a + ("}" + ("{" + u));
            && NonBraceRun(t) == |a| && |t| == |a| + 2 + |u|
            && t[..|a|] == a && t[|a| + 1] == '{' && t[|a| + 2..] == u
  {
    var v := "{" + u;
    AppendAssoc(a, "}", v);
    NonBraceRunOf(a, v);
  }

  /** Helper: in `b}post` the brace-free run is `b`, and `post` follows the brace. */
  lemma BraceClose(b: string, post: string)
    requires '}' !in b
    ensures var u := b + ("}" + post);
            && NonBraceRun(u) == |b| && |u| == |b| + 1 + |post|
            && u[..|b|] == b && u[|b|] == '}' && u[|b| + 1..] == post
  {
    AppendAssoc(b, "}", post);
    NonBraceRunOf(b, post);
  }

  /** Helper: `\frac{a}{b}` followed by `post`, grouped from the right. */
  lemma FracCommandNested(a: string, b: string, post: string)
    ensures FracCommand(a, b) + post == FracOpen + (a + ("}" + ("{" + (b + ("}" + post)))))
  {
  }

  /** Helper: the fraction rewrite of `\frac{a}{b}` followed by anything. */
  lemma FracReplacedCommand(a: string, b: string, post: string)
    requires a != [] && b != [] && '}' !in a && '}' !in b
    ensures FracReplaced(FracCommand(a, b) + post) == FracQuotient(a, b) + FracReplaced(post)
  {
    FracAtCommand(a, b, post);
    FracCommandRest(a, b, post);
    FracCommandNested(a, b, post);
  }

  /** Text without a backslash is not rewritten. */
  lemma FracReplacedKeepsPlainText(x: string)
    requires '\\' !in x
    ensures FracReplaced(x) == x
  {
    FracReplacedKeepsPlainPrefix(x, "");
    assert x + "" == x;
  }

  /** The text `\frac{a}{b}`, and what the rewrite turns it into, `(a/b)`. */
  function FracCommand(a: string, b: string): string {
    FracOpen + a + "}{" + b + "}"
  }

  function FracQuotient(a: string, b: string): string {
    "(" + a + "/" + b + ")"
  }

  /** `\frac{a}{b}` with non-empty brace-free `a` and `b`, between plain text, becomes `(a/b)`. */
  lemma FracExample(pre: string, a: string, b: string, post: string)
    requires a != [] && b != [] && '}' !in a && '}' !in b
    requires '\\' !in pre && '\\' !in post
    ensures FracReplaced(pre + FracCommand(a, b) + post) == pre + FracQuotient(a, b) + post
  {
    FracReplacedCommand(a, b, post);
    FracRewriteBetween(pre, FracCommand(a, b) + post, FracQuotient(a, b), post);
    AppendAssoc(pre, FracCommand(a, b), post);
    AppendAssoc(pre, FracQuotient(a, b), post);
  }

  /** Helper: combining the three rewrites of `FracExample`. */
  lemma FracRewriteBetween(pre: string, s: string, r: string, post: string)
    requires '\\' !in pre && '\\' !in post
    requires FracReplaced(s) == r + FracReplaced(post)
    ensures FracReplaced(pre + s) == pre + (r + post)
  {
    FracReplacedKeepsPlainPrefix(pre, s);
    FracReplacedKeepsPlainText(post);
  }

  // ---- Spans -----------------------------------------------------------------

  /**
   * The text `renderMathText` splits: the substitution chain, then the fraction rewrite.
   * Text without a backslash holds no command and comes through unchanged.
   */
  function Processed(text: string): (p: string)
    ensures '\\' !in text ==> p == text
  {
    MathSymbolsFormed(0, |MathSymbols|);
    assert MathSymbols[0..|MathSymbols|] == MathSymbols;
    PlainTextUnprocessed(text);
    FracReplaced(Substituted(text, MathSymbols))
  }

  /** Helper of Processed: neither the chain nor the fraction rewrite touches plain text. */
  lemma PlainTextUnprocessed(text: string)
    requires WellFormedRules(MathSymbols) && CommandRules(MathSymbols)
    ensures '\\' !in text ==> FracReplaced(Substituted(text, MathSymbols)) == text
  {
    if '\\' !in text {
      SubstitutedKeepsPlainText(text, MathSymbols);
      FracReplacedKeepsPlainText(text);
    }
  }

  /** What one `$`-separated segment is shown as. */
  datatype Span =
    | Plain(text: string)                        // even index: as it is
    | Math(text: string)                         // odd index without `^`: in the math style
    | MathSup(base: string, sups: seq<string>)   // odd index with `^`: a base and its superscripts

  datatype Rendered = Placeholder | Spans(spans: seq<Span>)

  const PlaceholderText := "Không có thông tin"

  function SpanOf(part: string, index: nat): (span: Span)
    ensures span.Plain? <==> index % 2 == 0
    ensures span.Plain? || span.Math? ==> span.text == part
    ensures span.MathSup? ==> '^' in part && |span.sups| == Count(part, '^')
    ensures span.Math? ==> '^' !in part
  {
    if index % 2 == 0 then Plain(part)
    else if '^' in part then
      var supParts := Split(part, '^');
      SplitLength(part, '^');
      MathSup(supParts[0], supParts[1..])
    else Math(part)
  }

  /** `renderMathText(text)`; `""` also stands for `undefined`. */
  function RenderMathText(text: string): (r: Rendered)
    ensures r.Placeholder? <==> text == ""
    ensures r.Spans? ==> |r.spans| == Count(Processed(text), '$') + 1
  {
    if text == "" then Placeholder
    else
      var segments := Split(Processed(text), '$');
      SplitLength(Processed(text), '$');
      Spans(seq(|segments|, index requires 0 <= index < |segments| => SpanOf(segments[index], index)))
  }

  /** The characters a span stands for: the superscripts are rejoined by `^`. */
  function SpanText(span: Span): string {
    match span
    case Plain(t) => t
    case Math(t) => t
    case MathSup(base, sups) => Join([base] + sups, '^')
  }

  /** The spans alternate plain, math, plain, ..., starting with plain; plain text is never superscripted. */
  lemma SpansAlternate(text: string, i: nat)
    requires text != "" && i < |RenderMathText(text).spans|
    ensures RenderMathText(text).spans[i].Plain? <==> i % 2 == 0
  {
  }

  /** Helper: a span stands for the segment it was made from. */
  lemma SpanTextOfSpanOf(part: string, index: nat)
    ensures SpanText(SpanOf(part, index)) == part
  {
    if index % 2 == 1 && '^' in part {
      SplitJoin(part, '^');
      var sp := Split(part, '^');
      assert sp == [sp[0]] + sp[1..];
    }
  }

  /** Joining what the spans stand for with `$` gives back the processed text: nothing is lost or added. */
  lemma SpansRebuildText(text: string)
    requires text != ""
    ensures var spans := RenderMathText(text).spans;
            Join(seq(|spans|, i requires 0 <= i < |spans| => SpanText(spans[i])), '$') == Processed(text)
  {
    var p := Processed(text);
    var segments := Split(p, '$');
    var spans := RenderMathText(text).spans;
    var texts := seq(|spans|, i requires 0 <= i < |spans| => SpanText(spans[i]));
    forall i | 0 <= i < |spans| ensures texts[i] == segments[i] {
      SpanTextOfSpanOf(segments[i], i);
    }
    assert texts == segments;
    SplitJoin(p, '$');
  }

  // ---- The confidence badge ----------------------------------------------------

  const HighToneClass := "text-emerald-700 bg-emerald-50 border-emerald-200"
  const MediumToneClass := "text-amber-700 bg-amber-50 border-amber-200"
  const OtherToneClass := "text-rose-700 bg-rose-50 border-rose-200"
  const HighLabel := "Độ tin cậy cao"
  const CheckAgainLabel := "Cần kiểm tra lại"

  /** `confidenceColor`: emerald for HIGH, amber for MEDIUM, rose for anything else. */
  function ConfidenceColor(c: ConfidenceLevel): (cls: string)
    ensures cls == HighToneClass <==> c == High
    ensures cls == MediumToneClass <==> c == Medium
    ensures cls == OtherToneClass <==> c == Low
  {
    assert |HighToneClass| == 49 && |MediumToneClass| == 43 && |OtherToneClass| == 40;
    match c
    case High => HighToneClass
    case Medium => MediumToneClass
    case Low => OtherToneClass
  }

  /** The badge text: the reassuring label for HIGH only. */
  function ConfidenceLabel(c: ConfidenceLevel): (text: string)
    ensures text == HighLabel <==> c == High
    ensures text == CheckAgainLabel <==> c != High
  {
    if c == High then HighLabel else CheckAgainLabel
  }

  // ---- The statement sheet -------------------------------------------------------

  const NotAvailable := "N/A"
  const UntitledTitle := "Bài Toán Chưa Có Tên"
  const UnspecifiedFormat := "Chưa xác định"
  const NoEdgeCasesNote := "Chưa có phân tích."

  /** `s || fallback` on strings. */
  function OrElse(s: string, fallback: string): (r: string)
    ensures s != "" ==> r == s
    ensures s == "" ==> r == fallback
  {
    if s != "" then s else fallback
  }

  /** One row of the variables table: name and type as they are, description and constraints rendered. */
  datatype VariableRow = VariableRow(name: string, typeName: string, description: Rendered, constraints: Option<Rendered>)

  /** What the statement panel shows. */
  datatype SheetView =
    | EmptyState
    | Sheet(
        badgeClass: string, badgeLabel: string,
        timeLimit: string, memoryLimit: string, title: string,
        summary: Rendered,
        variables: seq<VariableRow>,
        inputFormat: string, outputFormat: string,
        edgeCases: seq<Rendered>, edgeCasesNote: Option<string>)

  /**
   * A row of the variables table: name and type verbatim, the description rendered, and a
   * rendered constraints line exactly when the variable has constraints (`v.constraints && ...`).
   */
  function RowOf(v: VariableSpec): (row: VariableRow)
    ensures row.name == v.name && row.typeName == v.typeName
    ensures row.description == RenderMathText(v.description)
    ensures row.constraints.Some? <==> v.constraints != ""
    ensures row.constraints.Some? ==> row.constraints.value == RenderMathText(v.constraints)
  {
    VariableRow(v.name, v.typeName, RenderMathText(v.description),
                if v.constraints != "" then Some(RenderMathText(v.constraints)) else None)
  }

  /**
   * `SpecViewer({ spec })`: the empty state without a statement. Otherwise each of the five
   * display fields is shown as it is when present and as its fallback when missing ("N/A"
   * for the limits, the untitled title, "Chưa xác định" for the formats); the summary, the
   * descriptions and the edge cases go through `renderMathText`; the badge follows the
   * confidence; and the "Chưa có phân tích." note shows exactly when there are no edge cases.
   */
  function ViewSpec(spec: Option<ProblemSpec>): (view: SheetView)
    ensures view.EmptyState? <==> spec.None?
    ensures view.Sheet? ==> && view.timeLimit != "" && view.memoryLimit != "" && view.title != ""
                            && view.inputFormat != "" && view.outputFormat != ""
    ensures view.Sheet? ==> var s := spec.value;
              && (s.timeLimit != "" ==> view.timeLimit == s.timeLimit)
              && (s.timeLimit == "" ==> view.timeLimit == NotAvailable)
              && (s.memoryLimit != "" ==> view.memoryLimit == s.memoryLimit)
              && (s.memoryLimit == "" ==> view.memoryLimit == NotAvailable)
              && (s.title != "" ==> view.title == s.title)
              && (s.title == "" ==> view.title == UntitledTitle)
              && (s.inputFormat != "" ==> view.inputFormat == s.inputFormat)
              && (s.inputFormat == "" ==> view.inputFormat == UnspecifiedFormat)
              && (s.outputFormat != "" ==> view.outputFormat == s.outputFormat)
              && (s.outputFormat == "" ==> view.outputFormat == UnspecifiedFormat)
    ensures view.Sheet? ==> var s := spec.value;
              && view.badgeClass == ConfidenceColor(s.confidence)
              && view.badgeLabel == ConfidenceLabel(s.confidence)
              && view.summary == RenderMathText(s.summary)
    ensures view.Sheet? ==> var s := spec.value;
              && |view.variables| == |s.variables|
              && (forall i :: 0 <= i < |s.variables| ==> view.variables[i] == RowOf(s.variables[i]))
              && |view.edgeCases| == |s.edgeCasesAnalysis|
              && (forall i :: 0 <= i < |s.edgeCasesAnalysis| ==> view.edgeCases[i] == RenderMathText(s.edgeCasesAnalysis[i]))
    ensures view.Sheet? ==> (view.edgeCasesNote.Some? <==> spec.value.edgeCasesAnalysis == [])
    ensures view.Sheet? && view.edgeCasesNote.Some? ==> view.edgeCasesNote.value == NoEdgeCasesNote
  {
    match spec
    case None => EmptyState
    case Some(s) =>
      Sheet(
        ConfidenceColor(s.confidence), ConfidenceLabel(s.confidence),
        OrElse(s.timeLimit, NotAvailable), OrElse(s.memoryLimit, NotAvailable), OrElse(s.title, UntitledTitle),
        RenderMathText(s.summary),
        seq(|s.variables|, i requires 0 <= i < |s.variables| => RowOf(s.variables[i])),
        OrElse(s.inputFormat, UnspecifiedFormat), OrElse(s.outputFormat, UnspecifiedFormat),
        seq(|s.edgeCasesAnalysis|, i requires 0 <= i < |s.edgeCasesAnalysis| => RenderMathText(s.edgeCasesAnalysis[i])),
        if s.edgeCasesAnalysis == [] then Some(NoEdgeCasesNote) else None)
  }

  /**
   * Field by field, a display field of the sheet shows the statement's own text exactly
   * when that text is present; only the missing ones fall back, whatever the others hold.
   */
  lemma SheetShowsPresentFields(s: ProblemSpec)
    ensures var view := ViewSpec(Some(s));
            && (view.timeLimit == s.timeLimit <==> s.timeLimit != "")
            && (view.memoryLimit == s.memoryLimit <==> s.memoryLimit != "")
            && (view.title == s.title <==> s.title != "")
            && (view.inputFormat == s.inputFormat <==> s.inputFormat != "")
            && (view.outputFormat == s.outputFormat <==> s.outputFormat != "")
  {
    var view := ViewSpec(Some(s));
    assert NotAvailable != "" && UntitledTitle != "" && UnspecifiedFormat != "";
  }

  /** A variable's constraints line appears exactly when it has constraints. */
  lemma ConstraintsShownWhenPresent(s: ProblemSpec, i: nat)
    requires i < |s.variables|
    ensures ViewSpec(Some(s)).variables[i].constraints.Some? <==> s.variables[i].constraints != ""
  {
  }
}
