/** The two literal translators of `src/utils/pythonExecutor.ts`: chains of
    global regular-expression replaces that rewrite JavaScript `true`,
    `false` and `null` into Python `True`, `False` and `None`.

    Each `.replace(/<sep>\s*<word>/g, '<sep> <Repl>')` is one left-to-right
    scan (`Pass`); the final `.replace(/\bnull\b/g, 'None')` of the general
    translator is another (`NullPass`). Only that last rule has word
    boundaries: `: trueX` becomes `: TrueX`. */
module Translator {
  import opened Text

  /** One replace `/<sep>\s*<word>/g` -> `'<sep> <repl>'`. */
  datatype Rule = Rule(sep: char, word: string, repl: string)

  const ColonTrue: Rule := Rule(':', "true", "True")
  const ColonFalse: Rule := Rule(':', "false", "False")
  const ColonNull: Rule := Rule(':', "null", "None")
  const CommaTrue: Rule := Rule(',', "true", "True")
  const CommaFalse: Rule := Rule(',', "false", "False")
  const CommaNull: Rule := Rule(',', "null", "None")

  /** The dictionary translator: colon forms only. */
  const DictRules: seq<Rule> := [ColonTrue, ColonFalse, ColonNull]
  /** The general translator before its `\bnull\b` rule. */
  const GeneralRules: seq<Rule> := [ColonTrue, ColonFalse, ColonNull, CommaTrue, CommaFalse, CommaNull]

  function AfterSpaces(s: string): string
  {
    s[SpaceRun(s)..]
  }

  /** The pattern of `r` matches at the start of `s`. */
  predicate MatchesAt(s: string, r: Rule)
  {
    s != [] && s[0] == r.sep && StartsWith(AfterSpaces(s[1..]), r.word)
  }

  /** Length of the text the pattern of `r` consumes at the start of `s`. */
  function MatchLength(s: string, r: Rule): (n: nat)
    requires MatchesAt(s, r)
    ensures 0 < n <= |s|
  {
    1 + SpaceRun(s[1..]) + |r.word|
  }

  /** One global replace of rule `r`, scanning left to right; after a match
      the scan resumes right after the matched text. */
  function Pass(s: string, r: Rule): string
    decreases |s|
  {
    if s == [] then []
    else if MatchesAt(s, r) then [r.sep, ' '] + r.repl + Pass(s[MatchLength(s, r)..], r)
    else [s[0]] + Pass(s[1..], r)
  }

  /** No match of the pattern of `r` anywhere in `s`. */
  predicate Clean(s: string, r: Rule)
    decreases |s|
  {
    s == [] || (!MatchesAt(s, r) && Clean(s[1..], r))
  }

  predicate Letters(s: string)
  {
    forall i :: 0 <= i < |s| ==> ('a' <= s[i] <= 'z') || ('A' <= s[i] <= 'Z')
  }

  /** The shape shared by all six rules of the source: the separator is a
      colon or a comma, the word is lower-case letters and the replacement is
      letters starting with a capital. */
  predicate Standard(r: Rule)
  {
    && (r.sep == ':' || r.sep == ',')
    && r.word != [] && r.repl != []
    && 'a' <= r.word[0] <= 'z' && 'A' <= r.repl[0] <= 'Z'
    && Letters(r.word) && Letters(r.repl)
  }

  predicate AllStandard(rules: seq<Rule>)
  {
    forall i :: 0 <= i < |rules| ==> Standard(rules[i])
  }

  /** The chain `s.replace(rules[0]).replace(rules[1])...`. */
  function ApplyRules(s: string, rules: seq<Rule>): string
    decreases |rules|
  {
    if rules == [] then s else ApplyRules(Pass(s, rules[0]), rules[1..])
  }

  /** `/\bnull\b/` matches at the start of `s`; `afterWord` tells whether the
      character before `s` in the input is a word character. */
  predicate NullAt(s: string, afterWord: bool)
  {
    !afterWord && StartsWith(s, "null") && (|s| == 4 || !IsWordChar(s[4]))
  }

  /** The global replace `/\bnull\b/g` -> `'None'`. */
  function NullPass(s: string, afterWord: bool): string
    decreases |s|
  {
    if s == [] then []
    else if NullAt(s, afterWord) then "None" + NullPass(s[4..], true)
    else [s[0]] + NullPass(s[1..], IsWordChar(s[0]))
  }

  predicate NullClean(s: string, afterWord: bool)
    decreases |s|
  {
    s == [] || (!NullAt(s, afterWord) && NullClean(s[1..], IsWordChar(s[0])))
  }

  /** The dictionary translator (source lines 89-92). */
  function DictTranslate(s: string): string
  {
    ApplyRules(s, DictRules)
  }

  /** The general translator (source lines 212-219). */
  function Translate(s: string): string
  {
    NullPass(ApplyRules(s, GeneralRules), false)
  }

  // ---------------------------------------------------------------------
  // Lemmas on one pass

  lemma {:induction false} CleanSuffix(s: string, r: Rule, k: nat)
    requires Clean(s, r) && k <= |s|
    ensures Clean(s[k..], r)
    decreases k
  {
    if k > 0 {
      CleanSuffix(s[1..], r, k - 1);
      assert s[1..][k - 1..] == s[k..];
    }
  }

  /** A pass changes nothing in a string where its pattern does not occur. */
  lemma {:induction false} CleanIdentity(s: string, r: Rule)
    requires Clean(s, r)
    ensures Pass(s, r) == s
    decreases |s|
  {
    if s != [] {
      CleanIdentity(s[1..], r);
    }
  }

  lemma {:induction false} CleanPrefix(p: string, x: string, r: Rule)
    requires NoChar(p, r.sep) && Clean(x, r)
    ensures Clean(p + x, r)
    decreases |p|
  {
    if p == [] {
      assert p + x == x;
    } else {
      CleanPrefix(p[1..], x, r);
      assert (p + x)[0] == p[0];
      assert (p + x)[1..] == p[1..] + x;
    }
  }

  lemma {:induction false} PassPrefix(p: string, x: string, r: Rule)
    requires NoChar(p, r.sep)
    ensures Pass(p + x, r) == p + Pass(x, r)
    decreases |p|
  {
    if p == [] {
      assert p + x == x;
    } else {
      PassPrefix(p[1..], x, r);
      assert (p + x)[0] == p[0];
      assert (p + x)[1..] == p[1..] + x;
      assert p == [p[0]] + p[1..];
    }
  }

  /** Leading spaces pass through unchanged. */
  lemma {:induction false} PassAfterSpaces(t: string, r: Rule)
    requires !IsSpace(r.sep)
    ensures AfterSpaces(Pass(t, r)) == Pass(AfterSpaces(t), r)
    decreases |t|
  {
    if t != [] && IsSpace(t[0]) {
      PassAfterSpaces(t[1..], r);
      assert t[1..][SpaceRun(t[1..])..] == t[SpaceRun(t)..];
    }
  }

  /** A pass cannot produce a prefix free of its separator that was not
      already there. */
  lemma {:induction false} PassStartsWith(u: string, p: string, r: Rule)
    requires NoChar(p, r.sep) && StartsWith(Pass(u, r), p)
    ensures StartsWith(u, p)
    decreases |p|
  {
    if p != [] {
      assert u != [];
      assert Pass(u, r)[0] == p[0];
      assert Pass(u, r)[0] == (if MatchesAt(u, r) then r.sep else u[0]);
      assert Pass(u, r) == [u[0]] + Pass(u[1..], r);
      assert Pass(u[1..], r)[..|p| - 1] == Pass(u, r)[1..|p|];
      PassStartsWith(u[1..], p[1..], r);
    }
  }

  /** Where `q`'s pattern does not follow a separator before a pass of `r`,
      it does not follow it after. */
  lemma NoMatchAfterPass(t: string, r: Rule, q: Rule)
    requires Standard(r) && Standard(q)
    requires !StartsWith(AfterSpaces(t), q.word)
    ensures !StartsWith(AfterSpaces(Pass(t, r)), q.word)
  {
    PassAfterSpaces(t, r);
    if StartsWith(Pass(AfterSpaces(t), r), q.word) {
      PassStartsWith(AfterSpaces(t), q.word, r);
    }
  }

  lemma SepHeadClean(c: char, tail: string, q: Rule)
    requires Clean(tail, q)
    requires c != q.sep || !StartsWith(AfterSpaces(tail), q.word)
    ensures Clean([c] + tail, q)
  {
    assert ([c] + tail)[1..] == tail;
  }

  /** The text a standard rule writes, `<sep> <Repl>`, followed by text
      clean for a standard `q`, is clean for `q`. */
  lemma ReplacementClean(r: Rule, x: string, q: Rule)
    requires Standard(r) && Standard(q) && Clean(x, q)
    ensures Clean([r.sep, ' '] + r.repl + x, q)
  {
    var tail := [' '] + r.repl + x;
    assert NoChar([' '] + r.repl, q.sep) by {
      forall i | 1 <= i < |r.repl| + 1 ensures ([' '] + r.repl)[i] == r.repl[i - 1] { }
    }
    CleanPrefix([' '] + r.repl, x, q);
    assert tail[0] == ' ' && tail[1] == r.repl[0];
    assert SpaceRun(tail) == 1;
    assert AfterSpaces(tail) == r.repl + x;
    assert (r.repl + x)[0] == r.repl[0];
    SepHeadClean(r.sep, tail, q);
    assert [r.sep, ' '] + r.repl + x == [r.sep] + tail;
  }

  /** A pass of `r` leaves no match of its own pattern (`r == q`) and creates
      no match of another standard rule's pattern. */
  lemma {:induction false} PassClean(s: string, r: Rule, q: Rule)
    requires Standard(r) && Standard(q)
    requires r == q || Clean(s, q)
    ensures Clean(Pass(s, r), q)
    decreases |s|
  {
    if s == [] {
    } else if MatchesAt(s, r) {
      var rest := s[MatchLength(s, r)..];
      if r != q { CleanSuffix(s, q, MatchLength(s, r)); }
      PassClean(rest, r, q);
      ReplacementClean(r, Pass(rest, r), q);
    } else {
      if r != q { CleanSuffix(s, q, 1); }
      PassClean(s[1..], r, q);
      if s[0] == q.sep {
        assert !MatchesAt(s, q);
        NoMatchAfterPass(s[1..], r, q);
      }
      SepHeadClean(s[0], Pass(s[1..], r), q);
    }
  }

  // ---------------------------------------------------------------------
  // Lemmas on a chain of passes

  lemma {:induction false} ApplyKeeps(s: string, rules: seq<Rule>, q: Rule)
    requires AllStandard(rules) && Standard(q) && Clean(s, q)
    ensures Clean(ApplyRules(s, rules), q)
    decreases |rules|
  {
    if rules != [] {
      PassClean(s, rules[0], q);
      ApplyKeeps(Pass(s, rules[0]), rules[1..], q);
    }
  }

  /** After the chain, no rule of the chain matches anywhere. */
  lemma {:induction false} ApplyEstablishes(s: string, rules: seq<Rule>)
    requires AllStandard(rules)
    ensures forall i :: 0 <= i < |rules| ==> Clean(ApplyRules(s, rules), rules[i])
    decreases |rules|
  {
    if rules != [] {
      var s1 := Pass(s, rules[0]);
      PassClean(s, rules[0], rules[0]);
      ApplyKeeps(s1, rules[1..], rules[0]);
      ApplyEstablishes(s1, rules[1..]);
      forall i | 1 <= i < |rules| ensures Clean(ApplyRules(s, rules), rules[i]) {
        assert rules[1..][i - 1] == rules[i];
      }
    }
  }

  lemma {:induction false} ApplyIdentity(s: string, rules: seq<Rule>)
    requires forall i :: 0 <= i < |rules| ==> Clean(s, rules[i])
    ensures ApplyRules(s, rules) == s
    decreases |rules|
  {
    if rules != [] {
      CleanIdentity(s, rules[0]);
      forall i | 0 <= i < |rules| - 1 ensures Clean(s, rules[1..][i]) {
        assert rules[1..][i] == rules[i + 1];
      }
      ApplyIdentity(s, rules[1..]);
    }
  }

  // ---------------------------------------------------------------------
  // Lemmas on the `\bnull\b` pass

  predicate AllWord(p: string)
  {
    forall i :: 0 <= i < |p| ==> IsWordChar(p[i])
  }

  lemma {:induction false} NullCleanIdentity(s: string, afterWord: bool)
    requires NullClean(s, afterWord)
    ensures NullPass(s, afterWord) == s
    decreases |s|
  {
    if s != [] {
      NullCleanIdentity(s[1..], IsWordChar(s[0]));
    }
  }

  /** Right after a word character, word characters pass through unchanged. */
  lemma {:induction false} NullWordPrefix(p: string, y: string)
    requires AllWord(p)
    ensures NullPass(p + y, true) == p + NullPass(y, true)
    decreases |p|
  {
    if p == [] {
      assert p + y == y;
    } else {
      assert (p + y)[0] == p[0];
      assert (p + y)[1..] == p[1..] + y;
      NullWordPrefix(p[1..], y);
      assert p == [p[0]] + p[1..];
    }
  }

  lemma {:induction false} NullStartsWithWord(u: string, p: string)
    requires AllWord(p) && StartsWith(NullPass(u, true), p)
    ensures StartsWith(u, p)
    decreases |p|
  {
    if p != [] {
      assert u != [] && u[0] == p[0];
      NullStartsWithWord(u[1..], p[1..]);
    }
  }

  /** The `\bnull\b` pass cannot produce a lower-case word that was not
      already there. */
  lemma NullStartsWithLower(u: string, p: string, afterWord: bool)
    requires AllWord(p) && p != [] && 'a' <= p[0] <= 'z'
    requires StartsWith(NullPass(u, afterWord), p)
    ensures StartsWith(u, p)
  {
    assert u != [] && !NullAt(u, afterWord) && u[0] == p[0];
    NullStartsWithWord(u[1..], p[1..]);
  }

  lemma {:induction false} NullAfterSpaces(t: string, afterWord: bool)
    ensures AfterSpaces(NullPass(t, afterWord))
         == NullPass(AfterSpaces(t), if SpaceRun(t) == 0 then afterWord else false)
    decreases |t|
  {
    if t != [] && IsSpace(t[0]) {
      NullAfterSpaces(t[1..], false);
      assert t[1..][SpaceRun(t[1..])..] == t[SpaceRun(t)..];
    }
  }

  lemma {:induction false} NullCleanWordPrefix(p: string, x: string, afterWord: bool)
    requires AllWord(p) && p != [] && (afterWord || p[0] != 'n')
    requires NullClean(x, true)
    ensures NullClean(p + x, afterWord)
    decreases |p|
  {
    assert (p + x)[1..] == p[1..] + x;
    if |p| > 1 {
      NullCleanWordPrefix(p[1..], x, true);
    }
  }

  /** The `\bnull\b` pass leaves no standalone `null`. */
  lemma {:induction false} NullEstablishes(s: string, afterWord: bool)
    ensures NullClean(NullPass(s, afterWord), afterWord)
    decreases |s|
  {
    if s == [] {
    } else if NullAt(s, afterWord) {
      NullEstablishes(s[4..], true);
      NullCleanWordPrefix("None", NullPass(s[4..], true), afterWord);
    } else {
      var w := IsWordChar(s[0]);
      NullEstablishes(s[1..], w);
      var out := [s[0]] + NullPass(s[1..], w);
      assert out[0] == s[0] && out[1..] == NullPass(s[1..], w);
      if !afterWord && s[0] == 'n' && StartsWith(out, "null") {
        NullHeadKept(s, out);
      }
      assert !NullAt(out, afterWord);
    }
  }

  /** Helper of `NullEstablishes`: a `null` that was not standalone in the
      input is not standalone in the output. */
  lemma NullHeadKept(s: string, out: string)
    requires s != [] && s[0] == 'n' && !NullAt(s, false)
    requires out == [s[0]] + NullPass(s[1..], true)
    requires StartsWith(out, "null")
    ensures |out| > 4 && IsWordChar(out[4])
  {
    assert StartsWith(NullPass(s[1..], true), "ull") by {
      assert NullPass(s[1..], true)[..3] == out[1..4];
    }
    NullStartsWithWord(s[1..], "ull");
    assert s[..4] == "null" by {
      assert s[..4] == [s[0]] + s[1..][..3];
    }
    assert |s| > 4 && IsWordChar(s[4]);
    assert s[1..] == "ull" + s[4..];
    NullWordPrefix("ull", s[4..]);
    assert NullPass(s[4..], true)[0] == s[4];
    assert out == "null" + NullPass(s[4..], true);
  }

  /** The `\bnull\b` pass creates no match of a standard rule. */
  lemma {:induction false} NullKeepsClean(s: string, afterWord: bool, q: Rule)
    requires Standard(q) && Clean(s, q)
    ensures Clean(NullPass(s, afterWord), q)
    decreases |s|
  {
    if s == [] {
    } else if NullAt(s, afterWord) {
      CleanSuffix(s, q, 4);
      NullKeepsClean(s[4..], true, q);
      CleanPrefix("None", NullPass(s[4..], true), q);
    } else {
      var w := IsWordChar(s[0]);
      CleanSuffix(s, q, 1);
      NullKeepsClean(s[1..], w, q);
      var out := [s[0]] + NullPass(s[1..], w);
      assert out[1..] == NullPass(s[1..], w);
      if s[0] == q.sep {
        NullAfterSpaces(s[1..], w);
        if StartsWith(AfterSpaces(NullPass(s[1..], w)), q.word) {
          NullStartsWithLower(AfterSpaces(s[1..]), q.word,
            if SpaceRun(s[1..]) == 0 then w else false);
        }
      }
    }
  }

  // ---------------------------------------------------------------------
  // The translators

  lemma DictRulesStandard()
    ensures AllStandard(DictRules)
  {
    assert Standard(ColonTrue) && Standard(ColonFalse) && Standard(ColonNull);
  }

  lemma GeneralRulesStandard()
    ensures AllStandard(GeneralRules)
  {
    assert Standard(ColonTrue) && Standard(ColonFalse) && Standard(ColonNull);
    assert Standard(CommaTrue) && Standard(CommaFalse) && Standard(CommaNull);
  }

  /** After the dictionary translator no `:\s*true`, `:\s*false` or
      `:\s*null` is left. */
  lemma DictTranslateClean(s: string)
    ensures forall i :: 0 <= i < |DictRules| ==> Clean(DictTranslate(s), DictRules[i])
  {
    DictRulesStandard();
    ApplyEstablishes(s, DictRules);
  }

  /** After the general translator none of its seven patterns is left. */
  lemma TranslateClean(s: string)
    ensures forall i :: 0 <= i < |GeneralRules| ==> Clean(Translate(s), GeneralRules[i])
    ensures NullClean(Translate(s), false)
  {
    GeneralRulesStandard();
    var y := ApplyRules(s, GeneralRules);
    ApplyEstablishes(s, GeneralRules);
    forall i | 0 <= i < |GeneralRules| ensures Clean(Translate(s), GeneralRules[i]) {
      NullKeepsClean(y, false, GeneralRules[i]);
    }
    NullEstablishes(y, false);
  }

  /** The dictionary translator is idempotent. */
  lemma DictTranslateIdempotent(s: string)
    ensures DictTranslate(DictTranslate(s)) == DictTranslate(s)
  {
    DictTranslateClean(s);
    ApplyIdentity(DictTranslate(s), DictRules);
  }

  /** The general translator is idempotent. */
  lemma TranslateIdempotent(s: string)
    ensures Translate(Translate(s)) == Translate(s)
  {
    var y := Translate(s);
    TranslateClean(s);
    ApplyIdentity(y, GeneralRules);
    NullCleanIdentity(y, false);
  }

  /** The separator rules have no word boundary: `: trueX` becomes `: TrueX`. */
  lemma NoBoundaryExample()
    ensures Pass(": trueX", ColonTrue) == ": TrueX"
  {
    assert MatchesAt(": trueX", ColonTrue) by {
      assert SpaceRun(" trueX") == 1;
      assert AfterSpaces(": trueX"[1..]) == "trueX";
    }
    assert MatchLength(": trueX", ColonTrue) == 6;
    assert ": trueX"[6..] == "X";
    assert Pass("X", ColonTrue) == "X";
  }

  /** `\bnull\b` replaces a standalone `null` but not one inside a word. */
  lemma NullBoundaryExample()
    ensures NullPass("null", false) == "None"
    ensures NullPass("nullx", false) == "nullx"
  {
    assert NullAt("null", false);
    NullWordPrefix("ullx", []);
    assert "nullx"[1..] == "ullx";
  }
}
