/** The pure string logic `executePythonCode` uses to decide what to run:
    the function-name regex, the shape tests on a test input, and the
    Python sources it builds. */
module Calls {
  import opened Text
  import opened Interp

  // ---------------------------------------------------------------------
  // Function-name discovery: the leftmost match of `def\s+(\w+)\s*\(`

  /** At `i` the text reads `def`, at least one space, a word, optional
      spaces and `(`. Each quantified part of the pattern must take its
      longest run here: giving back a space to `\s+` leaves `\w+` facing a
      space, giving back a word character leaves `\s*\(` facing one, and
      giving back a space to `\s*` leaves `\(` facing one. */
  predicate DefAt(s: string, i: nat)
  {
    && OccursAt(s, "def", i)
    && SpaceRun(s[i + 3..]) > 0
    && var j := i + 3 + SpaceRun(s[i + 3..]);
       && WordRun(s[j..]) > 0
       && var k := j + WordRun(s[j..]);
          k + SpaceRun(s[k..]) < |s| && s[k + SpaceRun(s[k..])] == '('
  }

  /** The first capture group of the match at `i`. */
  function NameAt(s: string, i: nat): (name: string)
    requires DefAt(s, i)
  {
    var j := i + 3 + SpaceRun(s[i + 3..]);
    s[j..j + WordRun(s[j..])]
  }

  /** The least `i >= from` at which the pattern matches. */
  function FirstDef(s: string, from: nat): (r: Option<nat>)
    decreases |s| + 1 - from
    ensures r.Some? ==> from <= r.value && DefAt(s, r.value)
  {
    if from + 3 > |s| then None
    else if DefAt(s, from) then Some(from)
    else FirstDef(s, from + 1)
  }

  lemma {:induction false} FirstDefIsLeast(s: string, from: nat)
    ensures FirstDef(s, from).Some? ==> forall j :: from <= j < FirstDef(s, from).value ==> !DefAt(s, j)
    ensures FirstDef(s, from).None? ==> forall j :: from <= j ==> !DefAt(s, j)
    decreases |s| + 1 - from
  {
    if from + 3 > |s| {
      forall j | from <= j ensures !DefAt(s, j) {
        assert !OccursAt(s, "def", j);
      }
    } else if !DefAt(s, from) {
      var r := FirstDef(s, from + 1);
      assert FirstDef(s, from) == r;
      FirstDefIsLeast(s, from + 1);
      if r.Some? {
        forall j | from <= j < r.value ensures !DefAt(s, j) {
          if j > from {
            assert from + 1 <= j < r.value;
          }
        }
      } else {
        forall j | from <= j ensures !DefAt(s, j) {
          if j > from {
            assert from + 1 <= j;
          }
        }
      }
    }
  }

  /** `code.match(/def\s+(\w+)\s*\(/)?.[1]`. */
  function FunctionName(code: string): Option<string>
  {
    match FirstDef(code, 0)
    case None => None
    case Some(i) => Some(NameAt(code, i))
  }

  /** A name is found exactly when the pattern matches somewhere, and it
      is the word of the leftmost match: a non-empty run of `\w`. */
  lemma {:induction false} FunctionNameSpec(code: string)
    ensures FunctionName(code).None? <==> forall i :: 0 <= i ==> !DefAt(code, i)
    ensures FunctionName(code).Some? ==>
      exists i :: 0 <= i && DefAt(code, i) && NameAt(code, i) == FunctionName(code).value
        && forall j :: 0 <= j < i ==> !DefAt(code, j)
    ensures FunctionName(code).Some? ==>
      var n := FunctionName(code).value;
      n != [] && forall k :: 0 <= k < |n| ==> IsWordChar(n[k])
  {
    FirstDefIsLeast(code, 0);
    match FirstDef(code, 0)
    case None =>
    case Some(i) =>
      NameIsWord(code, i);
  }

  lemma {:induction false} NameIsWord(s: string, i: nat)
    requires DefAt(s, i)
    ensures NameAt(s, i) != [] && forall k :: 0 <= k < |NameAt(s, i)| ==> IsWordChar(NameAt(s, i)[k])
  {
    var j := i + 3 + SpaceRun(s[i + 3..]);
    WordRunSpec(s[j..]);
    assert forall k :: 0 <= k < |NameAt(s, i)| ==> NameAt(s, i)[k] == s[j..][k];
  }

  /** There is no boundary before `def`: in `undef foo(` the pattern
      matches inside `undef` and the name is `foo`. */
  lemma {:induction false} UndefMatches(s: string)
    requires s == "undef foo("
    ensures FunctionName(s) == Some("foo")
  {
    assert !DefAt(s, 0) by { assert s[0..3][0] == 'u'; }
    assert !DefAt(s, 1) by { assert s[1..4][0] == 'n'; }
    assert OccursAt(s, "def", 2) by { assert s[2..5] == "def"; }
    assert SpaceRun(s[5..]) == 1 by { SpaceRunOne(s[5..]); }
    assert WordRun(s[6..]) == 3 by { WordRunThree(s[6..]); }
    assert SpaceRun(s[9..]) == 0 && s[9] == '(' by { assert s[9..][0] == '('; }
    assert DefAt(s, 2);
    assert NameAt(s, 2) == "foo" by { assert s[6..9] == "foo"; }
    assert FirstDef(s, 0) == Some(2) by {
      assert FirstDef(s, 2) == Some(2);
      assert FirstDef(s, 1) == Some(2);
    }
  }

  lemma {:induction false} SpaceRunOne(t: string)
    requires |t| >= 2 && IsSpace(t[0]) && !IsSpace(t[1])
    ensures SpaceRun(t) == 1
  {
    assert t[1..][0] == t[1];
  }

  lemma {:induction false} WordRunThree(t: string)
    requires |t| >= 4 && IsWordChar(t[0]) && IsWordChar(t[1]) && IsWordChar(t[2]) && !IsWordChar(t[3])
    ensures WordRun(t) == 3
  {
    var t1 := t[1..];
    var t2 := t1[1..];
    var t3 := t2[1..];
    assert t1[0] == t[1] && t2[0] == t[2] && t3[0] == t[3];
    assert WordRun(t3) == 0;
    assert WordRun(t2) == 1;
    assert WordRun(t1) == 2;
  }

  // ---------------------------------------------------------------------
  // Shape tests

  /** The raw input, trimmed, starts with `{` and ends with `}`. */
  predicate IsDictShape(input: string)
  {
    StartsWith(Trim(input), "{") && EndsWith(Trim(input), "}")
  }

  /** The error-substring test applied to a string result. */
  predicate IsErrorText(v: Value)
  {
    v.Str? && (Contains(v.s, "Error") || Contains(v.s, "Exception") || Contains(v.s, "Traceback"))
  }

  // ---------------------------------------------------------------------
  // Sources the harness issues

  /** `name(args)`. */
  function CallOf(name: string, args: string): (src: string)
    ensures |src| == |name| + |args| + 2 && StartsWith(src, name)
    ensures src[|name|] == '(' && src[|src| - 1] == ')'
    ensures src[|name| + 1 .. |src| - 1] == args
  {
    name + "(" + args + ")"
  }

  /** Different arguments to the same function give different calls. */
  lemma CallOfInjective(name: string, a: string, b: string)
    requires CallOf(name, a) == CallOf(name, b)
    ensures a == b
  {
    var ca := CallOf(name, a);
    assert a == ca[|name| + 1 .. |ca| - 1];
  }

  /** The dictionary fallback binding `test_dict` and `test_result`. */
  function FallbackSource(pythonInput: string, name: string): string
  {
    "\ntest_dict = " + pythonInput + "\ntest_result = " + name + "(test_dict)\n"
  }

  const FallbackRead: string := "test_result"

  /** Defines `TreeNode` unless the submitted code already did. */
  const TreeNodeClassSource: string :=
    "\n# Ensure TreeNode class is available\n"
    + "if 'TreeNode' not in globals():\n"
    + "    class TreeNode:\n"
    + "        def __init__(self, val=0, left=None, right=None):\n"
    + "            self.val = val\n"
    + "            self.left = left\n"
    + "            self.right = right\n"
    + "            \n"
    + "        def __str__(self):\n"
    + "            return f\"TreeNode({self.val})\"\n"
    + "            \n"
    + "        def __repr__(self):\n"
    + "            return f\"TreeNode({self.val})\"\n"

  /** Binds the whole translated input, not the extracted literal. */
  function TestInputSource(convertedInput: string): string
  {
    "test_input = " + convertedInput
  }

  /** The keys of an object, in `Object.keys` order. */
  function Keys(entries: seq<(string, Value)>): (ks: seq<string>)
    ensures |ks| == |entries| && forall k :: 0 <= k < |ks| ==> ks[k] == entries[k].0
  {
    if entries == [] then [] else [entries[0].0] + Keys(entries[1..])
  }

  /** `"key": key_traversal(test_input)` for each key. */
  function TraversalEntries(keys: seq<string>): (es: seq<string>)
    ensures |es| == |keys|
    ensures forall k :: 0 <= k < |keys| ==>
      es[k] == "\"" + keys[k] + "\": " + keys[k] + "_traversal(test_input)"
  {
    if keys == [] then []
    else ["\"" + keys[0] + "\": " + keys[0] + "_traversal(test_input)"] + TraversalEntries(keys[1..])
  }

  /** The call for a single-literal tree input, chosen by the shape of the
      expected value. */
  function SingleTreeCall(name: string, expected: Value): string
  {
    if expected.Obj? && |expected.entries| > 1 then
      "{" + Join(TraversalEntries(Keys(expected.entries)), ", ") + "}"
    else
      CallOf(name, "test_input")
  }

  /** `tree_arg_<i>`. */
  function TreeArgName(i: nat): (v: string)
    ensures StartsWith(v, "tree_arg_")
  {
    "tree_arg_" + NatToString(i)
  }

  function BindSource(i: nat, literal: string): string
  {
    TreeArgName(i) + " = " + literal
  }

  /** `tree_arg_0`, ..., `tree_arg_<n-1>`. */
  function ArgNames(n: nat): (names: seq<string>)
    ensures |names| == n && forall k :: 0 <= k < n ==> names[k] == TreeArgName(k)
  {
    if n == 0 then [] else ArgNames(n - 1) + [TreeArgName(n - 1)]
  }

  function MultiCall(name: string, n: nat): string
  {
    CallOf(name, Join(ArgNames(n), ", "))
  }

  const LcaName: string := "lowest_common_ancestor"

  /** The definition of `find_node_by_value`, a depth-first search for
      the first node holding a value. */
  const FindNodeDefinition: string :=
    "\ndef find_node_by_value(root, target_val):\n    if not root:\n        return None\n    if root.val == target_val:\n        return root\n    left = find_node_by_value(root.left, target_val)\n    if left:\n        return left\n    return find_node_by_value(root.right, target_val)\n\n# Find the actual nodes in the tree\n"

  /** Defines `find_node_by_value` and looks up the nodes holding the two
      leaf values. */
  function FindNodesSource(p: string, q: string): string
  {
    FindNodeDefinition
    + "p_node = find_node_by_value(tree_arg_0, " + p + ")\n"
    + "q_node = find_node_by_value(tree_arg_0, " + q + ")\n"
  }

  function LcaCall(name: string): string
  {
    CallOf(name, "tree_arg_0, p_node, q_node")
  }

  /** Re-runs a call to get the string form of a result still proxied. */
  function StrCall(call: string): string
  {
    "str(" + call + ")"
  }

  // ---------------------------------------------------------------------
  // Properties of the builders

  /** Distinct indices give distinct variable names, so each literal of a
      multi-literal input is bound to its own variable. */
  lemma {:induction false} TreeArgNamesDistinct(i: nat, j: nat)
    requires i != j
    ensures TreeArgName(i) != TreeArgName(j)
  {
    NatToStringInjective(i, j);
    assert TreeArgName(i)[9..] == NatToString(i);
    assert TreeArgName(j)[9..] == NatToString(j);
  }

  lemma {:induction false} NatToStringInjective(i: nat, j: nat)
    requires i != j
    ensures NatToString(i) != NatToString(j)
    decreases i + j
  {
    if i < 10 && j < 10 {
      DigitCharInjective(i, j);
    } else if i < 10 {
      NatToStringLength(j / 10);
    } else if j < 10 {
      NatToStringLength(i / 10);
    } else if i % 10 != j % 10 {
      DigitCharInjective(i % 10, j % 10);
      var a := NatToString(i);
      var b := NatToString(j);
      assert a[|a| - 1] == DigitChar(i % 10) && b[|b| - 1] == DigitChar(j % 10);
    } else {
      NatToStringInjective(i / 10, j / 10);
      var a := NatToString(i);
      var b := NatToString(j);
      assert a[..|a| - 1] == NatToString(i / 10) && b[..|b| - 1] == NatToString(j / 10);
    }
  }

  lemma {:induction false} NatToStringLength(n: nat)
    ensures |NatToString(n)| >= 1
  {
  }

  lemma {:induction false} DigitCharInjective(a: nat, b: nat)
    requires a < 10 && b < 10 && a != b
    ensures DigitChar(a) != DigitChar(b)
  {
  }

  /** With more than one key in the expected object the single-literal call
      builds a dictionary of traversals, otherwise it calls the function on
      `test_input`. */
  lemma {:induction false} SingleTreeCallShape(name: string, expected: Value)
    ensures (expected.Obj? && |expected.entries| > 1) ==>
      var es := TraversalEntries(Keys(expected.entries));
      && SingleTreeCall(name, expected) == "{" + Join(es, ", ") + "}"
      && |es| == |expected.entries|
      && forall k :: 0 <= k < |es| ==>
           es[k] == "\"" + expected.entries[k].0 + "\": " + expected.entries[k].0 + "_traversal(test_input)"
    ensures !(expected.Obj? && |expected.entries| > 1) ==>
      SingleTreeCall(name, expected) == name + "(test_input)"
  {
  }
}
