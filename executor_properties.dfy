/** What `executePythonCode` promises, stated on the functions of module
    `Executor` (which its methods are proved to follow). */
module ExecutorProperties {
  import opened Text
  import opened Interp
  import opened Translator
  import opened TreeArgs
  import opened Calls
  import opened Executor

  /** A result as the harness builds it: the input, expected value and
      description are copied from its test case; a result with an error
      has failed and shows no value; a result without one passed exactly
      when both sides serialize alike. */
  predicate Consistent(env: Env, r: TestResult, tc: TestCase)
  {
    && CopiedFrom(r, tc)
    && (r.error.Some? ==> !r.passed && r.actual.Undefined?)
    && (r.error.None? ==> (r.passed <==> SameJson(env, r.actual, tc.expected)))
  }

  /** An interpreter under which nothing throws: no call raises and every
      value serializes. */
  ghost predicate Quiet(env: Env)
  {
    && (forall h: seq<string>, src: string {:trigger env.run(h, src)} :: env.run(h, src).Returned?)
    && (forall v: Value {:trigger env.serialize(v)} :: env.serialize(v).Success?)
  }

  // ---------------------------------------------------------------------
  // Every path builds a consistent result

  lemma ClassifyConsistent(env: Env, tc: TestCase, actual: Value)
    ensures Consistent(env, Classify(env, tc, actual), tc)
  {
  }

  lemma DictFallbackConsistent(env: Env, h: seq<string>, name: string, tc: TestCase, pythonInput: string)
    ensures Consistent(env, DictFallback(env, h, name, tc, pythonInput).result, tc)
  {
  }

  lemma DictCaseConsistent(env: Env, h: seq<string>, name: string, tc: TestCase)
    ensures Consistent(env, DictCase(env, h, name, tc).result, tc)
  {
    var call := CallOf(name, DictTranslate(tc.input));
    if env.run(h, call).Returned? {
      DictFallbackConsistent(env, h + [call], name, tc, DictTranslate(tc.input));
    }
  }

  lemma CallAndStrConsistent(env: Env, h: seq<string>, tc: TestCase, call: string)
    ensures Consistent(env, CallAndStr(env, h, tc, call).result, tc)
  {
  }

  lemma TreeCaseConsistent(env: Env, h: seq<string>, name: string, tc: TestCase, convertedInput: string)
    ensures Consistent(env, TreeCase(env, h, name, tc, convertedInput).result, tc)
  {
    var h1 := h + [TreeNodeClassSource];
    var literals := Literals(convertedInput);
    if env.run(h, TreeNodeClassSource).Returned? && |literals| != 1 {
      var b := BindFrom(env, h1, literals, 0);
      if b.thrown.None? {
        if LcaApplies(name, literals) {
          var find := FindNodesSource(LeafValue(literals[1]).value, LeafValue(literals[2]).value);
          CallAndStrConsistent(env, h1 + b.issued + [find], tc, LcaCall(name));
        } else {
          CallAndStrConsistent(env, h1 + b.issued, tc, MultiCall(name, |literals|));
        }
      }
    }
  }

  lemma CaseConsistent(env: Env, h: seq<string>, name: string, tc: TestCase)
    ensures Consistent(env, Case(env, h, name, tc).result, tc)
  {
    if IsDictShape(tc.input) {
      DictCaseConsistent(env, h, name, tc);
    } else if Contains(Translate(tc.input), "TreeNode(") {
      TreeCaseConsistent(env, h, name, tc, Translate(tc.input));
    } else {
      var call := CallOf(name, Translate(tc.input));
      if env.run(h, call).Returned? {
        ClassifyConsistent(env, tc, Marshal(env, h + [call], env.run(h, call).value));
      }
    }
  }

  /** One consistent result per test case, in the order of the test cases. */
  lemma {:induction false} CasesConsistent(env: Env, h: seq<string>, name: string, tcs: seq<TestCase>)
    ensures var rs := Cases(env, h, name, tcs).results;
      |rs| == |tcs| && forall k :: 0 <= k < |tcs| ==> Consistent(env, rs[k], tcs[k])
  {
    if tcs != [] {
      var n := |tcs| - 1;
      var before := Cases(env, h, name, tcs[..n]);
      var last := Case(env, h + before.issued, name, tcs[n]);
      CasesConsistent(env, h, name, tcs[..n]);
      CaseConsistent(env, h + before.issued, name, tcs[n]);
      ConsistentSnoc(env, before.results, last.result, tcs[..n], tcs[n]);
      assert tcs[..n] + [tcs[n]] == tcs;
    }
  }

  /** Appending a consistent result for one more test case keeps the
      results consistent with the cases. */
  lemma ConsistentSnoc(env: Env, rs: seq<TestResult>, r: TestResult, tcs: seq<TestCase>, tc: TestCase)
    requires |rs| == |tcs| && forall k :: 0 <= k < |tcs| ==> Consistent(env, rs[k], tcs[k])
    requires Consistent(env, r, tc)
    ensures var all := tcs + [tc];
      |rs + [r]| == |all| && forall k :: 0 <= k < |all| ==> Consistent(env, (rs + [r])[k], all[k])
  {
    var all := tcs + [tc];
    forall k | 0 <= k < |all|
      ensures Consistent(env, (rs + [r])[k], all[k])
    {
      if k < |tcs| {
        assert (rs + [r])[k] == rs[k] && all[k] == tcs[k];
      }
    }
  }

  /** The whole evaluation reports one consistent result per test case,
      in order, whichever path it takes. */
  lemma EvaluateConsistent(env: Env, h: seq<string>, code: string, tcs: seq<TestCase>)
    ensures var rs := Evaluate(env, h, code, tcs).0.results;
      |rs| == |tcs| && forall k :: 0 <= k < |tcs| ==> Consistent(env, rs[k], tcs[k])
  {
    if env.run(h, code).Returned? && FunctionName(code).Some? {
      CasesConsistent(env, h + [code], FunctionName(code).value, tcs);
    }
  }

  // ---------------------------------------------------------------------
  // The global failure paths

  /** Code that raises when run: nothing else is issued, every test case
      fails with the message, which is also the only output line. */
  lemma CodeRaises(env: Env, h: seq<string>, code: string, tcs: seq<TestCase>)
    requires env.run(h, code).Raised?
    ensures var (e, issued) := Evaluate(env, h, code, tcs);
      var m := Message(env.run(h, code).thrown);
      && issued == [code] && e.output == [m] && |e.results| == |tcs|
      && forall k :: 0 <= k < |tcs| ==>
           !e.results[k].passed && e.results[k].error == Some(m) && CopiedFrom(e.results[k], tcs[k])
  {
  }

  /** Code without a function definition: it is still run, then every
      test case fails with the fixed message. */
  lemma NoFunctionFound(env: Env, h: seq<string>, code: string, tcs: seq<TestCase>)
    requires env.run(h, code).Returned? && FunctionName(code).None?
    ensures var (e, issued) := Evaluate(env, h, code, tcs);
      && issued == [code] && e.output == [NoFunctionMessage] && |e.results| == |tcs|
      && forall k :: 0 <= k < |tcs| ==>
           !e.results[k].passed && e.results[k].error == Some(NoFunctionMessage)
  {
  }

  /** A successful run of code with a definition prints nothing into the
      output, and calls the first function defined. */
  lemma FunctionFound(env: Env, h: seq<string>, code: string, tcs: seq<TestCase>)
    requires env.run(h, code).Returned? && FunctionName(code).Some?
    ensures var (e, issued) := Evaluate(env, h, code, tcs);
      && e.output == [] && issued[0] == code
      && e.results == Cases(env, h + [code], FunctionName(code).value, tcs).results
  {
  }

  // ---------------------------------------------------------------------
  // Dispatch

  /** The first source issued for a test case shows the path taken: the
      dictionary shape of the raw input wins over `TreeNode(` in the
      translated input, which wins over the plain call. */
  lemma FirstIssued(env: Env, h: seq<string>, name: string, tc: TestCase)
    ensures var issued := Case(env, h, name, tc).issued;
      && issued != []
      && (IsDictShape(tc.input) ==> issued[0] == CallOf(name, DictTranslate(tc.input)))
      && (!IsDictShape(tc.input) && Contains(Translate(tc.input), "TreeNode(") ==>
            issued[0] == TreeNodeClassSource)
      && (!IsDictShape(tc.input) && !Contains(Translate(tc.input), "TreeNode(") ==>
            issued == [CallOf(name, Translate(tc.input))])
  {
  }

  /** A tree input that is not single-literal has at least two literals. */
  lemma MultiTreeHasSeveral(tc: TestCase)
    requires Contains(Translate(tc.input), "TreeNode(") && |Literals(Translate(tc.input))| != 1
    ensures |Literals(Translate(tc.input))| >= 2
  {
    TreeNodeCallSomeLiteral(Translate(tc.input));
  }

  // ---------------------------------------------------------------------
  // The error-substring demotion

  /** On the plain path a returned string containing `Error`,
      `Exception` or `Traceback` fails with that string as its error, even when it equals
      the expected value. */
  lemma PlainDemotes(env: Env, h: seq<string>, name: string, tc: TestCase)
    requires !IsDictShape(tc.input) && !Contains(Translate(tc.input), "TreeNode(")
    requires var call := CallOf(name, Translate(tc.input));
      env.run(h, call).Returned? && IsErrorText(Marshal(env, h + [call], env.run(h, call).value))
    ensures var r := Case(env, h, name, tc).result;
      var call := CallOf(name, Translate(tc.input));
      !r.passed && r.error == Some(Marshal(env, h + [call], env.run(h, call).value).s)
  {
  }

  /** The same holds for the direct call on a dictionary input. */
  lemma DictDirectDemotes(env: Env, h: seq<string>, name: string, tc: TestCase)
    requires IsDictShape(tc.input)
    requires var call := CallOf(name, DictTranslate(tc.input));
      env.run(h, call).Returned? && IsErrorText(Marshal(env, h + [call], env.run(h, call).value))
    ensures var r := Case(env, h, name, tc).result;
      var call := CallOf(name, DictTranslate(tc.input));
      !r.passed && r.error == Some(Marshal(env, h + [call], env.run(h, call).value).s)
  {
  }

  /** Tree inputs are never demoted: when no call raises, a tree result
      carries no error and passes exactly when it serializes like the
      expected value, whatever text it holds. */
  lemma TreeNeverDemotes(env: Env, h: seq<string>, name: string, tc: TestCase)
    requires Quiet(env)
    requires !IsDictShape(tc.input) && Contains(Translate(tc.input), "TreeNode(")
    ensures var r := Case(env, h, name, tc).result;
      r.error.None? && (r.passed <==> SameJson(env, r.actual, tc.expected))
  {
    TreeCaseQuiet(env, h, name, tc, Translate(tc.input));
    TreeCaseConsistent(env, h, name, tc, Translate(tc.input));
  }

  lemma TreeCaseQuiet(env: Env, h: seq<string>, name: string, tc: TestCase, convertedInput: string)
    requires Quiet(env)
    ensures TreeCase(env, h, name, tc, convertedInput).result.error.None?
  {
    var literals := Literals(convertedInput);
    var h1 := h + [TreeNodeClassSource];
    assert env.run(h, TreeNodeClassSource).Returned?;
    if |literals| == 1 {
      SingleTreeQuiet(env, h1, name, tc, convertedInput);
    } else {
      MultiTreeQuiet(env, h1, name, tc, literals);
    }
  }

  lemma SingleTreeQuiet(env: Env, h: seq<string>, name: string, tc: TestCase, convertedInput: string)
    requires Quiet(env)
    ensures SingleTree(env, h, name, tc, convertedInput).result.error.None?
  {
    var bind := TestInputSource(convertedInput);
    assert env.run(h, bind).Returned?;
    assert env.run(h + [bind], SingleTreeCall(name, tc.expected)).Returned?;
  }

  lemma MultiTreeQuiet(env: Env, h: seq<string>, name: string, tc: TestCase, literals: seq<string>)
    requires Quiet(env)
    ensures MultiTree(env, h, name, tc, literals).result.error.None?
  {
    BindQuiet(env, h, literals, 0);
    var b := BindFrom(env, h, literals, 0);
    if LcaApplies(name, literals) {
      var find := FindNodesSource(LeafValue(literals[1]).value, LeafValue(literals[2]).value);
      assert env.run(h + b.issued, find).Returned?;
      CallAndStrQuiet(env, h + b.issued + [find], tc, LcaCall(name));
    } else {
      CallAndStrQuiet(env, h + b.issued, tc, MultiCall(name, |literals|));
    }
  }

  lemma {:induction false} BindQuiet(env: Env, h: seq<string>, literals: seq<string>, k: nat)
    requires Quiet(env) && k <= |literals|
    ensures BindFrom(env, h, literals, k).thrown.None?
    decreases |literals| - k
  {
    if k < |literals| {
      var src := BindSource(k, literals[k]);
      assert env.run(h, src).Returned?;
      BindQuiet(env, h + [src], literals, k + 1);
    }
  }

  lemma CallAndStrQuiet(env: Env, h: seq<string>, tc: TestCase, call: string)
    requires Quiet(env)
    ensures CallAndStr(env, h, tc, call).result.error.None?
  {
    assert env.run(h, call).Returned?;
  }

  /** The dictionary retry is not demoted either: when no call raises, its
      only error is the one for a result that stays undefined. */
  lemma DictFallbackNotDemoted(env: Env, h: seq<string>, name: string, tc: TestCase, pythonInput: string)
    requires Quiet(env)
    ensures var r := DictFallback(env, h, name, tc, pythonInput).result;
      r.error.Some? ==> r.error == Some(UndefinedMessage)
  {
    var bind := FallbackSource(pythonInput, name);
    assert env.run(h, bind).Returned?;
    assert env.run(h + [bind], FallbackRead).Returned?;
  }

  /** A retry whose result is still `undefined` fails with the undefined
      message, after binding and reading `test_result`. */
  lemma FallbackUndefined(env: Env, h: seq<string>, name: string, tc: TestCase, pythonInput: string)
    requires var bind := FallbackSource(pythonInput, name);
      && env.run(h, bind).Returned? && env.run(h + [bind], FallbackRead).Returned?
      && Marshal(env, h + [bind, FallbackRead], env.run(h + [bind], FallbackRead).value).Undefined?
    ensures var f := DictFallback(env, h, name, tc, pythonInput);
      f.result == Failed(tc, UndefinedMessage) && f.issued == [FallbackSource(pythonInput, name), FallbackRead]
  {
  }

  /** A retry with a defined result is compared as it is: without the
      demotion, with no error when both sides serialize, and passing
      exactly when they serialize alike. */
  lemma FallbackCompared(env: Env, h: seq<string>, name: string, tc: TestCase, pythonInput: string)
    requires var bind := FallbackSource(pythonInput, name);
      && env.run(h, bind).Returned? && env.run(h + [bind], FallbackRead).Returned?
      && !Marshal(env, h + [bind, FallbackRead], env.run(h + [bind], FallbackRead).value).Undefined?
    ensures var bind := FallbackSource(pythonInput, name);
      var v := Marshal(env, h + [bind, FallbackRead], env.run(h + [bind], FallbackRead).value);
      var r := DictFallback(env, h, name, tc, pythonInput).result;
      && r == Compared(env, tc, v)
      && (Stringify(env, v).Success? && Stringify(env, tc.expected).Success? ==>
            r.error.None? && r.actual == v && (r.passed <==> SameJson(env, v, tc.expected)))
  {
  }

  /** A tree result still proxied after `toJs` is shown through
      `str(<same call>)`: that source is issued too, and when it returns,
      its value is compared in place of the proxy; when it raises, the
      proxy itself is compared. */
  lemma StrRetry(env: Env, h: seq<string>, tc: TestCase, call: string)
    requires env.run(h, call).Returned? && Marshal(env, h + [call], env.run(h, call).value).Proxy?
    ensures var c := CallAndStr(env, h, tc, call);
      var str := env.run(h + [call], StrCall(call));
      && c.issued == [call, StrCall(call)]
      && (str.Returned? ==> c.result == Compared(env, tc, str.value))
      && (str.Raised? ==> c.result == Compared(env, tc, Marshal(env, h + [call], env.run(h, call).value)))
  {
  }

  /** A tree result that is no longer a proxy is compared as it is, and
      no `str` call is issued. */
  lemma NoStrRetry(env: Env, h: seq<string>, tc: TestCase, call: string)
    requires env.run(h, call).Returned? && !Marshal(env, h + [call], env.run(h, call).value).Proxy?
    ensures var c := CallAndStr(env, h, tc, call);
      c.issued == [call] && c.result == Compared(env, tc, Marshal(env, h + [call], env.run(h, call).value))
  {
  }

  /** A comparison whose serialization throws fails the case with the
      thrown message: the actual value's throw when it has one, else the
      expected value's. */
  lemma ComparisonThrows(env: Env, tc: TestCase, actual: Value)
    ensures Stringify(env, actual).Failure? ==>
      Compared(env, tc, actual) == Failed(tc, Message(Stringify(env, actual).thrown))
    ensures Stringify(env, actual).Success? && Stringify(env, tc.expected).Failure? ==>
      Compared(env, tc, actual) == Failed(tc, Message(Stringify(env, tc.expected).thrown))
  {
  }

  /** A comparison where both sides serialize carries no error, keeps the
      actual value and passes exactly when the texts are identical. */
  lemma ComparisonSerializes(env: Env, tc: TestCase, actual: Value)
    requires Stringify(env, actual).Success? && Stringify(env, tc.expected).Success?
    ensures var r := Compared(env, tc, actual);
      r.error.None? && r.actual == actual && CopiedFrom(r, tc)
      && (r.passed <==> Stringify(env, actual).value == Stringify(env, tc.expected).value)
  {
  }

  // ---------------------------------------------------------------------
  // The sources issued on the tree paths

  /** A single-literal tree input, when nothing raises: the class
      definition, the binding of the whole input, then the call. */
  lemma SingleTreeSources(env: Env, h: seq<string>, name: string, tc: TestCase, convertedInput: string)
    requires Quiet(env) && |Literals(convertedInput)| == 1
    ensures TreeCase(env, h, name, tc, convertedInput).issued
         == [TreeNodeClassSource, TestInputSource(convertedInput), SingleTreeCall(name, tc.expected)]
  {
    var h1 := h + [TreeNodeClassSource];
    assert env.run(h, TreeNodeClassSource).Returned?;
    assert env.run(h1, TestInputSource(convertedInput)).Returned?;
  }

  /** A tree input with several literals outside the ancestor special case,
      when nothing raises: the class definition, one binding per literal,
      then the call on all the bound names (and possibly its `str`). */
  lemma MultiTreeSources(env: Env, h: seq<string>, name: string, tc: TestCase, convertedInput: string)
    requires Quiet(env)
    requires |Literals(convertedInput)| != 1 && !LcaApplies(name, Literals(convertedInput))
    ensures var issued := TreeCase(env, h, name, tc, convertedInput).issued;
      var literals := Literals(convertedInput);
      && |issued| >= |literals| + 2
      && issued[0] == TreeNodeClassSource
      && (forall k :: 0 <= k < |literals| ==> issued[1 + k] == BindSource(k, literals[k]))
      && issued[|literals| + 1] == MultiCall(name, |literals|)
  {
    var literals := Literals(convertedInput);
    var h1 := h + [TreeNodeClassSource];
    assert env.run(h, TreeNodeClassSource).Returned?;
    BindQuiet(env, h1, literals, 0);
    BindFromIssued(env, h1, literals, 0);
    var b := BindFrom(env, h1, literals, 0);
    var call := MultiCall(name, |literals|);
    assert env.run(h1 + b.issued, call).Returned?;
    var c := CallAndStr(env, h1 + b.issued, tc, call);
    assert c.issued[0] == call;
    var issued := TreeCase(env, h, name, tc, convertedInput).issued;
    assert issued == [TreeNodeClassSource] + (b.issued + c.issued);
    forall k | 0 <= k < |literals| ensures issued[1 + k] == BindSource(k, literals[k]) {
      assert issued[1 + k] == b.issued[k];
    }
  }

  /** The ancestor special case, when nothing raises: the three literals
      are bound, the two nodes are looked up by the leaf values of the
      second and third, and the call passes the first tree and the two
      nodes. */
  lemma LcaSources(env: Env, h: seq<string>, name: string, tc: TestCase, literals: seq<string>)
    requires Quiet(env) && LcaApplies(name, literals)
    ensures var issued := MultiTree(env, h, name, tc, literals).issued;
      && |issued| >= 5
      && issued[0] == BindSource(0, literals[0])
      && issued[1] == BindSource(1, literals[1])
      && issued[2] == BindSource(2, literals[2])
      && issued[3] == FindNodesSource(LeafValue(literals[1]).value, LeafValue(literals[2]).value)
      && issued[4] == CallOf(name, "tree_arg_0, p_node, q_node")
  {
    BindQuiet(env, h, literals, 0);
    BindFromIssued(env, h, literals, 0);
    var b := BindFrom(env, h, literals, 0);
    LcaTreeSources(env, h + b.issued, name, tc, literals);
  }

  lemma LcaTreeSources(env: Env, h: seq<string>, name: string, tc: TestCase, literals: seq<string>)
    requires Quiet(env) && LcaApplies(name, literals)
    ensures var issued := LcaTree(env, h, name, tc, literals).issued;
      && |issued| >= 2
      && issued[0] == FindNodesSource(LeafValue(literals[1]).value, LeafValue(literals[2]).value)
      && issued[1] == LcaCall(name)
  {
    var find := FindNodesSource(LeafValue(literals[1]).value, LeafValue(literals[2]).value);
    assert env.run(h, find).Returned?;
    assert env.run(h + [find], LcaCall(name)).Returned?;
  }
}
