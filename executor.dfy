/** `executePythonCode` of `src/utils/pythonExecutor.ts`: runs the submitted
    code, finds the function name, and turns each test case into calls on
    the interpreter, classifying what comes back.

    Each path of the loop body is a function of the interpreter history
    giving the test result and the sources issued (`Step`), and a method on
    a `Session` that issues exactly those sources and returns that result.
    The lemmas at the end state what the harness promises in terms of the
    functions. */
module Executor {
  import opened Text
  import opened Interp
  import opened Translator
  import opened TreeArgs
  import opened Calls

  datatype TestCase = TestCase(input: string, expected: Value, description: Option<string>)

  datatype TestResult = TestResult(
    passed: bool,
    input: string,
    expected: Value,
    actual: Value,
    error: Option<string>,
    description: Option<string>)

  datatype Evaluation = Evaluation(results: seq<TestResult>, output: seq<string>)

  /** A result together with the sources issued to obtain it. */
  datatype Step = Step(result: TestResult, issued: seq<string>)

  const UndefinedMessage: string := "Function execution returned undefined"

  const NoFunctionMessage: string :=
    "No function definition found. Please define a function using \"def function_name():"

  // ---------------------------------------------------------------------
  // The records pushed into `results`

  function Failed(tc: TestCase, message: string): (r: TestResult)
  {
    TestResult(false, tc.input, tc.expected, Undefined, Some(message), tc.description)
  }

  /** The comparison's record. A throw while serializing is caught like
      any other throw of the case, so the case fails with its message. */
  function Compared(env: Env, tc: TestCase, actual: Value): (r: TestResult)
  {
    match CompareJson(env, actual, tc.expected)
    case Failure(t) => Failed(tc, Message(t))
    case Success(same) => TestResult(same, tc.input, tc.expected, actual, None, tc.description)
  }

  /** The error-substring demotion, then the comparison. */
  function Classify(env: Env, tc: TestCase, actual: Value): (r: TestResult)
  {
    if IsErrorText(actual) then Failed(tc, actual.s) else Compared(env, tc, actual)
  }

  /** One failure per test case, all with the same message (the global
      failure path, and the editor's fallback when evaluation throws). */
  function AllFailed(tcs: seq<TestCase>, message: string): (rs: seq<TestResult>)
  {
    seq(|tcs|, k requires 0 <= k < |tcs| => Failed(tcs[k], message))
  }

  /** The input, expected value and description of `r` are those of `tc`. */
  predicate CopiedFrom(r: TestResult, tc: TestCase)
  {
    r.input == tc.input && r.expected == tc.expected && r.description == tc.description
  }

  // ---------------------------------------------------------------------
  // Dictionary inputs

  function DictCase(env: Env, h: seq<string>, name: string, tc: TestCase): Step
  {
    var pythonInput := DictTranslate(tc.input);
    var call := CallOf(name, pythonInput);
    match env.run(h, call)
    case Raised(t) => Step(Failed(tc, Message(t)), [call])
    case Returned(v) =>
      var actual := Marshal(env, h + [call], v);
      if !actual.Undefined? then Step(Classify(env, tc, actual), [call])
      else
        var f := DictFallback(env, h + [call], name, tc, pythonInput);
        Step(f.result, [call] + f.issued)
  }

  /** The retry through `test_dict`/`test_result` after an undefined
      direct result; its result is compared without the demotion. */
  function DictFallback(env: Env, h: seq<string>, name: string, tc: TestCase, pythonInput: string): Step
  {
    var bind := FallbackSource(pythonInput, name);
    match env.run(h, bind)
    case Raised(t) => Step(Failed(tc, Message(t)), [bind])
    case Returned(_) =>
      match env.run(h + [bind], FallbackRead)
      case Raised(t) => Step(Failed(tc, Message(t)), [bind, FallbackRead])
      case Returned(w) =>
        var alternative := Marshal(env, h + [bind, FallbackRead], w);
        if !alternative.Undefined? then Step(Compared(env, tc, alternative), [bind, FallbackRead])
        else Step(Failed(tc, UndefinedMessage), [bind, FallbackRead])
  }

  // ---------------------------------------------------------------------
  // Tree inputs

  function TreeCase(env: Env, h: seq<string>, name: string, tc: TestCase, convertedInput: string): Step
  {
    match env.run(h, TreeNodeClassSource)
    case Raised(t) => Step(Failed(tc, Message(t)), [TreeNodeClassSource])
    case Returned(_) =>
      var literals := Literals(convertedInput);
      var h1 := h + [TreeNodeClassSource];
      var r :=
        if |literals| == 1 then SingleTree(env, h1, name, tc, convertedInput)
        else MultiTree(env, h1, name, tc, literals);
      Step(r.result, [TreeNodeClassSource] + r.issued)
  }

  function SingleTree(env: Env, h: seq<string>, name: string, tc: TestCase, convertedInput: string): Step
  {
    var bind := TestInputSource(convertedInput);
    match env.run(h, bind)
    case Raised(t) => Step(Failed(tc, Message(t)), [bind])
    case Returned(_) =>
      var call := SingleTreeCall(name, tc.expected);
      match env.run(h + [bind], call)
      case Raised(t) => Step(Failed(tc, Message(t)), [bind, call])
      case Returned(v) => Step(Compared(env, tc, Marshal(env, h + [bind, call], v)), [bind, call])
  }

  /** The outcome of binding `tree_arg_k`, ... in turn: the first thrown
      value, if any, and the sources issued up to it. */
  datatype Binding = Binding(thrown: Option<Thrown>, issued: seq<string>)

  function BindFrom(env: Env, h: seq<string>, literals: seq<string>, k: nat): (b: Binding)
    requires k <= |literals|
    decreases |literals| - k
  {
    if k == |literals| then Binding(None, [])
    else
      var src := BindSource(k, literals[k]);
      match env.run(h, src)
      case Raised(t) => Binding(Some(t), [src])
      case Returned(_) =>
        var rest := BindFrom(env, h + [src], literals, k + 1);
        Binding(rest.thrown, [src] + rest.issued)
  }

  /** When no binding raises, one source is issued per literal, the `j`-th
      binding `tree_arg_(k + j)` to the literal of that index. */
  lemma {:induction false} BindFromIssued(env: Env, h: seq<string>, literals: seq<string>, k: nat)
    requires k <= |literals| && BindFrom(env, h, literals, k).thrown.None?
    ensures var b := BindFrom(env, h, literals, k);
      |b.issued| == |literals| - k &&
      forall j :: 0 <= j < |b.issued| ==> b.issued[j] == BindSource(k + j, literals[k + j])
    decreases |literals| - k
  {
    if k < |literals| {
      var src := BindSource(k, literals[k]);
      BindFromIssued(env, h + [src], literals, k + 1);
    }
  }

  /** The state of the binding loop after `i` bindings that did not raise:
      the rest of the loop accounts for the rest of `BindFrom`. */
  ghost predicate BindState(env: Env, h: seq<string>, literals: seq<string>, i: nat, issued: seq<string>)
  {
    && i <= |literals|
    && var rest := BindFrom(env, h + issued, literals, i);
       BindFrom(env, h, literals, 0) == Binding(rest.thrown, issued + rest.issued)
  }

  lemma BindAdvance(env: Env, h: seq<string>, literals: seq<string>, i: nat, issued: seq<string>)
    requires BindState(env, h, literals, i, issued) && i < |literals|
    requires env.run(h + issued, BindSource(i, literals[i])).Returned?
    ensures BindState(env, h, literals, i + 1, issued + [BindSource(i, literals[i])])
  {
    var src := BindSource(i, literals[i]);
    assert h + issued + [src] == h + (issued + [src]);
    assert issued + ([src] + BindFrom(env, h + issued + [src], literals, i + 1).issued)
        == issued + [src] + BindFrom(env, h + issued + [src], literals, i + 1).issued;
  }

  lemma BindStop(env: Env, h: seq<string>, literals: seq<string>, i: nat, issued: seq<string>)
    requires BindState(env, h, literals, i, issued) && i < |literals|
    requires env.run(h + issued, BindSource(i, literals[i])).Raised?
    ensures BindFrom(env, h, literals, 0)
         == Binding(Some(env.run(h + issued, BindSource(i, literals[i])).thrown), issued + [BindSource(i, literals[i])])
  {
  }

  lemma BindDone(env: Env, h: seq<string>, literals: seq<string>, issued: seq<string>)
    requires BindState(env, h, literals, |literals|, issued)
    ensures BindFrom(env, h, literals, 0) == Binding(None, issued)
  {
    assert issued + [] == issued;
  }

  /** The lowest-common-ancestor special case applies. */
  predicate LcaApplies(name: string, literals: seq<string>)
  {
    |literals| == 3 && name == LcaName && LeafValue(literals[1]).Some? && LeafValue(literals[2]).Some?
  }

  function MultiTree(env: Env, h: seq<string>, name: string, tc: TestCase, literals: seq<string>): Step
  {
    var b := BindFrom(env, h, literals, 0);
    match b.thrown
    case Some(t) => Step(Failed(tc, Message(t)), b.issued)
    case None =>
      var c :=
        if LcaApplies(name, literals) then LcaTree(env, h + b.issued, name, tc, literals)
        else CallAndStr(env, h + b.issued, tc, MultiCall(name, |literals|));
      Step(c.result, b.issued + c.issued)
  }

  /** The lowest-common-ancestor call: the two nodes are looked up by the
      values of the second and third literals, then passed with the first. */
  function LcaTree(env: Env, h: seq<string>, name: string, tc: TestCase, literals: seq<string>): Step
    requires LcaApplies(name, literals)
  {
    var find := FindNodesSource(LeafValue(literals[1]).value, LeafValue(literals[2]).value);
    match env.run(h, find)
    case Raised(t) => Step(Failed(tc, Message(t)), [find])
    case Returned(_) =>
      var c := CallAndStr(env, h + [find], tc, LcaCall(name));
      Step(c.result, [find] + c.issued)
  }

  /** Runs a tree call; a result still proxied after conversion is
      replaced by its `str(...)`, unless that raises. Compared without the
      demotion. */
  function CallAndStr(env: Env, h: seq<string>, tc: TestCase, call: string): Step
  {
    match env.run(h, call)
    case Raised(t) => Step(Failed(tc, Message(t)), [call])
    case Returned(v) =>
      var actual := Marshal(env, h + [call], v);
      if actual.Proxy? then
        var str := StrCall(call);
        var shown :=
          match env.run(h + [call], str)
          case Returned(w) => w
          case Raised(_) => actual;
        Step(Compared(env, tc, shown), [call, str])
      else Step(Compared(env, tc, actual), [call])
  }

  // ---------------------------------------------------------------------
  // Plain inputs, dispatch and the whole run

  function PlainCase(env: Env, h: seq<string>, name: string, tc: TestCase, convertedInput: string): Step
  {
    var call := CallOf(name, convertedInput);
    match env.run(h, call)
    case Raised(t) => Step(Failed(tc, Message(t)), [call])
    case Returned(v) => Step(Classify(env, tc, Marshal(env, h + [call], v)), [call])
  }

  /** Shape precedence: dictionary on the raw input, then `TreeNode(` on
      the translated input, then plain. */
  function Case(env: Env, h: seq<string>, name: string, tc: TestCase): Step
  {
    if IsDictShape(tc.input) then DictCase(env, h, name, tc)
    else
      var convertedInput := Translate(tc.input);
      if Contains(convertedInput, "TreeNode(") then TreeCase(env, h, name, tc, convertedInput)
      else PlainCase(env, h, name, tc, convertedInput)
  }

  /** The results of the test cases in order, each run in the history left
      by the ones before it, and all the sources issued. */
  datatype Run = Run(results: seq<TestResult>, issued: seq<string>)

  function Cases(env: Env, h: seq<string>, name: string, tcs: seq<TestCase>): Run
  {
    if tcs == [] then Run([], [])
    else
      var before := Cases(env, h, name, tcs[..|tcs| - 1]);
      var last := Case(env, h + before.issued, name, tcs[|tcs| - 1]);
      Run(before.results + [last.result], before.issued + last.issued)
  }

  /** `Cases` on one more test case runs that case after the others. */
  lemma CasesSnoc(env: Env, h: seq<string>, name: string, tcs: seq<TestCase>, i: nat)
    requires i < |tcs|
    ensures var before := Cases(env, h, name, tcs[..i]);
      var last := Case(env, h + before.issued, name, tcs[i]);
      Cases(env, h, name, tcs[..i + 1]) == Run(before.results + [last.result], before.issued + last.issued)
  {
    assert tcs[..i + 1][..i] == tcs[..i];
  }

  /** The state of the loop over the test cases after `i` of them. */
  ghost predicate CasesState(env: Env, h: seq<string>, name: string, tcs: seq<TestCase>, i: nat,
                             results: seq<TestResult>, history: seq<string>)
  {
    && i <= |tcs|
    && var c := Cases(env, h, name, tcs[..i]);
       results == c.results && history == h + c.issued
  }

  lemma CasesAdvance(env: Env, h: seq<string>, name: string, tcs: seq<TestCase>, i: nat,
                     results: seq<TestResult>, history: seq<string>, last: Step)
    requires CasesState(env, h, name, tcs, i, results, history) && i < |tcs|
    requires last == Case(env, history, name, tcs[i])
    ensures CasesState(env, h, name, tcs, i + 1, results + [last.result], history + last.issued)
  {
    var before := Cases(env, h, name, tcs[..i]);
    assert Cases(env, h, name, tcs[..i + 1]) == Run(before.results + [last.result], before.issued + last.issued) by {
      CasesSnoc(env, h, name, tcs, i);
    }
    AppendAssoc(h, before.issued, last.issued);
  }

  lemma AppendAssoc<T>(a: seq<T>, b: seq<T>, c: seq<T>)
    ensures a + b + c == a + (b + c)
  {
  }

  /** The whole run once the runtime is loaded: the code is run first, and
      only then is the name looked for. */
  function Evaluate(env: Env, h: seq<string>, code: string, tcs: seq<TestCase>): (Evaluation, seq<string>)
  {
    match env.run(h, code)
    case Raised(t) => (Evaluation(AllFailed(tcs, Message(t)), [Message(t)]), [code])
    case Returned(_) =>
      match FunctionName(code)
      case None => (Evaluation(AllFailed(tcs, NoFunctionMessage), [NoFunctionMessage]), [code])
      case Some(name) =>
        var r := Cases(env, h + [code], name, tcs);
        (Evaluation(r.results, []), [code] + r.issued)
  }

  // ---------------------------------------------------------------------
  // The harness, issuing the sources on a session

  method RunDictCase(s: Session, name: string, tc: TestCase) returns (r: TestResult)
    modifies s
    ensures s.loaded == old(s.loaded)
    ensures var st := DictCase(s.env, old(s.history), name, tc);
      r == st.result && s.history == old(s.history) + st.issued
  {
    var pythonInput := DictTranslate(tc.input);
    var call := CallOf(name, pythonInput);
    var o := s.Run(call);
    match o
    case Raised(t) =>
      r := Failed(tc, Message(t));
    case Returned(v) =>
      var actual := Marshal(s.env, s.history, v);
      if actual.Undefined? {
        r := RunDictFallback(s, name, tc, pythonInput);
      } else if IsErrorText(actual) {
        r := Failed(tc, actual.s);
      } else {
        r := Compared(s.env, tc, actual);
      }
  }

  method RunDictFallback(s: Session, name: string, tc: TestCase, pythonInput: string) returns (r: TestResult)
    modifies s
    ensures s.loaded == old(s.loaded)
    ensures var st := DictFallback(s.env, old(s.history), name, tc, pythonInput);
      r == st.result && s.history == old(s.history) + st.issued
  {
    ghost var h := s.history;
    var bind := FallbackSource(pythonInput, name);
    var o := s.Run(bind);
    if o.Raised? {
      r := Failed(tc, Message(o.thrown));
      return;
    }
    var o2 := s.Run(FallbackRead);
    if o2.Raised? {
      r := Failed(tc, Message(o2.thrown));
      return;
    }
    assert s.history == h + [bind, FallbackRead];
    var alternative := Marshal(s.env, s.history, o2.value);
    if !alternative.Undefined? {
      r := Compared(s.env, tc, alternative);
    } else {
      r := Failed(tc, UndefinedMessage);
    }
  }

  method RunTreeCase(s: Session, name: string, tc: TestCase, convertedInput: string) returns (r: TestResult)
    modifies s
    ensures s.loaded == old(s.loaded)
    ensures var st := TreeCase(s.env, old(s.history), name, tc, convertedInput);
      r == st.result && s.history == old(s.history) + st.issued
  {
    var o := s.Run(TreeNodeClassSource);
    if o.Raised? {
      r := Failed(tc, Message(o.thrown));
      return;
    }
    ghost var h1 := s.history;
    var treeNodes := ParseTreeNodeArguments(convertedInput);
    ghost var c: Step;
    if |treeNodes| == 1 {
      c := SingleTree(s.env, h1, name, tc, convertedInput);
      r := RunSingleTree(s, name, tc, convertedInput);
    } else {
      c := MultiTree(s.env, h1, name, tc, treeNodes);
      r := RunMultiTree(s, name, tc, treeNodes);
    }
    AppendAssoc(old(s.history), [TreeNodeClassSource], c.issued);
  }

  method RunSingleTree(s: Session, name: string, tc: TestCase, convertedInput: string) returns (r: TestResult)
    modifies s
    ensures s.loaded == old(s.loaded)
    ensures var st := SingleTree(s.env, old(s.history), name, tc, convertedInput);
      r == st.result && s.history == old(s.history) + st.issued
  {
    ghost var h := s.history;
    var bind := TestInputSource(convertedInput);
    var o := s.Run(bind);
    if o.Raised? {
      r := Failed(tc, Message(o.thrown));
      return;
    }
    var functionCalls: string;
    if tc.expected.Obj? && |tc.expected.entries| > 1 {
      functionCalls := "{" + Join(TraversalEntries(Keys(tc.expected.entries)), ", ") + "}";
    } else {
      functionCalls := CallOf(name, "test_input");
    }
    var o2 := s.Run(functionCalls);
    if o2.Raised? {
      r := Failed(tc, Message(o2.thrown));
      return;
    }
    assert s.history == h + [bind, functionCalls];
    r := Compared(s.env, tc, Marshal(s.env, s.history, o2.value));
  }

  /** The loop binding `tree_arg_i` for each literal; the first call that
      raises ends it. */
  method BindTreeArgs(s: Session, treeNodes: seq<string>) returns (thrown: Option<Thrown>)
    modifies s
    ensures s.loaded == old(s.loaded)
    ensures var b := BindFrom(s.env, old(s.history), treeNodes, 0);
      thrown == b.thrown && s.history == old(s.history) + b.issued
  {
    ghost var h := s.history;
    ghost var issued: seq<string> := [];
    var i := 0;
    while i < |treeNodes|
      invariant s.loaded == old(s.loaded) && s.history == h + issued
      invariant BindState(s.env, h, treeNodes, i, issued)
      decreases |treeNodes| - i
    {
      var src := BindSource(i, treeNodes[i]);
      var o := s.Run(src);
      if o.Raised? {
        BindStop(s.env, h, treeNodes, i, issued);
        thrown := Some(o.thrown);
        return;
      }
      BindAdvance(s.env, h, treeNodes, i, issued);
      issued := issued + [src];
      i := i + 1;
    }
    BindDone(s.env, h, treeNodes, issued);
    thrown := None;
  }

  method RunMultiTree(s: Session, name: string, tc: TestCase, treeNodes: seq<string>) returns (r: TestResult)
    modifies s
    ensures s.loaded == old(s.loaded)
    ensures var st := MultiTree(s.env, old(s.history), name, tc, treeNodes);
      r == st.result && s.history == old(s.history) + st.issued
  {
    ghost var h := s.history;
    var thrown := BindTreeArgs(s, treeNodes);
    if thrown.Some? {
      r := Failed(tc, Message(thrown.value));
      return;
    }
    ghost var bound := BindFrom(s.env, h, treeNodes, 0).issued;
    ghost var c: Step;
    if |treeNodes| == 3 && name == LcaName && LeafValue(treeNodes[1]).Some? && LeafValue(treeNodes[2]).Some? {
      c := LcaTree(s.env, h + bound, name, tc, treeNodes);
      r := RunLcaTree(s, name, tc, treeNodes);
    } else {
      c := CallAndStr(s.env, h + bound, tc, MultiCall(name, |treeNodes|));
      r := RunCallAndStr(s, tc, MultiCall(name, |treeNodes|));
    }
    AppendAssoc(h, bound, c.issued);
  }

  method RunLcaTree(s: Session, name: string, tc: TestCase, treeNodes: seq<string>) returns (r: TestResult)
    requires LcaApplies(name, treeNodes)
    modifies s
    ensures s.loaded == old(s.loaded)
    ensures var st := LcaTree(s.env, old(s.history), name, tc, treeNodes);
      r == st.result && s.history == old(s.history) + st.issued
  {
    ghost var h := s.history;
    var pMatch := LeafValue(treeNodes[1]);
    var qMatch := LeafValue(treeNodes[2]);
    var find := FindNodesSource(pMatch.value, qMatch.value);
    var o := s.Run(find);
    if o.Raised? {
      r := Failed(tc, Message(o.thrown));
      return;
    }
    ghost var c := CallAndStr(s.env, h + [find], tc, LcaCall(name));
    r := RunCallAndStr(s, tc, LcaCall(name));
    AppendAssoc(h, [find], c.issued);
  }

  method RunCallAndStr(s: Session, tc: TestCase, functionCall: string) returns (r: TestResult)
    modifies s
    ensures s.loaded == old(s.loaded)
    ensures var st := CallAndStr(s.env, old(s.history), tc, functionCall);
      r == st.result && s.history == old(s.history) + st.issued
  {
    ghost var h := s.history;
    var o := s.Run(functionCall);
    if o.Raised? {
      r := Failed(tc, Message(o.thrown));
      return;
    }
    var actual := Marshal(s.env, s.history, o.value);
    if actual.Proxy? {
      var o2 := s.Run(StrCall(functionCall));
      if o2.Returned? {
        actual := o2.value;
      }
      assert s.history == h + [functionCall, StrCall(functionCall)];
    }
    r := Compared(s.env, tc, actual);
  }

  method RunPlainCase(s: Session, name: string, tc: TestCase, convertedInput: string) returns (r: TestResult)
    modifies s
    ensures s.loaded == old(s.loaded)
    ensures var st := PlainCase(s.env, old(s.history), name, tc, convertedInput);
      r == st.result && s.history == old(s.history) + st.issued
  {
    var pythonCall: string;
    if Contains(convertedInput, ",") && !StartsWith(Trim(convertedInput), "[") {
      pythonCall := CallOf(name, convertedInput);
    } else {
      pythonCall := CallOf(name, convertedInput);
    }
    var o := s.Run(pythonCall);
    if o.Raised? {
      r := Failed(tc, Message(o.thrown));
      return;
    }
    var actual := Marshal(s.env, s.history, o.value);
    if IsErrorText(actual) {
      r := Failed(tc, actual.s);
    } else {
      r := Compared(s.env, tc, actual);
    }
  }

  /** The body of the loop over the test cases. */
  method RunCase(s: Session, name: string, tc: TestCase) returns (r: TestResult)
    modifies s
    ensures s.loaded == old(s.loaded)
    ensures var st := Case(s.env, old(s.history), name, tc);
      r == st.result && s.history == old(s.history) + st.issued
  {
    if StartsWith(Trim(tc.input), "{") && EndsWith(Trim(tc.input), "}") {
      r := RunDictCase(s, name, tc);
      return;
    }
    var convertedInput := Translate(tc.input);
    if Contains(convertedInput, "TreeNode(") {
      r := RunTreeCase(s, name, tc, convertedInput);
      return;
    }
    r := RunPlainCase(s, name, tc, convertedInput);
  }

  /** The loop over the test cases, each run after the ones before it. */
  method RunCases(s: Session, name: string, testCases: seq<TestCase>) returns (results: seq<TestResult>)
    modifies s
    ensures s.loaded == old(s.loaded)
    ensures var c := Cases(s.env, old(s.history), name, testCases);
      results == c.results && s.history == old(s.history) + c.issued
  {
    ghost var h := s.history;
    results := [];
    var i := 0;
    while i < |testCases|
      invariant s.loaded == old(s.loaded)
      invariant CasesState(s.env, h, name, testCases, i, results, s.history)
      decreases |testCases| - i
    {
      ghost var before := s.history;
      var result := RunCase(s, name, testCases[i]);
      CasesAdvance(s.env, h, name, testCases, i, results, before, Case(s.env, before, name, testCases[i]));
      results := results + [result];
      i := i + 1;
    }
    assert testCases[..i] == testCases;
  }

  /** The `forEach` of the global failure path. */
  method FailAll(testCases: seq<TestCase>, message: string) returns (results: seq<TestResult>)
    ensures results == AllFailed(testCases, message)
  {
    results := [];
    var i := 0;
    while i < |testCases|
      invariant 0 <= i <= |testCases|
      invariant results == AllFailed(testCases[..i], message)
    {
      results := results + [Failed(testCases[i], message)];
      i := i + 1;
    }
    assert testCases[..i] == testCases;
  }

  /** `executePythonCode`: loads the runtime if needed (a failed load
      escapes to the caller), then runs the code and the test cases. */
  method ExecutePythonCode(s: Session, code: string, testCases: seq<TestCase>) returns (r: Result<Evaluation>)
    modifies s
    ensures !old(s.loaded) && s.env.load.Some? ==>
      r == Failure(s.env.load.value) && s.history == old(s.history) && !s.loaded
    ensures old(s.loaded) || s.env.load.None? ==>
      var (e, issued) := Evaluate(s.env, old(s.history), code, testCases);
      s.loaded && r == Success(e) && s.history == old(s.history) + issued
  {
    var err := s.Load();
    if err.Some? {
      r := Failure(err.value);
      return;
    }
    ghost var h := s.history;
    var o := s.Run(code);
    if o.Raised? {
      var errorMessage := Message(o.thrown);
      var results := FailAll(testCases, errorMessage);
      r := Success(Evaluation(results, [errorMessage]));
      return;
    }
    var functionMatch := FunctionName(code);
    if functionMatch.None? {
      var results := FailAll(testCases, NoFunctionMessage);
      r := Success(Evaluation(results, [NoFunctionMessage]));
      return;
    }
    ghost var c := Cases(s.env, h + [code], functionMatch.value, testCases);
    var results := RunCases(s, functionMatch.value, testCases);
    AppendAssoc(h, [code], c.issued);
    r := Success(Evaluation(results, []));
  }
}
