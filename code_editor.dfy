/** `src/components/CodeEditor.tsx`: the editor's readiness gate, the run
    and evaluate handlers over the interpreter session, the pass summaries
    of the last results, and the choice of the next challenge. Every handler
    is one sequential step; the reports to the page (`onCodeEvaluate`) are
    the value `EvaluateCode` returns. */
module Editor {
  import opened Text
  import opened Interp
  import opened Executor
  import opened Capture
  import opened Challenges

  const LoadingMessage: string := "Python environment is still loading. Please wait..."

  const InitFailedMessage: string :=
    "Failed to initialize Python environment. Please refresh the page."

  const RunningMessage: string := "Running Python code..."

  /** `challenge.starterCode || ""`. */
  function StarterCode(ch: Challenge): string
  {
    if ch.starterCode.Some? then ch.starterCode.value else ""
  }

  // ---------------------------------------------------------------------
  // Pass summaries

  /** `allTestsPassed`. */
  predicate AllPassed(results: seq<TestResult>)
  {
    |results| > 0 && forall k :: 0 <= k < |results| ==> results[k].passed
  }

  /** `failedTest`: every result failed. */
  predicate NonePassed(results: seq<TestResult>)
  {
    |results| > 0 && forall k :: 0 <= k < |results| ==> !results[k].passed
  }

  /** `partiallyCorrect`: some but not all passed. */
  predicate PartiallyCorrect(results: seq<TestResult>)
  {
    && |results| > 0
    && (exists k :: 0 <= k < |results| && results[k].passed)
    && !(forall k :: 0 <= k < |results| ==> results[k].passed)
  }

  function Holds(b: bool): nat
  {
    if b then 1 else 0
  }

  /** No summary holds of an empty result list; exactly one holds of any
      other. */
  lemma SummariesPartition(results: seq<TestResult>)
    ensures results == [] ==> !AllPassed(results) && !NonePassed(results) && !PartiallyCorrect(results)
    ensures results != [] ==>
      Holds(AllPassed(results)) + Holds(NonePassed(results)) + Holds(PartiallyCorrect(results)) == 1
  {
    if results != [] {
      if results[0].passed {
        assert !NonePassed(results);
      } else {
        assert !AllPassed(results);
      }
    }
  }

  /** The fallback results when evaluation throws: one per test case, each
      failed with the message, nothing returned, the other fields copied;
      so they leave nothing to celebrate and, for a non-empty list of test
      cases, count as all failed. */
  lemma FallbackResults(tcs: seq<TestCase>, message: string)
    ensures var rs := AllFailed(tcs, message);
      && |rs| == |tcs|
      && (forall k :: 0 <= k < |tcs| ==>
            && !rs[k].passed && rs[k].actual == Undefined && rs[k].error == Some(message)
            && CopiedFrom(rs[k], tcs[k]))
      && !AllPassed(rs) && !PartiallyCorrect(rs)
      && (tcs != [] ==> NonePassed(rs))
  {
    var rs := AllFailed(tcs, message);
    if tcs != [] {
      assert !rs[0].passed;
    }
  }

  // ---------------------------------------------------------------------
  // The next challenge

  /** `findNextUncompletedChallenge(challenge, completedChallenges)`. */
  function NextChallengeOf(cat: Catalog, ch: Challenge, completed: set<string>): Option<Challenge>
  {
    var all := Flatten(cat);
    var idx := NextOpenIndex(all, ch.id, completed);
    if idx.Some? then Some(all[idx.value]) else None
  }

  /** `hasNextChallenge` holds exactly when the current challenge is listed
      and some other entry is not completed; the next one is never completed
      and never the current entry. */
  lemma HasNextSpec(cat: Catalog, ch: Challenge, completed: set<string>)
    ensures var all := Flatten(cat);
      NextChallengeOf(cat, ch, completed).Some? <==>
        && IndexOfId(all, ch.id).Some?
        && exists q :: 0 <= q < |all| && q != IndexOfId(all, ch.id).value && all[q].id !in completed
    ensures NextChallengeOf(cat, ch, completed).Some? ==>
      var all := Flatten(cat);
      && NextChallengeOf(cat, ch, completed).value in all
      && NextChallengeOf(cat, ch, completed).value.id !in completed
  {
    NextOpenIndexSpec(Flatten(cat), ch.id, completed);
  }

  /** Once the whole catalog is completed, there is no next challenge. */
  lemma NoNextWhenAllDone(cat: Catalog, ch: Challenge, completed: set<string>)
    requires AreAllChallengesCompleted(cat, completed)
    ensures NextChallengeOf(cat, ch, completed).None?
  {
    AllCompletedNoNext(cat, ch.id, completed);
  }

  // ---------------------------------------------------------------------
  // The component

  class CodeEditor {
    const session: Session
    const cat: Catalog
    const challenge: Challenge
    /** The `completedChallenges` prop, as of the last render. */
    var completed: set<string>
    var code: string
    var results: seq<TestResult>
    var isRunning: bool
    var isEvaluating: bool
    var consoleOutput: seq<string>
    var terminalOutput: seq<string>
    var showSuccessModal: bool
    var ready: bool

    /** The initial state, before the interpreter is loaded. */
    constructor (session: Session, cat: Catalog, challenge: Challenge, completed: set<string>)
      ensures this.session == session && this.cat == cat
      ensures this.challenge == challenge && this.completed == completed
      ensures code == StarterCode(challenge) && results == [] && consoleOutput == [] && terminalOutput == []
      ensures !isRunning && !isEvaluating && !showSuccessModal && !ready
      ensures Valid()
    {
      this.session := session;
      this.cat := cat;
      this.challenge := challenge;
      this.completed := completed;
      code := if challenge.starterCode.Some? then challenge.starterCode.value else "";
      results := [];
      isRunning := false;
      isEvaluating := false;
      consoleOutput := [];
      terminalOutput := [];
      showSuccessModal := false;
      ready := false;
    }

    /** The editor is only ready once its session is loaded. */
    predicate Valid()
      reads this, session
    {
      ready ==> session.loaded
    }

    /** The mount effect: loading the interpreter makes the editor ready; a
        failed load leaves it not ready and shows the refresh message. */
    method InitPyodide()
      requires Valid()
      modifies this, session
      ensures session.history == old(session.history)
      ensures Valid()
      ensures old(session.loaded) || session.env.load.None? ==>
        ready && session.loaded && terminalOutput == old(terminalOutput)
      ensures !old(session.loaded) && session.env.load.Some? ==>
        !ready && !session.loaded && terminalOutput == [InitFailedMessage]
      ensures code == old(code) && results == old(results) && consoleOutput == old(consoleOutput)
      ensures showSuccessModal == old(showSuccessModal) && completed == old(completed)
      ensures isRunning == old(isRunning) && isEvaluating == old(isEvaluating)
    {
      var err := session.Load();
      if err.None? {
        ready := true;
      } else {
        terminalOutput := [InitFailedMessage];
      }
    }

    /** `resetCode`: the starter code back, and every output cleared. */
    method ResetCode()
      modifies this
      ensures code == StarterCode(challenge)
      ensures results == [] && consoleOutput == [] && terminalOutput == []
      ensures ready == old(ready) && showSuccessModal == old(showSuccessModal) && completed == old(completed)
      ensures isRunning == old(isRunning) && isEvaluating == old(isEvaluating)
    {
      code := if challenge.starterCode.Some? then challenge.starterCode.value else "";
      results := [];
      consoleOutput := [];
      terminalOutput := [];
    }

    /** `runCode`: before the interpreter is ready only the loading message
        is shown and the session is not touched; otherwise the terminal
        shows what `runPythonCode` gives, or the error line when it throws. */
    method RunCode()
      requires Valid()
      modifies this, session
      ensures Valid()
      ensures !old(ready) ==>
        && terminalOutput == [LoadingMessage]
        && session.history == old(session.history) && session.loaded == old(session.loaded)
        && isRunning == old(isRunning)
      ensures old(ready) ==>
        var c := Capture.Capture(session.env, old(session.history), code);
        && terminalOutput == c.output
        && session.history == old(session.history) + c.issued && !isRunning
      ensures ready == old(ready) && code == old(code) && completed == old(completed)
      ensures results == old(results) && consoleOutput == old(consoleOutput)
      ensures showSuccessModal == old(showSuccessModal) && isEvaluating == old(isEvaluating)
    {
      if !ready {
        terminalOutput := [LoadingMessage];
        return;
      }
      isRunning := true;
      terminalOutput := [RunningMessage];
      var output := RunPythonCode(session, code);
      if output.Success? {
        terminalOutput := output.value;
      } else {
        // The component's `catch`: only a failed load escapes
        // `runPythonCode`, and a ready editor's session is loaded.
        assert false;
      }
      isRunning := false;
    }

    /** `evaluateCode`: before the interpreter is ready only the loading
        message is shown, the session is not touched and nothing is
        reported. Otherwise the results and output of `executePythonCode`
        are shown and reported to the page's `onCodeEvaluate`, each report
        being one entry of `reported`. That callback runs inside the `try`;
        `callbackThrows` is what its first call throws, if anything (saving
        progress can throw). Then the `catch` shows the message as the only
        console line and reports every test case failed with it. */
    method EvaluateCode(callbackThrows: Option<Thrown>) returns (reported: seq<seq<TestResult>>)
      requires Valid()
      modifies this, session
      ensures Valid()
      ensures !old(ready) ==>
        && reported == [] && terminalOutput == [LoadingMessage]
        && session.history == old(session.history) && session.loaded == old(session.loaded)
        && results == old(results) && consoleOutput == old(consoleOutput)
        && isEvaluating == old(isEvaluating)
      ensures old(ready) ==>
        var (e, issued) := Evaluate(session.env, old(session.history), code, challenge.testCases);
        && session.history == old(session.history) + issued && !isEvaluating
        && (callbackThrows.None? ==>
              results == e.results && consoleOutput == e.output && reported == [e.results])
        && (callbackThrows.Some? ==>
              var m := Message(callbackThrows.value);
              && results == AllFailed(challenge.testCases, m) && consoleOutput == [m]
              && reported == [e.results, results])
      ensures old(ready) ==> terminalOutput == old(terminalOutput)
      ensures ready == old(ready) && code == old(code) && completed == old(completed)
      ensures showSuccessModal == old(showSuccessModal) && isRunning == old(isRunning)
    {
      if !ready {
        terminalOutput := [LoadingMessage];
        return [];
      }
      isEvaluating := true;
      consoleOutput := [];
      var evaluation := ExecutePythonCode(session, code, challenge.testCases);
      if evaluation.Success? {
        reported := ShowEvaluation(evaluation.value, callbackThrows);
      } else {
        // Only a failed load escapes `executePythonCode`, and a ready
        // editor's session is loaded.
        assert false;
      }
      isEvaluating := false;
    }

    /** The body of the `try` after `executePythonCode` returned, with its
        `catch` for a throwing callback. */
    method ShowEvaluation(evaluation: Evaluation, callbackThrows: Option<Thrown>)
      returns (reported: seq<seq<TestResult>>)
      modifies this
      ensures callbackThrows.None? ==>
        results == evaluation.results && consoleOutput == evaluation.output && reported == [evaluation.results]
      ensures callbackThrows.Some? ==>
        var m := Message(callbackThrows.value);
        && results == AllFailed(challenge.testCases, m) && consoleOutput == [m]
        && reported == [evaluation.results, results]
      ensures ready == old(ready) && code == old(code) && completed == old(completed)
      ensures terminalOutput == old(terminalOutput) && showSuccessModal == old(showSuccessModal)
      ensures isRunning == old(isRunning) && isEvaluating == old(isEvaluating)
    {
      results := evaluation.results;
      consoleOutput := evaluation.output;
      reported := [results];
      if callbackThrows.Some? {
        // The `catch`, reached through the callback.
        var errorMessage := Message(callbackThrows.value);
        consoleOutput := [errorMessage];
        var failedResults := FailAll(challenge.testCases, errorMessage);
        results := failedResults;
        reported := reported + [failedResults];
      }
    }

    /** The success effect: the modal opens when every test passed. The
        component runs it whenever `allTestsPassed` or `isSoundOn`
        changes; the caller invokes it on such a change. */
    method SuccessEffect()
      modifies this
      ensures showSuccessModal == (old(showSuccessModal) || AllPassed(results))
      ensures results == old(results) && ready == old(ready) && code == old(code) && completed == old(completed)
      ensures consoleOutput == old(consoleOutput) && terminalOutput == old(terminalOutput)
      ensures isRunning == old(isRunning) && isEvaluating == old(isEvaluating)
    {
      if |results| > 0 && forall k :: 0 <= k < |results| ==> results[k].passed {
        showSuccessModal := true;
      }
    }

    /** A new `completedChallenges` prop. The page keys the editor by the
        challenge id, so a change of the set re-renders the editor without
        remounting it: only the prop changes. */
    method CompletedChanged(newCompleted: set<string>)
      modifies this
      ensures completed == newCompleted
      ensures code == old(code) && results == old(results) && ready == old(ready)
      ensures consoleOutput == old(consoleOutput) && terminalOutput == old(terminalOutput)
      ensures isRunning == old(isRunning) && isEvaluating == old(isEvaluating)
      ensures showSuccessModal == old(showSuccessModal)
    {
      completed := newCompleted;
    }

    /** `nextChallenge`, as computed on each render from the current prop. */
    method NextChallenge() returns (next: Option<Challenge>)
      ensures next == NextChallengeOf(cat, challenge, completed)
    {
      next := FindNextUncompletedChallenge(cat, challenge, completed);
    }

    /** `handleCloseSuccessModal`. */
    method CloseSuccessModal()
      modifies this
      ensures !showSuccessModal
      ensures results == old(results) && ready == old(ready) && code == old(code) && completed == old(completed)
      ensures consoleOutput == old(consoleOutput) && terminalOutput == old(terminalOutput)
      ensures isRunning == old(isRunning) && isEvaluating == old(isEvaluating)
    {
      showSuccessModal := false;
    }

    /** `handleContinueToNext`: selects the next uncompleted challenge when
        there is one (`selectedNext`, the call of `onChallengeSelect`); the
        modal closes either way. */
    method ContinueToNext() returns (selectedNext: Option<Challenge>)
      modifies this
      ensures selectedNext == NextChallengeOf(cat, challenge, completed)
      ensures !showSuccessModal
      ensures results == old(results) && ready == old(ready) && code == old(code) && completed == old(completed)
      ensures consoleOutput == old(consoleOutput) && terminalOutput == old(terminalOutput)
      ensures isRunning == old(isRunning) && isEvaluating == old(isEvaluating)
    {
      var nextChallenge := NextChallenge();
      selectedNext := None;
      if nextChallenge.Some? {
        selectedNext := nextChallenge;
      }
      showSuccessModal := false;
    }
  }
}
