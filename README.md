# py-code-challenger core, modelled in Dafny

py-code-challenger is a browser application for practising Python. A
catalog of challenges is grouped into levels and topics. The learner writes
a function in an editor. It runs in Pyodide, an embedded Python interpreter,
against the challenge's test cases. Completed challenge ids are kept in
`localStorage`.

This project models the core of that application and proves properties of
the model:

- the evaluation harness `executePythonCode`, with its literal translators,
  the `TreeNode` argument scanner and the sources it issues to the
  interpreter;
- the console runner `runPythonCode`;
- the catalog helpers;
- the progress hook and its saved JSON array;
- the sidebar's expand/collapse state and progress counters;
- the two pages' lookups and handlers;
- the code editor's gates and summaries.

The interpreter is not modelled. It is a value `Env` of functions:

- `run` gives what a source returns or throws, given every source run
  before it;
- `toJs` gives the result of a proxy conversion;
- `serialize` gives what `JSON.stringify` yields for a value, or what it
  throws.

A class `Session` records the sources issued (`history`) and whether the
runtime is loaded. Every harness method is proved equal to a pure function
of the history it starts from. The lemmas state the harness's promises on
those functions:

- one consistent result per test case, in order;
- the error paths and their messages;
- the demotion of error-looking strings on exactly the paths the code
  demotes;
- `stdout` restored on every path of `runPythonCode`;
- the translators clean their patterns and are idempotent;
- the scanner equals a search-based reference definition.

Components that keep state become classes whose fields are that state:
`Progress`, `Sidebar`, `ChallengePage`, `LandingPage` and `CodeEditor`. Their
handlers are methods. Each method's postcondition gives the complete new
state in terms of the old state. It uses the catalog functions, whose
properties are proved as lemmas.

Modules: `Text` (string helpers), `Interp` (interpreter interface),
`Translator`, `TreeArgs`, `Calls`, `Executor`, `ExecutorProperties`,
`Capture`, `Challenges` (catalog and `challengeUtils.ts`), `JsonArray`,
`ProgressStore`, `SidebarView`, `Pages` and `Editor`.

Behaviour of the code as written that a reader may not expect:

- On the global failure path of `executePythonCode`, the error message is
  also pushed into `output` (`src/utils/pythonExecutor.ts:567`).
- `runPythonCode` splits the captured text on the two characters backslash
  and `n` (`'\\n'`, line 613), not on a line feed.
- The dictionary path checks the first translated call for error text, but
  not the `test_dict` retry.
- Tree paths never apply the error-text check.
- The `catch` branch of the editor's `runCode` cannot be reached. When the editor is ready its session is loaded, and only a failed load escapes `runPythonCode` (`Editor.CodeEditor.RunCode`).
- The `catch` branch of `evaluateCode` is reached only when the page's `onCodeEvaluate` throws, as saving progress to `localStorage` can. The `try` around `executePythonCode` also holds that callback. The console then shows the message, and every result is shown failed even when all passed. The page has already received the real results (`Editor.CodeEditor.EvaluateCode`).
- The function-name pattern has no word boundary before `def`, so
  `undef foo(` gives the name `foo`.
- The `TreeNode(\d+)` match is not anchored.

## Model

| member | source | states |
|---|---|---|
| Interp.Session.Load | src/utils/pythonExecutor.ts:16-30 | Load happens once. A failed load reports what was thrown and leaves the runtime unloaded. No source is issued. |
| Interp.Session.constructor | src/utils/pythonExecutor.ts:14 | A new session has issued nothing and is not loaded. |
| Interp.Session.Run | src/utils/pythonExecutor.ts:62 | Run records the source and returns what the interpreter gives for it after the earlier sources. |
| Interp.Message | src/utils/pythonExecutor.ts:558 | An `Error` gives its message; any other thrown value gives `Unknown error`. |
| Interp.Stringify | src/utils/pythonExecutor.ts:196 | Serialization gives nothing exactly for `undefined`. Any other value gives the serializer's text, or its throw. |
| Interp.CompareJson | src/utils/pythonExecutor.ts:196 | The actual value is serialized first and its throw wins. Then the expected value's throw. Otherwise the comparison is the equality of the two texts. |
| Interp.SameJsonReflexive | src/utils/pythonExecutor.ts:196 | A value that serializes compares equal to itself. |
| Interp.SameJsonSymmetric | src/utils/pythonExecutor.ts:196 | Passing does not depend on which side is the actual value. |
| Interp.UndefinedOnlyMatchesUndefined | src/utils/pythonExecutor.ts:196 | Under the string comparison, `undefined` matches only `undefined`. |
| Interp.Marshal | src/utils/pythonExecutor.ts:102-112 | Only a proxy is converted. A conversion that throws keeps the proxy; one that succeeds gives its result. |
| Translator.DictTranslateClean | src/utils/pythonExecutor.ts:89-92 | After the dictionary translator, no `:\s*true`, `:\s*false` or `:\s*null` match is left. |
| Translator.TranslateClean | src/utils/pythonExecutor.ts:212-219 | After the general translator, none of its six separator patterns and no standalone `null` is left. |
| Translator.DictTranslateIdempotent | src/utils/pythonExecutor.ts:89-92 | Translating twice equals translating once. |
| Translator.TranslateIdempotent | src/utils/pythonExecutor.ts:212-219 | Translating twice equals translating once. |
| Translator.PassClean | src/utils/pythonExecutor.ts:90 | A global replace leaves no match of its own pattern and creates none of another separator rule's. |
| Translator.ApplyEstablishes | src/utils/pythonExecutor.ts:212-218 | After a chain of replaces, no rule of the chain matches anywhere. |
| Translator.CleanIdentity | src/utils/pythonExecutor.ts:213 | A replace changes nothing where its pattern does not occur. |
| Translator.NullEstablishes | src/utils/pythonExecutor.ts:219 | The `\bnull\b` replace leaves no standalone `null`. |
| Translator.NullKeepsClean | src/utils/pythonExecutor.ts:219 | The `\bnull\b` replace creates no separator-rule match. |
| Translator.NoBoundaryExample | src/utils/pythonExecutor.ts:90 | The separator rules have no trailing word boundary: `: trueX` becomes `: TrueX`. |
| Translator.NullBoundaryExample | src/utils/pythonExecutor.ts:219 | A standalone `null` becomes `None`; `nullx` is kept. |
| TreeArgs.ParseTreeNodeArguments | src/utils/pythonExecutor.ts:243-291 | The scanner's result equals the reference definition `Literals`. Each literal runs from a `TreeNode` outside a literal to the first `)` that balances it; an unclosed one is trimmed. |
| TreeArgs.ReadOutside | src/utils/pythonExecutor.ts:254-262 | Outside a literal, one step keeps the scanner invariant `ScanState`: the literals found so far, followed by the reference literals from the new position, are all of them. A `TreeNode` skips eight characters; anything else skips one. |
| TreeArgs.OpenLiteral | src/utils/pythonExecutor.ts:254-261 | At a `TreeNode` outside a literal, the scanner invariant holds inside a new literal whose text so far is the word itself and which opens at that position. |
| TreeArgs.ReadInLiteral | src/utils/pythonExecutor.ts:265-282 | Inside a literal, one character keeps the scanner invariant. The text grows by the character and the count by its parenthesis change. The `)` that brings the count to zero records the trimmed literal and leaves it. |
| TreeArgs.NextTreeNodeIsLeast | src/utils/pythonExecutor.ts:254 | The scanner starts a literal at the first `TreeNode` from its position. |
| TreeArgs.LiteralsShape | src/utils/pythonExecutor.ts:243-291 | Every literal starts with `TreeNode`. Every literal but the last ends with `)` and has balanced parentheses. |
| TreeArgs.NoTreeNodeNoLiterals | src/utils/pythonExecutor.ts:254 | An input without `TreeNode` gives no literal. |
| TreeArgs.TreeNodeCallSomeLiteral | src/utils/pythonExecutor.ts:222 | An input containing `TreeNode(` gives at least one literal. |
| TreeArgs.NestedNotSplit | src/utils/pythonExecutor.ts:254-279 | A nested `TreeNode` is not split off: `TreeNode(1, TreeNode(2))` is one literal. |
| TreeArgs.WholeLiteral | src/utils/pythonExecutor.ts:268-278 | An input that is one balanced literal is its only literal. |
| TreeArgs.FirstCloseIsLeast | src/utils/pythonExecutor.ts:274 | A literal closes at the least balancing position. |
| TreeArgs.LeafValueFound | src/utils/pythonExecutor.ts:360-361 | The leaf match succeeds exactly when some position holds `TreeNode(<digits>)`. |
| TreeArgs.LeafValueDigits | src/utils/pythonExecutor.ts:360-361 | The capture is a non-empty run of digits. |
| TreeArgs.LeafValueUnanchored | src/utils/pythonExecutor.ts:360 | The match is unanchored: `TreeNode(5, TreeNode(3))` gives `3`. |
| Calls.FunctionNameSpec | src/utils/pythonExecutor.ts:65-70 | A name is found exactly when `def\s+(\w+)\s*\(` matches. The name is the leftmost match's non-empty word. |
| Calls.FirstDefIsLeast | src/utils/pythonExecutor.ts:65 | The match used is the leftmost one. |
| Calls.NameIsWord | src/utils/pythonExecutor.ts:65 | The captured name is a non-empty run of `\w`. |
| Calls.UndefMatches | src/utils/pythonExecutor.ts:65 | There is no boundary before `def`: `undef foo(` gives `foo`. |
| Calls.CallOf | src/utils/pythonExecutor.ts:96 | The call is the name, `(`, the arguments and `)`. Cutting the name, the parenthesis and the final `)` gives back the arguments. |
| Calls.CallOfInjective | src/utils/pythonExecutor.ts:96 | For one name, distinct arguments give distinct calls. |
| Calls.Keys | src/utils/pythonExecutor.ts:306 | The keys are the object's entry names, in order. |
| Calls.TraversalEntries | src/utils/pythonExecutor.ts:308 | There is one `"key": key_traversal(test_input)` entry per key, in order. |
| Calls.TreeArgName | src/utils/pythonExecutor.ts:351 | Tree variables are named `tree_arg_<i>`. |
| Calls.ArgNames | src/utils/pythonExecutor.ts:435 | The argument list is `tree_arg_0` up to `tree_arg_<n-1>`. |
| Calls.TreeArgNamesDistinct | src/utils/pythonExecutor.ts:350-351 | Distinct indices give distinct variables, so no literal overwrites another. |
| Calls.NatToStringInjective | src/utils/pythonExecutor.ts:351 | The decimal text of distinct numbers differs. |
| Calls.SingleTreeCallShape | src/utils/pythonExecutor.ts:304-317 | An expected object with more than one key gives the traversal dictionary call; anything else gives `name(test_input)`. |
| Executor.ExecutePythonCode | src/utils/pythonExecutor.ts:41-583 | A failed load escapes with what was thrown and issues nothing. Otherwise the result and the new history are those of `Evaluate`. |
| Executor.RunCases | src/utils/pythonExecutor.ts:74-562 | The test-case loop equals `Cases`: each case runs after the ones before it. |
| Executor.RunCase | src/utils/pythonExecutor.ts:78-561 | The loop body equals `Case`: dictionary shape first, then `TreeNode(`, then the plain path. Every escape becomes a failed result with its message. |
| Executor.RunDictCase | src/utils/pythonExecutor.ts:83-208 | The dictionary path equals `DictCase`. |
| Executor.RunDictFallback | src/utils/pythonExecutor.ts:114-151 | The `test_dict` retry equals `DictFallback`. `FallbackUndefined` and `FallbackCompared` state its two outcomes. |
| Executor.RunTreeCase | src/utils/pythonExecutor.ts:222-491 | The tree path equals `TreeCase`. |
| Executor.RunSingleTree | src/utils/pythonExecutor.ts:296-346 | The single-literal path equals `SingleTree`. |
| Executor.BindTreeArgs | src/utils/pythonExecutor.ts:350-352 | The binding loop equals `BindFrom`: it stops at the first binding that throws. |
| Executor.RunMultiTree | src/utils/pythonExecutor.ts:348-478 | The several-literal path equals `MultiTree`. |
| Executor.RunLcaTree | src/utils/pythonExecutor.ts:355-427 | The common-ancestor path equals `LcaTree`. |
| Executor.RunCallAndStr | src/utils/pythonExecutor.ts:439-476 | A tree call followed by its `str` retry equals `CallAndStr`. `StrRetry` and `NoStrRetry` state what it issues and compares. |
| Executor.RunPlainCase | src/utils/pythonExecutor.ts:494-549 | The plain path equals `PlainCase`. |
| Executor.FailAll | src/utils/pythonExecutor.ts:569-578 | The global-failure loop gives `AllFailed`. |
| ExecutorProperties.EvaluateConsistent | src/utils/pythonExecutor.ts:59-579 | On every path there is one result per test case, in order. Each copies its case's input, expected value and description. A passing result carries no error and its serialization equals the expected value's. |
| ExecutorProperties.CasesConsistent | src/utils/pythonExecutor.ts:74-562 | There is one consistent result per test case, in order. |
| ExecutorProperties.CaseConsistent | src/utils/pythonExecutor.ts:78-561 | Each test case's result is consistent with it. |
| ExecutorProperties.DictCaseConsistent | src/utils/pythonExecutor.ts:83-208 | The dictionary path's result is consistent. |
| ExecutorProperties.DictFallbackConsistent | src/utils/pythonExecutor.ts:134-150 | The retry's result is consistent. |
| ExecutorProperties.TreeCaseConsistent | src/utils/pythonExecutor.ts:222-491 | The tree path's result is consistent. |
| ExecutorProperties.CallAndStrConsistent | src/utils/pythonExecutor.ts:439-476 | The tree call's result is consistent. |
| ExecutorProperties.ClassifyConsistent | src/utils/pythonExecutor.ts:521-548 | The demotion and the comparison give a consistent result. |
| ExecutorProperties.CodeRaises | src/utils/pythonExecutor.ts:564-578 | Code that throws issues nothing more. Every case fails with the message, which is also the only output line. |
| ExecutorProperties.NoFunctionFound | src/utils/pythonExecutor.ts:65-68 | Code without a definition is still run; then every case fails with the fixed message. |
| ExecutorProperties.FunctionFound | src/utils/pythonExecutor.ts:59-74 | Successful code with a definition leaves the output empty. The first defined function is called on the cases. |
| ExecutorProperties.FirstIssued | src/utils/pythonExecutor.ts:83-226 | The first source issued shows the path taken: dictionary call, tree class definition, or plain call. |
| ExecutorProperties.MultiTreeHasSeveral | src/utils/pythonExecutor.ts:296-348 | A tree input that is not single-literal has at least two literals. |
| ExecutorProperties.PlainDemotes | src/utils/pythonExecutor.ts:520-536 | On the plain path, a string result containing `Error`, `Exception` or `Traceback` fails with that text as the error. |
| ExecutorProperties.DictDirectDemotes | src/utils/pythonExecutor.ts:167-182 | The same demotion applies to the direct dictionary call. |
| ExecutorProperties.TreeNeverDemotes | src/utils/pythonExecutor.ts:336-345 | When nothing throws, a tree result has no error and passes exactly when it serializes like the expected value. |
| ExecutorProperties.FallbackUndefined | src/utils/pythonExecutor.ts:146-193 | A retry still `undefined` fails with `Function execution returned undefined`, after the binding and the read of `test_result`. |
| ExecutorProperties.FallbackCompared | src/utils/pythonExecutor.ts:134-145 | A defined retry result is compared as it is, without the demotion. When both sides serialize, it has no error, keeps the value, and passes exactly when they serialize alike. |
| ExecutorProperties.StrRetry | src/utils/pythonExecutor.ts:455-464 | A result still proxied after `toJs` issues `str(<same call>)`. Its value is compared when it returns; the proxy is compared when it raises. |
| ExecutorProperties.NoStrRetry | src/utils/pythonExecutor.ts:445-467 | A result that is no longer a proxy is compared as it is, and only the call is issued. |
| ExecutorProperties.ComparisonThrows | src/utils/pythonExecutor.ts:539-560 | A serialization that throws fails the case with the thrown message: the actual value's throw first, else the expected value's. |
| ExecutorProperties.ComparisonSerializes | src/utils/pythonExecutor.ts:539-548 | When both sides serialize, the result has no error, keeps the actual value and the case's fields, and passes exactly when the texts are equal. |
| ExecutorProperties.DictFallbackNotDemoted | src/utils/pythonExecutor.ts:134-150 | When nothing throws, the retry's only error is the one for a result that stays undefined. |
| ExecutorProperties.SingleTreeQuiet | src/utils/pythonExecutor.ts:296-346 | When nothing throws, the single-literal path reports no error. |
| ExecutorProperties.MultiTreeQuiet | src/utils/pythonExecutor.ts:348-478 | When nothing throws, the several-literal path reports no error. |
| ExecutorProperties.BindQuiet | src/utils/pythonExecutor.ts:350-352 | When nothing throws, every literal is bound. |
| ExecutorProperties.SingleTreeSources | src/utils/pythonExecutor.ts:226-320 | A single literal issues the class definition, the binding of the whole translated input, then the call. |
| ExecutorProperties.MultiTreeSources | src/utils/pythonExecutor.ts:350-464 | Several literals issue the class definition, one binding per literal, then the call on all bound names. |
| ExecutorProperties.LcaSources | src/utils/pythonExecutor.ts:355-414 | The ancestor case binds the three literals, defines the node search with the two leaf values, then calls with the found nodes. |
| ExecutorProperties.LcaTreeSources | src/utils/pythonExecutor.ts:360-414 | The ancestor call's sources, after the bindings. |
| Capture.RunPythonCode | src/utils/pythonExecutor.ts:585-630 | A failed load escapes with what was thrown. Otherwise the output and the new history are those of `Capture`. |
| Capture.RestoreAfterError | src/utils/pythonExecutor.ts:620-627 | The catch re-issues the restore and returns only the `Error: ` line. |
| Capture.ConsoleLines | src/utils/pythonExecutor.ts:612-618 | The output is the captured lines, or the placeholder when there are none. |
| Capture.CaptureCompleted | src/utils/pythonExecutor.ts:592-618 | When every step returns, the output is the non-blank pieces of a non-empty captured string, or else the placeholder. |
| Capture.CaptureLinesNonBlank | src/utils/pythonExecutor.ts:612-618 | The output always has at least one line, and no line is blank. |
| Capture.CaptureRestores | src/utils/pythonExecutor.ts:594-622 | On every path the setup is the first source issued and the restore the last. |
| Capture.CapturePlaceholder | src/utils/pythonExecutor.ts:612-618 | The placeholder is the output exactly when nothing worth showing was captured. |
| Capture.CaptureError | src/utils/pythonExecutor.ts:620-626 | Code that throws leaves the error line as the only output, after the setup, the code and the restore. |
| Capture.CaptureRoundTrip | src/utils/pythonExecutor.ts:613 | When no captured piece is blank, joining the output with the separator gives back the captured text. |
| Capture.KeepNonBlankSpec | src/utils/pythonExecutor.ts:613 | Every kept line is non-blank and comes from the input. Nothing is kept exactly when every line is blank. |
| Capture.KeepNonBlankAll | src/utils/pythonExecutor.ts:613 | Lines that are all non-blank are kept unchanged. |
| Text.TrimEmptyIffBlank | src/utils/pythonExecutor.ts:613 | `trim()` gives the empty string exactly for blank text. |
| Text.TrimStartSpec | src/utils/pythonExecutor.ts:613 | `trimStart` drops exactly the leading whitespace. |
| Text.TrimEndSpec | src/utils/pythonExecutor.ts:613 | `trimEnd` drops exactly the trailing whitespace. |
| Text.IndexOf | src/utils/pythonExecutor.ts:613 | The search gives the first occurrence of the separator from the start position, or nothing when there is none. |
| Text.JoinSplit | src/utils/pythonExecutor.ts:613 | Joining the pieces of a split gives back the text; no piece contains the separator. |
| Challenges.GetAllChallenges | src/utils/challengeUtils.ts:104-117 | The flattening loop gives `Flatten`: levels in order, topics in order. |
| Challenges.InFlatten | src/utils/challengeUtils.ts:104-117 | A challenge is in the flattened list exactly when some topic of some level holds it. |
| Challenges.FlattenAppend | src/utils/challengeUtils.ts:108-114 | Flattening distributes over concatenated catalogs. |
| Challenges.IndexOfId | src/utils/challengeUtils.ts:34 | `findIndex` gives the first position holding the id, or nothing when none does. |
| Challenges.FirstOpen | src/utils/challengeUtils.ts:39-44 | The scan gives the first uncompleted position in the range, or nothing when all are completed. |
| Challenges.FindNextUncompletedChallenge | src/utils/challengeUtils.ts:18-56 | The method gives the entry at `NextOpenIndex`: scan after the current position, then wrap around up to it. |
| Challenges.NextOpenIndexSpec | src/utils/challengeUtils.ts:33-55 | An unlisted id gives nothing. The answer is uncompleted, is not the current entry, and is the first one cyclically after it. Nothing is returned exactly when every other entry is completed. |
| Challenges.AllCompletedNoNext | src/utils/challengeUtils.ts:54-55 | With everything completed there is no next uncompleted challenge. |
| Challenges.NextOf | src/utils/challengeUtils.ts:75-78 | There is no next entry exactly when the id is unlisted or last. |
| Challenges.PrevOf | src/utils/challengeUtils.ts:98-101 | There is no previous entry exactly when the id is unlisted or first. |
| Challenges.FindNextChallenge | src/utils/challengeUtils.ts:58-79 | The method gives `NextOf` on the flattened list. |
| Challenges.FindPrevChallenge | src/utils/challengeUtils.ts:81-102 | The method gives `PrevOf` on the flattened list. |
| Challenges.PrevAfterNext | src/utils/challengeUtils.ts:58-102 | With unique ids, going to the next entry and then back returns to the current one. |
| Challenges.NextAfterPrev | src/utils/challengeUtils.ts:58-102 | With unique ids, going back and then forward returns to the current one. |
| Challenges.IndexOfOwnId | src/utils/challengeUtils.ts:34 | With unique ids, an entry's id is found at its own position. |
| Challenges.TotalIsSumOfLevels | src/utils/challengeUtils.ts:119-121 | The total count is the sum of the per-level totals. |
| Challenges.AllCompletedNested | src/utils/challengeUtils.ts:123-126 | The catalog is complete exactly when every challenge of every topic of every level is completed; an empty catalog is complete. |
| Challenges.FirstLevelFrom | src/utils/challengeUtils.ts:6-14 | The answer is the first level holding the id, or nothing when none does. |
| Challenges.FirstTopicFrom | src/components/Sidebar.tsx:35-39 | The answer is the first topic of a level holding the id, or nothing when none does. |
| Challenges.FirstLevelIffListed | src/utils/challengeUtils.ts:4-16 | A level is found exactly when the id is in the flattened list. |
| Challenges.GetChallengeDifficulty | src/utils/challengeUtils.ts:4-16 | The nested loop gives the name of the first level holding the id. |
| Challenges.LevelNamed | src/pages/ChallengePage.tsx:50-51 | The lookup by name gives a level of the catalog with that name, or nothing when there is none. |
| Challenges.TopicNamed | src/components/Sidebar.tsx:113 | The lookup by name gives a topic of the level with that name, or nothing when there is none. |
| Challenges.ChallengeByIdSpec | src/pages/ChallengePage.tsx:38-46 | The answer carries the id and is in the catalog. There is no answer exactly when no challenge has the id. |
| Challenges.FindChallengeById | src/pages/ChallengePage.tsx:38-46 | The nested loop gives the first challenge with the id in level, topic and array order. |
| Challenges.FirstOfFirstTopic | src/pages/ChallengePage.tsx:62-63 | The fallback exists exactly when the level has a first topic and that topic is non-empty. |
| Challenges.FirstUncompletedSpec | src/pages/ChallengePage.tsx:49-64 | An unknown level gives nothing. The answer belongs to the level. It is uncompleted whenever the level has an uncompleted challenge. When everything is completed, it is the first challenge of the first topic. |
| Challenges.FindFirstUncompletedChallenge | src/pages/ChallengePage.tsx:49-64 | The nested loop with its fallback gives `FirstUncompleted`. The landing page's copy (`src/pages/LandingPage.tsx` lines 20-35) is the same code, so it has the same meaning. |
| JsonArray.Encode | src/hooks/useProgress.ts:22 | `JSON.stringify` of an array of strings is a bracketed text. |
| JsonArray.DecodeEncode | src/hooks/useProgress.ts:7-22 | `JSON.parse` of what `JSON.stringify` writes gives back the same array. |
| JsonArray.ParseItemsRoundTrip | src/hooks/useProgress.ts:10 | The items `JSON.stringify` writes for a non-empty array are read back as that array. |
| JsonArray.ParseEscaped | src/hooks/useProgress.ts:10 | An escaped string followed by its closing quote is read back as the string, leaving the rest. |
| JsonArray.ParseString | src/hooks/useProgress.ts:10 | Reading a string literal always consumes input. |
| ProgressStore.Distinct | src/hooks/useProgress.ts:11 | `new Set(items)` has no repetition and holds exactly the items. |
| ProgressStore.DistinctKeeps | src/hooks/useProgress.ts:11 | A list without repetition is its own set, in order. |
| ProgressStore.Added | src/hooks/useProgress.ts:20 | `add` puts the id in and changes nothing else. It keeps the list free of repetitions, and adding a present id is a no-op. |
| ProgressStore.Removed | src/hooks/useProgress.ts:36 | `delete` takes the id out and changes nothing else. |
| ProgressStore.RemovedKeepsDistinct | src/hooks/useProgress.ts:36 | `delete` keeps the list free of repetitions. |
| ProgressStore.SaveThenLoad | src/hooks/useProgress.ts:6-22 | What is saved is read back as the same set, in the same order. |
| ProgressStore.RemovedAfterAdded | src/hooks/useProgress.ts:18-39 | `resetChallenge` after `markCompleted` of a new id restores the set. |
| ProgressStore.Progress.CompletedSet | src/hooks/useProgress.ts:25-27 | The set holds exactly the listed ids. |
| ProgressStore.Progress.constructor | src/hooks/useProgress.ts:4 | The set starts empty and the storage is the given one. |
| ProgressStore.Progress.LoadSaved | src/hooks/useProgress.ts:6-16 | Saved text that parses replaces the set. Missing, empty or unparsable text keeps it. |
| ProgressStore.Progress.MarkCompleted | src/hooks/useProgress.ts:18-23 | The id is added, other ids are unchanged, and the new set is saved. |
| ProgressStore.Progress.ResetProgress | src/hooks/useProgress.ts:29-32 | The set is emptied and the saved key removed. |
| ProgressStore.Progress.ResetChallenge | src/hooks/useProgress.ts:34-39 | The id is removed, other ids are unchanged, and the new set is saved. |
| SidebarView.FindChallengeLevel | src/components/Sidebar.tsx:17-28 | A missing or empty id gives nothing. Otherwise the answer is the first level holding the id. |
| SidebarView.FindChallengeTopic | src/components/Sidebar.tsx:31-42 | A missing or empty id gives nothing. Otherwise the answer is the `level-topic` key of the first holding topic in level order. |
| SidebarView.SelectionAgrees | src/components/Sidebar.tsx:17-42 | A topic key is found exactly when a level is, and it is that level's name, a dash and a holding topic's name. |
| SidebarView.Sidebar.constructor | src/components/Sidebar.tsx:44-52 | The selected challenge's level is expanded, or `Beginner`; so is its topic, or none. |
| SidebarView.Sidebar.SelectionChanged | src/components/Sidebar.tsx:55-66 | The new level and topic are added and nothing is removed. |
| SidebarView.Sidebar.ToggleLevel | src/components/Sidebar.tsx:68-82 | Collapsing removes the level and exactly its topics' keys. Expanding adds the level and keeps the topics. An expanded level missing from the catalog makes the source throw, so nothing changes. |
| SidebarView.Sidebar.ToggleTopic | src/components/Sidebar.tsx:84-93 | The topic's key is flipped and nothing else changes. |
| SidebarView.Flip | src/components/Sidebar.tsx:86-91 | The key's membership is inverted and every other key kept. |
| SidebarView.FlipTwice | src/components/Sidebar.tsx:84-93 | Toggling twice restores the set. |
| SidebarView.GetLevelProgress | src/components/Sidebar.tsx:95-110 | The total is the number of challenges under the level. The count is those whose id is completed. An unknown level, where the source throws, gives nothing. |
| SidebarView.LevelProgressBound | src/components/Sidebar.tsx:95-110 | A level's count never exceeds its total, and equals it exactly when all its challenges are completed. |
| SidebarView.GetTopicProgress | src/components/Sidebar.tsx:112-116 | The counts come from the topic's filter. An unknown level or topic gives nothing, and the count never exceeds the total. |
| SidebarView.TopicShownComplete | src/components/Sidebar.tsx:112-116 | For the level and topic the names resolve to, the progress is that topic's completed count and total. The two are equal exactly when all its challenges are completed. |
| SidebarView.CompletedOfBound | src/components/Sidebar.tsx:114 | The filtered count never exceeds the length, and equals it exactly when all pass the filter. |
| SidebarView.CompletedOfAppend | src/components/Sidebar.tsx:100-107 | Counting completed challenges distributes over concatenation. |
| Pages.ChallengePage.constructor | src/pages/ChallengePage.tsx:28-35 | Nothing is selected and no modal is open. The desktop flag comes from the stored text. |
| Pages.ChallengePage.RouteChanged | src/pages/ChallengePage.tsx:67-80 | A known id selects its challenge. A missing, empty or unknown one asks for `/` and keeps the selection. |
| Pages.RouteTargetSpec | src/pages/ChallengePage.tsx:67-80 | A route selects a challenge exactly when its id is non-empty and in the catalog, and the selection carries that id. |
| Pages.ChallengePage.CompletionEffect | src/pages/ChallengePage.tsx:83-90 | The all-complete modal opens only with a selection, a complete catalog and the `fromLanding` state. |
| Pages.ChallengePage.HandleLevelSelect | src/pages/ChallengePage.tsx:92-99 | The page goes to the level's first uncompleted challenge, without the landing state, when there is one. The modal closes either way. |
| Pages.ChallengePage.ToggleDesktopSidebar | src/pages/ChallengePage.tsx:111-115 | The flag is negated and stored, and the stored text reads back as the new flag. |
| Pages.ChallengePage.CloseDesktopSidebar | src/pages/ChallengePage.tsx:219-236 | The backdrop click and the desktop close handler clear the flag and store `false`, which reads back as closed. Nothing else changes. |
| Pages.ChallengePage.HandleLogoClick | src/pages/ChallengePage.tsx:101-105 | The page asks for `/`. The selection and the modals are unchanged. |
| Pages.ChallengePage.HandleChallengeSelect | src/pages/ChallengePage.tsx:132-136 | The page asks for the chosen challenge's route without `fromLanding`. Nothing else changes. |
| Pages.FlagRoundTrip | src/pages/ChallengePage.tsx:32-35 | The stored flag reads back as the flag that was stored. |
| Pages.FlagText | src/pages/ChallengePage.tsx:114 | A stored flag is `true` or `false`. |
| Pages.ChallengePage.HandleCodeEvaluate | src/pages/ChallengePage.tsx:117-130 | The challenge is marked completed only when results are non-empty and all passed. Completion is checked against the old set plus this id, which is the new set. Otherwise nothing changes. |
| Pages.LevelChoiceResolves | src/pages/LandingPage.tsx:41-48 | The challenge a level selection leads to is found by the challenge page. With unique ids it is that very challenge. |
| Pages.LevelChoiceListed | src/pages/LandingPage.tsx:41-44 | The challenge a level selection leads to is in the catalog. |
| Pages.LandingPage.constructor | src/pages/LandingPage.tsx:17 | The level modal starts closed and no navigation is requested. |
| Pages.LandingPage.HandleGetStarted | src/pages/LandingPage.tsx:37-39 | The level modal opens. |
| Pages.LandingPage.HandleLevelSelect | src/pages/LandingPage.tsx:41-48 | The page goes to the first uncompleted challenge with `fromLanding` only when one is found. The modal always closes. |
| Editor.SummariesPartition | src/components/CodeEditor.tsx:153-208 | On empty results no summary holds; otherwise exactly one of all-passed, all-failed and partially-correct holds. |
| Editor.FallbackResults | src/components/CodeEditor.tsx:187-202 | The fallback has one entry per test case, each failed with the message and `undefined` actual, other fields copied. It is all-failed when there are test cases and never passed or partial. These are the results the editor shows when the page's callback throws. |
| Editor.HasNextSpec | src/components/CodeEditor.tsx:211-215 | There is a next challenge exactly when the current one is listed and some other entry is uncompleted. The next one is never completed. |
| Editor.NoNextWhenAllDone | src/components/CodeEditor.tsx:211-215 | With the catalog complete there is no next challenge. |
| Editor.CodeEditor.constructor | src/components/CodeEditor.tsx:31-38 | The code is the starter code or empty; every output is empty and the editor is not ready, so it is valid. |
| Editor.CodeEditor.InitPyodide | src/components/CodeEditor.tsx:44-55 | A successful load makes the editor ready. A failed one leaves it not ready with the refresh message. |
| Editor.CodeEditor.ResetCode | src/components/CodeEditor.tsx:57-62 | The starter code (or empty) is restored and results, console and terminal are cleared. |
| Editor.CodeEditor.RunCode | src/components/CodeEditor.tsx:64-81 | When not ready, only the loading message is shown and the session is untouched. Otherwise the terminal shows the captured output of `runPythonCode`, the session records what it issued, and the editor stays valid. |
| Editor.CodeEditor.EvaluateCode | src/components/CodeEditor.tsx:136-206 | When not ready, only the loading message is shown, nothing is reported and the session is untouched. Otherwise the session records what was issued and the evaluation's results are reported. If the callback returns, those results and the output are shown. If it throws, the message is the only console line, and every case is shown and reported again as failed with it. The editor stays valid. |
| Editor.CodeEditor.ShowEvaluation | src/components/CodeEditor.tsx:148-202 | A returning callback leaves the evaluation's results and output shown, reported once. A throwing one leaves every case failed with its message, that message as the only console line, and both lists reported in order. |
| Editor.CodeEditor.SuccessEffect | src/components/CodeEditor.tsx:230-241 | The success modal opens exactly when all tests passed. |
| Editor.CodeEditor.CompletedChanged | src/components/CodeEditor.tsx:27 | A new `completedChallenges` prop replaces the held set without remounting: every other field keeps its value. |
| Editor.CodeEditor.NextChallenge | src/components/CodeEditor.tsx:211-214 | The answer is the next uncompleted challenge after the current one, for the current prop. |
| Editor.CodeEditor.CloseSuccessModal | src/components/CodeEditor.tsx:218-220 | The success modal closes. |
| Editor.CodeEditor.ContinueToNext | src/components/CodeEditor.tsx:222-227 | The next challenge for the current prop is selected only when there is one, and the modal always closes. |

## Left out

- Pyodide itself: Python semantics, `loadPyodide`, proxies and `toJs` are the abstract functions of `Env`. `JSON.stringify` on interpreter values is the abstract `serialize`, which may throw; a throw while comparing is caught by the test case's `catch`.
- Asynchrony and React scheduling: every handler and effect is one sequential step. The 500 ms delayed completion check runs at once. Stale closures are not modelled.
- The mobile sidebar flag (`isMobileSidebarOpen`) and its toggle, which only affect rendering.
- Console logging, sounds, scrolling, timers, the editor widget's options and all rendering.
- Text.IsSpace: `\s` and `trim()` are modelled on ASCII whitespace only, not the Unicode spaces JavaScript also strips.
- The `instanceof Error` test: a thrown value is an `Error` with a message or some other value.
- Capture.CapturedLines: a captured value that is not a string is treated as no output. In JavaScript, a truthy non-string `getvalue()` result would throw on `split` and become the error line.
- Object keys: key order is the catalog's list order, including for integer-like keys that JavaScript would sort first. Duplicate keys are possible in the model but not in a parsed object, so lookups take the first match. Inherited properties such as `constructor` are not looked up.
- JsonArray.Decode: reads only the compact form `JSON.stringify` writes. It accepts no whitespace, no values other than strings, and no surrogate pairs; other text is treated as unparsable.
- `localStorage` reads and writes are assumed never to throw (`ProgressStore.Progress.LoadSaved`, `MarkCompleted`, `ResetChallenge`, `Pages.ChallengePage.ToggleDesktopSidebar`, `CloseDesktopSidebar`). A throwing callback reaches the editor only as the `callbackThrows` parameter of `Editor.CodeEditor.EvaluateCode`.
- Editor.CodeEditor.EvaluateCode: a throw from the second `onCodeEvaluate` call, inside the `catch`, escapes the handler after `finally`. The model records that call as reported and does not model the escape.
- Pages.ReadFlag: stored text other than `true` reads as closed, where `JSON.parse` could yield another truthy value or throw.
- The catalog's content (`src/data/challenges.ts`) is a parameter, not the shipped data.
- Routing (`App.tsx`), the theme, sound and device hooks, modals and other display components are not part of this model.
