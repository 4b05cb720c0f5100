/** `runPythonCode` of `src/utils/pythonExecutor.ts`: runs code with
    standard output redirected into a buffer and returns the captured lines
    for the console. */
module Capture {
  import opened Text
  import opened Interp

  /** Redirects `sys.stdout` into a fresh `StringIO` buffer. */
  const SetupSource: string :=
    "\nimport sys\nfrom io import StringIO\n\nold_stdout = sys.stdout\ncaptured_output = StringIO()\nsys.stdout = captured_output\n    "

  const ReadSource: string := "captured_output.getvalue()"

  const RestoreSource: string := "sys.stdout = old_stdout"

  /** The captured text is split on the two characters backslash and `n`
      (the source writes `'\\n'`), not on a line feed. */
  const Separator: string := "\\n"

  const NoOutputMessage: string :=
    "Code executed successfully." + " No output detected." + " Use print() to display output here."

  /** `line.trim()` is truthy. */
  predicate NonBlank(line: string)
  {
    Trim(line) != ""
  }

  /** `lines.filter((line) => line.trim())`. */
  function KeepNonBlank(lines: seq<string>): (kept: seq<string>)
  {
    if lines == [] then []
    else (if NonBlank(lines[0]) then [lines[0]] else []) + KeepNonBlank(lines[1..])
  }

  /** The lines pushed for a captured value: only a non-empty string is
      split. */
  function CapturedLines(captured: Value): seq<string>
  {
    if captured.Str? && captured.s != "" then KeepNonBlank(Split(captured.s, Separator)) else []
  }

  /** The console output and the sources issued. */
  datatype Captured = Captured(output: seq<string>, issued: seq<string>)

  /** The `catch`: `stdout` is restored (whatever that gives) and the error
      is the only line. */
  function Caught(t: Thrown, issued: seq<string>): Captured
  {
    Captured(["Error: " + Message(t)], issued + [RestoreSource])
  }

  /** What `runPythonCode` returns once the runtime is loaded, as a
      function of the interpreter history. */
  function Capture(env: Env, h: seq<string>, code: string): Captured
  {
    match env.run(h, SetupSource)
    case Raised(t) => Caught(t, [SetupSource])
    case Returned(_) =>
      var h1 := h + [SetupSource];
      match env.run(h1, code)
      case Raised(t) => Caught(t, [SetupSource, code])
      case Returned(_) =>
        var h2 := h1 + [code];
        match env.run(h2, ReadSource)
        case Raised(t) => Caught(t, [SetupSource, code, ReadSource])
        case Returned(captured) =>
          var h3 := h2 + [ReadSource];
          match env.run(h3, RestoreSource)
          case Raised(t) => Caught(t, [SetupSource, code, ReadSource, RestoreSource])
          case Returned(_) =>
            var lines := CapturedLines(captured);
            Captured(if lines == [] then [NoOutputMessage] else lines,
                     [SetupSource, code, ReadSource, RestoreSource])
  }

  /** The `catch` of the method: restoring `stdout` again, ignoring what
      that gives. */
  method RestoreAfterError(s: Session, t: Thrown) returns (output: seq<string>)
    modifies s
    ensures s.loaded == old(s.loaded) && s.history == old(s.history) + [RestoreSource]
    ensures output == ["Error: " + Message(t)]
  {
    var _ := s.Run(RestoreSource);
    output := ["Error: " + Message(t)];
  }

  /** `runPythonCode`: a failed load escapes to the caller; otherwise the
      captured lines, the placeholder, or the error line. */
  method RunPythonCode(s: Session, code: string) returns (r: Result<seq<string>>)
    modifies s
    ensures !old(s.loaded) && s.env.load.Some? ==>
      r == Failure(s.env.load.value) && s.history == old(s.history) && !s.loaded
    ensures old(s.loaded) || s.env.load.None? ==>
      var c := Capture(s.env, old(s.history), code);
      s.loaded && r == Success(c.output) && s.history == old(s.history) + c.issued
  {
    var err := s.Load();
    if err.Some? {
      r := Failure(err.value);
      return;
    }
    ghost var h := s.history;
    assert h + [SetupSource] + [code] == h + [SetupSource, code];
    assert h + [SetupSource, code] + [ReadSource] == h + [SetupSource, code, ReadSource];
    var output: seq<string>;
    var o := s.Run(SetupSource);
    if o.Raised? {
      output := RestoreAfterError(s, o.thrown);
      assert Capture(s.env, h, code) == Caught(o.thrown, [SetupSource]);
      r := Success(output);
      return;
    }
    o := s.Run(code);
    if o.Raised? {
      output := RestoreAfterError(s, o.thrown);
      assert Capture(s.env, h, code) == Caught(o.thrown, [SetupSource, code]);
      r := Success(output);
      return;
    }
    var read := s.Run(ReadSource);
    if read.Raised? {
      output := RestoreAfterError(s, read.thrown);
      assert Capture(s.env, h, code) == Caught(read.thrown, [SetupSource, code, ReadSource]);
      r := Success(output);
      return;
    }
    o := s.Run(RestoreSource);
    if o.Raised? {
      output := RestoreAfterError(s, o.thrown);
      assert Capture(s.env, h, code) == Caught(o.thrown, [SetupSource, code, ReadSource, RestoreSource]);
      r := Success(output);
      return;
    }
    CaptureCompleted(s.env, h, code);
    output := ConsoleLines(read.value);
    r := Success(output);
  }

  /** The lines pushed after a successful run: the non-blank pieces of a
      non-empty captured string, or else the placeholder. */
  method ConsoleLines(captured: Value) returns (output: seq<string>)
    ensures output == (if CapturedLines(captured) == [] then [NoOutputMessage] else CapturedLines(captured))
  {
    output := [];
    if captured.Str? && captured.s != "" {
      output := output + KeepNonBlank(Split(captured.s, Separator));
    }
    if |output| == 0 {
      output := output + [NoOutputMessage];
    }
  }

  /** Once every step has run, the output is the captured lines, or the
      placeholder when there are none. */
  lemma CaptureCompleted(env: Env, h: seq<string>, code: string)
    requires env.run(h, SetupSource).Returned?
    requires env.run(h + [SetupSource], code).Returned?
    requires env.run(h + [SetupSource, code], ReadSource).Returned?
    requires env.run(h + [SetupSource, code, ReadSource], RestoreSource).Returned?
    ensures var lines := CapturedLines(env.run(h + [SetupSource, code], ReadSource).value);
      Capture(env, h, code)
        == Captured(if lines == [] then [NoOutputMessage] else lines, [SetupSource, code, ReadSource, RestoreSource])
  {
    assert h + [SetupSource] + [code] == h + [SetupSource, code];
    assert h + [SetupSource, code] + [ReadSource] == h + [SetupSource, code, ReadSource];
  }

  // ---------------------------------------------------------------------
  // Properties

  /** The filter keeps exactly the non-blank lines, in order. */
  lemma {:induction false} KeepNonBlankSpec(lines: seq<string>)
    ensures var kept := KeepNonBlank(lines);
      && |kept| <= |lines|
      && (forall k :: 0 <= k < |kept| ==> NonBlank(kept[k]) && kept[k] in lines)
      && (kept == [] <==> forall k :: 0 <= k < |lines| ==> !NonBlank(lines[k]))
  {
    if lines != [] {
      KeepNonBlankSpec(lines[1..]);
      var rest := KeepNonBlank(lines[1..]);
      if NonBlank(lines[0]) {
        assert KeepNonBlank(lines) == [lines[0]] + rest;
      } else {
        assert KeepNonBlank(lines) == rest;
        if rest == [] {
          forall k | 0 <= k < |lines| ensures !NonBlank(lines[k]) {
            if k > 0 {
              assert lines[k] == lines[1..][k - 1];
            }
          }
        }
      }
      forall k | 0 <= k < |KeepNonBlank(lines)| ensures KeepNonBlank(lines)[k] in lines {
        var x := KeepNonBlank(lines)[k];
        if !(NonBlank(lines[0]) && k == 0) {
          assert x in lines[1..];
        }
      }
    }
  }

  /** When no line is blank, nothing is dropped. */
  lemma {:induction false} KeepNonBlankAll(lines: seq<string>)
    requires forall k :: 0 <= k < |lines| ==> NonBlank(lines[k])
    ensures KeepNonBlank(lines) == lines
  {
    if lines != [] {
      assert NonBlank(lines[0]);
      KeepNonBlankAll(lines[1..]);
    }
  }

  /** Every line of the console output is non-blank, and there is always
      at least one. */
  lemma CaptureLinesNonBlank(env: Env, h: seq<string>, code: string)
    ensures var out := Capture(env, h, code).output;
      out != [] && forall k :: 0 <= k < |out| ==> NonBlank(out[k])
  {
    var out := Capture(env, h, code).output;
    if && env.run(h, SetupSource).Returned?
       && env.run(h + [SetupSource], code).Returned?
       && env.run(h + [SetupSource, code], ReadSource).Returned?
       && env.run(h + [SetupSource, code, ReadSource], RestoreSource).Returned?
    {
      CaptureCompleted(env, h, code);
      var captured := env.run(h + [SetupSource, code], ReadSource).value;
      if CapturedLines(captured) == [] {
        PlaceholderNonBlank(NoOutputMessage);
      } else {
        KeepNonBlankSpec(Split(captured.s, Separator));
      }
    } else {
      assert h + [SetupSource] + [code] == h + [SetupSource, code];
      assert h + [SetupSource, code] + [ReadSource] == h + [SetupSource, code, ReadSource];
      assert |out| == 1 && out[0][..7] == "Error: ";
      TrimKeepsHead(out[0]);
    }
  }

  lemma PlaceholderNonBlank(m: string)
    requires m == NoOutputMessage
    ensures NonBlank(m)
  {
    TrimKeepsHead(m);
  }

  /** `stdout` is restored on every path: the setup is the first source
      issued and the restore the last. */
  lemma CaptureRestores(env: Env, h: seq<string>, code: string)
    ensures var issued := Capture(env, h, code).issued;
      |issued| >= 2 && issued[0] == SetupSource && issued[|issued| - 1] == RestoreSource
  {
  }

  /** Nothing worth showing was captured: no string, the empty string, or
      only blank lines. */
  predicate NothingToShow(captured: Value)
  {
    || !captured.Str?
    || captured.s == ""
    || forall k :: 0 <= k < |Split(captured.s, Separator)| ==> !NonBlank(Split(captured.s, Separator)[k])
  }

  /** Once every step has run, the placeholder is the output exactly when
      nothing worth showing was captured; otherwise the output is the
      non-blank pieces of the captured string. */
  lemma CapturePlaceholder(env: Env, h: seq<string>, code: string)
    requires env.run(h, SetupSource).Returned?
    requires env.run(h + [SetupSource], code).Returned?
    requires env.run(h + [SetupSource, code], ReadSource).Returned?
    requires env.run(h + [SetupSource, code, ReadSource], RestoreSource).Returned?
    ensures var captured := env.run(h + [SetupSource, code], ReadSource).value;
      NothingToShow(captured) ==> Capture(env, h, code).output == [NoOutputMessage]
    ensures var captured := env.run(h + [SetupSource, code], ReadSource).value;
      !NothingToShow(captured) ==>
        Capture(env, h, code).output == KeepNonBlank(Split(captured.s, Separator)) != []
  {
    CaptureCompleted(env, h, code);
    var captured := env.run(h + [SetupSource, code], ReadSource).value;
    if captured.Str? && captured.s != "" {
      KeepNonBlankSpec(Split(captured.s, Separator));
    }
  }

  /** A failing step leaves the error as the only line. */
  lemma CaptureError(env: Env, h: seq<string>, code: string)
    requires env.run(h, SetupSource).Returned?
    requires env.run(h + [SetupSource], code).Raised?
    ensures Capture(env, h, code).output == ["Error: " + Message(env.run(h + [SetupSource], code).thrown)]
    ensures Capture(env, h, code).issued == [SetupSource, code, RestoreSource]
  {
  }

  /** When no captured line is blank, the console lines joined with the
      separator give back the captured text. */
  lemma CaptureRoundTrip(env: Env, h: seq<string>, code: string)
    requires env.run(h, SetupSource).Returned?
    requires env.run(h + [SetupSource], code).Returned?
    requires env.run(h + [SetupSource, code], ReadSource).Returned?
    requires env.run(h + [SetupSource, code, ReadSource], RestoreSource).Returned?
    requires var captured := env.run(h + [SetupSource, code], ReadSource).value;
      && captured.Str? && captured.s != ""
      && forall k :: 0 <= k < |Split(captured.s, Separator)| ==> NonBlank(Split(captured.s, Separator)[k])
    ensures Join(Capture(env, h, code).output, Separator)
         == env.run(h + [SetupSource, code], ReadSource).value.s
  {
    var captured := env.run(h + [SetupSource, code], ReadSource).value;
    assert h + [SetupSource] + [code] == h + [SetupSource, code];
    assert h + [SetupSource, code] + [ReadSource] == h + [SetupSource, code, ReadSource];
    KeepNonBlankAll(Split(captured.s, Separator));
    JoinSplit(captured.s, Separator);
  }
}
