/** The embedded Python interpreter as the harness sees it: values that
    come back to JavaScript, the two ways a call can end, and a session
    object whose only observable state is the sequence of sources run in
    it so far. What Python computes is not modelled: it is an arbitrary
    function (an `Env`) of that history. */
module Interp {
  import opened Text

  /** A JavaScript value handed back by the interpreter. `Proxy` is a
      live reference to a Python object (a `PyProxy`); `Obj` keeps its
      entries in insertion order, which is the order `Object.keys` and
      `JSON.stringify` see. */
  datatype Value =
    | Undefined
    | Null
    | Bool(b: bool)
    | Num(n: real)
    | Str(s: string)
    | Arr(items: seq<Value>)
    | Obj(entries: seq<(string, Value)>)
    | Proxy(handle: nat)

  /** What a `catch` receives: an `Error` (its `message`), or a thrown
      value that is not one. */
  datatype Thrown = Error(message: string) | NonError

  /** `error instanceof Error ? error.message : 'Unknown error'`. */
  function Message(t: Thrown): (m: string)
    ensures t.Error? ==> m == t.message
    ensures t.NonError? ==> m == "Unknown error"
  {
    match t
    case Error(msg) => msg
    case NonError => "Unknown error"
  }

  datatype Outcome = Returned(value: Value) | Raised(thrown: Thrown)

  datatype Result<T> = Success(value: T) | Failure(thrown: Thrown)

  /** The foreign parts, as functions of the sources run so far:
      - `load`: the outcome of loading the runtime (`None` when it loads);
      - `run`: what `runPython(src)` returns or throws;
      - `toJs`: what `proxy.toJs()` returns, `None` when it throws;
      - `serialize`: what `JSON.stringify` gives for a value other than
        `undefined` (for which it gives `undefined`), or what it throws
        (it throws on a `BigInt` or a cyclic object, for instance). */
  datatype Env = Env(
    load: Option<Thrown>,
    run: (seq<string>, string) -> Outcome,
    toJs: (seq<string>, Value) -> Option<Value>,
    serialize: Value -> Result<string>)

  /** `JSON.stringify(v)`, with `None` standing for `undefined`. */
  function Stringify(env: Env, v: Value): (r: Result<Option<string>>)
    ensures r == Success(None) <==> v.Undefined?
    ensures r.Failure? ==> env.serialize(v) == Failure(r.thrown)
    ensures r.Success? && !v.Undefined? ==> env.serialize(v) == Success(r.value.value)
  {
    if v.Undefined? then Success(None)
    else
      match env.serialize(v)
      case Success(text) => Success(Some(text))
      case Failure(t) => Failure(t)
  }

  /** `JSON.stringify(actual) === JSON.stringify(expected)`. The actual
      value is serialized first, so when both throw, its throw is the one
      that escapes. */
  function CompareJson(env: Env, actual: Value, expected: Value): (r: Result<bool>)
    ensures Stringify(env, actual).Failure? ==> r == Failure(Stringify(env, actual).thrown)
    ensures Stringify(env, actual).Success? && Stringify(env, expected).Failure? ==>
      r == Failure(Stringify(env, expected).thrown)
    ensures Stringify(env, actual).Success? && Stringify(env, expected).Success? ==>
      r == Success(Stringify(env, actual).value == Stringify(env, expected).value)
  {
    match Stringify(env, actual)
    case Failure(t) => Failure(t)
    case Success(a) =>
      match Stringify(env, expected)
      case Failure(t) => Failure(t)
      case Success(e) => Success(a == e)
  }

  /** Pass/fail comparison: both sides serialize, to identical text. */
  predicate SameJson(env: Env, actual: Value, expected: Value)
  {
    CompareJson(env, actual, expected) == Success(true)
  }

  /** A value that serializes compares equal to itself. */
  lemma SameJsonReflexive(env: Env, v: Value)
    requires Stringify(env, v).Success?
    ensures SameJson(env, v, v)
  {
  }

  /** A pass needs both sides to serialize, so passing does not depend on
      the order of the two sides. */
  lemma SameJsonSymmetric(env: Env, a: Value, b: Value)
    ensures SameJson(env, a, b) <==> SameJson(env, b, a)
  {
  }

  /** `undefined` serializes like nothing else, so it is equal only to
      itself under the comparison. */
  lemma UndefinedOnlyMatchesUndefined(env: Env, a: Value, b: Value)
    requires a.Undefined?
    ensures SameJson(env, a, b) <==> b.Undefined?
  {
  }

  /** The conversion step applied to every result: a `PyProxy` is replaced
      by its `toJs()` conversion, unless converting throws; any other value
      is kept. */
  function Marshal(env: Env, history: seq<string>, v: Value): (r: Value)
    ensures !v.Proxy? ==> r == v
    ensures v.Proxy? && env.toJs(history, v).None? ==> r == v
    ensures v.Proxy? && env.toJs(history, v).Some? ==> r == env.toJs(history, v).value
  {
    if v.Proxy? then
      match env.toJs(history, v)
      case Some(w) => w
      case None => v
    else v
  }

  /** One interpreter instance (the module-level `pyodideInstance`). */
  class Session {
    const env: Env
    /** Whether the runtime has been loaded. */
    var loaded: bool
    /** Every source passed to `runPython`, oldest first. */
    var history: seq<string>

    constructor (env: Env)
      ensures this.env == env && !loaded && history == []
    {
      this.env := env;
      loaded := false;
      history := [];
    }

    /** `initializePyodide`: loads the runtime once; a failed load leaves
        the session unloaded and reports what was thrown. */
    method Load() returns (err: Option<Thrown>)
      modifies this
      ensures history == old(history)
      ensures old(loaded) ==> err.None? && loaded
      ensures !old(loaded) ==> err == env.load && loaded == env.load.None?
    {
      if !loaded {
        err := env.load;
        if err.None? {
          loaded := true;
        }
      } else {
        err := None;
      }
    }

    /** `runPython(src)`: records the source and returns what the
        interpreter gives for it in the current history. */
    method Run(src: string) returns (o: Outcome)
      modifies this
      ensures history == old(history) + [src] && loaded == old(loaded)
      ensures o == env.run(old(history), src)
    {
      o := env.run(history, src);
      history := history + [src];
    }
  }
}
