/** JavaScript values as far as the loader inspects them, the errors it throws,
    and the failure-compatible result type that stands for a thrown exception. */
module Values {

  /** A JavaScript value. Only the distinctions the loader makes are kept:
      truthiness, indexing with `[0]`/`[1]`, and whether it can be called. */
  datatype Value =
    | Undef                           // `undefined`
    | Bool(b: bool)
    | Num(n: int)
    | Str(s: string)
    | Blank                           // the fresh `{}` that `provide` substitutes for missing options
    | Obj(id: nat)                    // any other object, by identity
    | Thunk(id: nat)                  // a function; what calling it produces is `Loader.apply`
    | Pair(first: Value, second: Value) // the two-element array `[pack, options]`

  /** JavaScript truthiness (`!v` is false). */
  predicate Truthy(v: Value) {
    match v
    case Undef => false
    case Bool(b) => b
    case Num(n) => n != 0
    case Str(s) => s != ""
    case _ => true
  }

  /** What the loader throws. `TypeError` is the runtime's error for reading a
      property of `undefined` or calling something that is not a function. */
  datatype Error =
    | DependencyError(name: string)
    | ImportError(file: string)
    | TypeError

  /** The result of a call that may throw: `Err` means the exception propagated
      out of the call, skipping everything after the throwing statement. */
  datatype Result<T> = Ok(value: T) | Err(error: Error) {
    predicate IsFailure() { Err? }
    function PropagateFailure<U>(): Result<U>
      requires Err?
    {
      Err(error)
    }
    function Extract(): T
      requires Ok?
    {
      value
    }
  }

  /** The completion of a call that returns nothing. */
  const Done: Result<()> := Ok(())

  datatype Option<T> = None | Some(value: T)

  /** `v[k]` for k = 0 or 1: throws on `undefined`, yields `undefined` on values
      that have no such element. */
  function Index(v: Value, k: nat): (r: Result<Value>)
    ensures r.Err? <==> v.Undef?
    ensures v.Pair? && k == 0 ==> r == Ok(v.first)
    ensures v.Pair? && k == 1 ==> r == Ok(v.second)
  {
    match v
    case Undef => Err(TypeError)
    case Pair(a, b) => Ok(if k == 0 then a else if k == 1 then b else Undef)
    case Str(s) => Ok(if k < |s| then Str([s[k]]) else Undef)
    case _ => Ok(Undef)
  }

  /** One invocation of a listener (an `onReady` callback or a promise's
      fulfil function), named by an id, with the argument it received. */
  datatype Call = Call(listener: nat, arg: Value)
}
