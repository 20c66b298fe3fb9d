/** The loader object: the package registry, the import set and the listener
    queues, changed in place by registration, provision, evaluation and the
    import scheduler, as the loader namespace of Load.js does. */
module Loader {
  import opened Values
  import opened Registry
  import opened Schedule
  import Manifests

  /** How `import` left the promise it returned: fulfilled by the first call
      of its resolver, rejected by a throw that came before any such call, or
      still pending with the resolver waiting in `_onImport`. */
  datatype ImportResult = Fulfilled(v: Value) | Pending | Rejected(error: Error)

  /** The invocations that firing `ls` with `arg` makes, in order. */
  function CallsOf(ls: seq<nat>, arg: Value): seq<Call> {
    if ls == [] then [] else CallsOf(ls[..|ls| - 1], arg) + [Call(ls[|ls| - 1], arg)]
  }

  /** Every listener is invoked once, in list order, with the argument. */
  lemma {:induction false} CallsOfAt(ls: seq<nat>, arg: Value)
    ensures |CallsOf(ls, arg)| == |ls|
    ensures forall i :: 0 <= i < |ls| ==> CallsOf(ls, arg)[i] == Call(ls[i], arg)
  {
    if ls != [] {
      CallsOfAt(ls[..|ls| - 1], arg);
    }
  }

  /** The invocations that firing the listeners of `name` makes. */
  function Calls(m: map<string, seq<nat>>, name: string, arg: Value): seq<Call> {
    if name in m then CallsOf(m[name], arg) else []
  }

  /** The listener map after the listeners of `name` were fired. */
  function Emptied(m: map<string, seq<nat>>, name: string): map<string, seq<nat>> {
    if name in m then m[name := []] else m
  }

  /** The listener map with `l` appended to the listeners of `name`. */
  function Listen(m: map<string, seq<nat>>, name: string, l: nat): map<string, seq<nat>> {
    m[name := (if name in m then m[name] else []) + [l]]
  }

  /** Some call at position `start` of the trace or later went to listener `l`. */
  predicate Heard(t: seq<Call>, start: nat, l: nat) {
    exists i :: start <= i < |t| && t[i].listener == l
  }

  /** The argument of the first call to listener `l` at position `start` of
      the trace or later, if there is one. */
  function FirstCall(t: seq<Call>, start: nat, l: nat): (r: Option<Value>)
    decreases |t| - start
    ensures r.None? <==> !Heard(t, start, l)
    ensures r.Some? ==> exists i :: start <= i < |t| && t[i] == Call(l, r.value) &&
                                    forall j :: start <= j < i ==> t[j].listener != l
  {
    if start >= |t| then None
    else if t[start].listener == l then Some(t[start].arg)
    else FirstCall(t, start + 1, l)
  }

  /** The parts of the loader state that the provide/import cascade evolves. */
  datatype Snapshot = Snapshot(
    packs: Packs,
    files: Files,
    importSet: seq<string>,
    trace: seq<Call>,
    onImport: map<string, seq<nat>>,
    readies: map<string, seq<nat>>,
    errors: seq<Value>)

  /** A listener map in which some lists were fired and emptied. */
  predicate Drained(m0: map<string, seq<nat>>, m1: map<string, seq<nat>>) {
    m1.Keys == m0.Keys && forall n :: n in m1 ==> m1[n] == m0[n] || m1[n] == []
  }

  /** Every listener of an `_onImport` list that was emptied between `a` and
      `b` was called in the part of the trace that `b` added. */
  predicate Answered(a: Snapshot, b: Snapshot) {
    forall n, l :: n in a.onImport && n in b.onImport && b.onImport[n] == [] && l in a.onImport[n] ==>
      Heard(b.trace, |a.trace|, l)
  }

  /** What every step of the provide/import cascade preserves: names and
      files are never forgotten, the import set only loses entries, the
      trace only grows, listener lists are only ever emptied, an emptied
      import-promise list was called first, and no error is recorded. */
  predicate Evolved(a: Snapshot, b: Snapshot) {
    && a.packs.Keys <= b.packs.Keys
    && a.files.Keys <= b.files.Keys
    && |b.importSet| <= |a.importSet|
    && (forall x :: x in b.importSet ==> x in a.importSet)
    && a.trace <= b.trace
    && Drained(a.onImport, b.onImport)
    && Drained(a.readies, b.readies)
    && Answered(a, b)
    && a.errors == b.errors
  }

  /** Evolution composes: the cascade's steps may be chained. */
  lemma EvolvedTrans(a: Snapshot, b: Snapshot, c: Snapshot)
    requires Evolved(a, b) && Evolved(b, c)
    ensures Evolved(a, c)
  {
    PrefixTrans(a.trace, b.trace, c.trace);
    forall n, l | n in a.onImport && n in c.onImport && c.onImport[n] == [] && l in a.onImport[n]
      ensures Heard(c.trace, |a.trace|, l)
    {
      assert n in b.onImport;
      if b.onImport[n] == [] {
        assert Heard(b.trace, |a.trace|, l);
        var i :| |a.trace| <= i < |b.trace| && b.trace[i].listener == l;
        assert c.trace[i] == b.trace[i];
      } else {
        assert l in b.onImport[n] && Heard(c.trace, |b.trace|, l);
        var i :| |b.trace| <= i < |c.trace| && c.trace[i].listener == l;
      }
    }
  }

  /** A step that leaves the import promises, the import set and the errors
      alone, forgets no package or file, only extends the trace and only
      empties ready lists, is an evolution. */
  lemma QuietEvolved(a: Snapshot, b: Snapshot)
    requires a.onImport == b.onImport && a.files.Keys <= b.files.Keys && a.importSet == b.importSet
    requires a.errors == b.errors && a.packs.Keys <= b.packs.Keys
    requires a.trace <= b.trace && Drained(a.readies, b.readies)
    ensures Evolved(a, b)
  {
  }

  /** Firing the import promises of one name, after a provision that only
      added or updated records, is an evolution. */
  lemma FiredEvolved(a: Snapshot, b: Snapshot, name: string, arg: Value)
    requires a.packs.Keys <= b.packs.Keys && a.files == b.files && a.importSet == b.importSet
    requires a.readies == b.readies && a.errors == b.errors
    requires b.onImport == Emptied(a.onImport, name)
    requires b.trace == a.trace + Calls(a.onImport, name, arg)
    ensures Evolved(a, b)
  {
    FiredAnswered(a, b, name, arg);
  }

  /** Firing the import promises of one name answers every one of them. */
  lemma FiredAnswered(a: Snapshot, b: Snapshot, name: string, arg: Value)
    requires b.onImport == Emptied(a.onImport, name)
    requires b.trace == a.trace + Calls(a.onImport, name, arg)
    ensures Answered(a, b)
  {
    forall n, l | n in a.onImport && n in b.onImport && b.onImport[n] == [] && l in a.onImport[n]
      ensures Heard(b.trace, |a.trace|, l)
    {
      assert n == name;
      var k :| 0 <= k < |a.onImport[n]| && a.onImport[n][k] == l;
      CallsOfAt(a.onImport[n], arg);
      assert b.trace[|a.trace| + k] == Call(l, arg);
    }
  }

  /** Prefixes compose. */
  lemma PrefixTrans<T>(a: seq<T>, b: seq<T>, c: seq<T>)
    requires a <= b && b <= c
    ensures a <= c
  {
    assert forall i :: 0 <= i < |a| ==> a[i] == b[i] == c[i];
  }

  /** A prefix of a prefix is a prefix. */
  lemma PrefixOfPrefix<T>(a: seq<T>, b: seq<T>, t: seq<T>)
    requires a + b <= t
    ensures a <= t
  {
    assert forall i :: 0 <= i < |a| ==> a[i] == (a + b)[i];
  }

  /** Firing one list of listeners is an evolution of the listener map. */
  lemma EmptiedDrains(m: map<string, seq<nat>>, name: string)
    ensures Drained(m, Emptied(m, name))
  {
  }

  /** A listener list that was emptied stays empty while the state evolves. */
  lemma StaysEmpty(a: Snapshot, b: Snapshot, name: string)
    requires Evolved(a, b)
    ensures name in a.onImport && a.onImport[name] == [] ==> name in b.onImport && b.onImport[name] == []
    ensures name in a.readies && a.readies[name] == [] ==> name in b.readies && b.readies[name] == []
  {
  }

  class Loader {
    /** `_packs` */
    var packs: Packs
    /** `_files` */
    var files: Files
    /** `_importSet` */
    var importSet: seq<string>
    /** `_readies`: listeners waiting for a package to be evaluated */
    var readies: map<string, seq<nat>>
    /** `_onImport`: import promises waiting for a package to be provided */
    var onImport: map<string, seq<nat>>
    /** `_currentEval` */
    var currentEval: Option<string>
    /** Every listener invocation so far, in order. */
    var trace: seq<Call>
    /** `_uncaughtErrors` (the error values only) */
    var errors: seq<Value>
    /** What calling each thunk produces. */
    const apply: nat -> Value

    /** The registry invariant: the import set names registered packages, each
        once, and every name a file provides is registered. */
    ghost predicate Valid()
      reads this
    {
      && AllRegistered(packs, importSet)
      && NoDup(importSet)
      && (forall f, p :: f in files && p in files[f].provided ==> p in packs)
    }

    /** The loader's state as a value. */
    ghost function Snap(): Snapshot
      reads this
    {
      Snapshot(packs, files, importSet, trace, onImport, readies, errors)
    }

    constructor (apply: nat -> Value)
      ensures Valid()
      ensures packs == map[] && files == map[] && importSet == []
      ensures readies == map[] && onImport == map[] && currentEval == None
      ensures trace == [] && errors == [] && this.apply == apply
    {
      packs, files, importSet := map[], map[], [];
      readies, onImport, currentEval := map[], map[], None;
      trace, errors := [], [];
      this.apply := apply;
    }

    // -------------------------------------------------------------------
    // Listeners
    // -------------------------------------------------------------------

    /** `_fireListeners`: invoke every listener of `name`, in order, with the
        package's current obj (whatever argument the caller passed), then
        replace the list by the empty list. */
    method FireListeners(listeners: map<string, seq<nat>>, name: string)
      returns (rest: map<string, seq<nat>>)
      requires name in packs
      modifies this`trace
      ensures trace == old(trace) + Calls(listeners, name, packs[name].obj)
      ensures rest == Emptied(listeners, name)
      ensures old(trace) <= trace && Drained(listeners, rest)
    {
      rest := listeners;
      if name in listeners {
        var ls := listeners[name];
        var i := 0;
        while i < |ls|
          invariant 0 <= i <= |ls|
          invariant trace == old(trace) + CallsOf(ls[..i], packs[name].obj)
        {
          assert ls[..i + 1][..i] == ls[..i];
          trace := trace + [Call(ls[i], packs[name].obj)];
          i := i + 1;
        }
        assert ls[..i] == ls;
        rest := listeners[name := []];
      }
    }

    // -------------------------------------------------------------------
    // Evaluation
    // -------------------------------------------------------------------

    /** `evaluate`: runs an imported code package's thunk once, guarded by
        STATE_RUNNING, then fires `_readies` and returns the package's obj. A
        throw (calling a non-function, or sealing with primitive options)
        leaves the package in STATE_RUNNING and `_currentEval` set. */
    method Evaluate(name: string) returns (r: Result<Value>)
      requires Valid()
      modifies this
      ensures Valid()
      ensures name !in old(packs) ==> r == Err(TypeError) && unchanged(this)
      ensures name in old(packs) ==>
                var ev := EvaluateStep(old(packs)[name], apply);
                && r == ev.result
                && packs == old(packs)[name := ev.pkg]
                && readies == (if ev.fires then Emptied(old(readies), name) else old(readies))
                && trace == old(trace) + (if ev.fires then Calls(old(readies), name, ev.pkg.obj) else [])
                && currentEval == (if r.Err? then Some(name) else old(currentEval))
      ensures name in old(packs) && old(packs)[name].state == Ran ==>
                && r == Ok(old(packs)[name].obj) && packs == old(packs) && currentEval == old(currentEval)
                && readies == Emptied(old(readies), name)
                && trace == old(trace) + Calls(old(readies), name, old(packs)[name].obj)
      ensures files == old(files) && importSet == old(importSet) && onImport == old(onImport)
      ensures errors == old(errors)
      ensures packs.Keys == old(packs).Keys && Evolved(old(Snap()), Snap())
    {
      if name !in packs {
        return Err(TypeError);
      }
      if packs[name].state == Running {
        return Ok(Undef);
      }
      ghost var ev := EvaluateStep(packs[name], apply);
      if packs[name].state == Imported && packs[name].kind == Code {
        var ran := RunThunk(name);
        if !ran {
          return Err(TypeError);
        }
      }
      assert packs == old(packs)[name := ev.pkg] && ev.fires && ev.result == Ok(packs[name].obj);
      assert packs.Keys == old(packs).Keys;
      readies := FireListeners(readies, name);
      r := Ok(packs[name].obj);
    }

    /** The STATE_RUNNING window of `evaluate` for an imported code package:
        mark it running, call `obj[0]`, keep the result as obj, seal it, and
        mark it run, restoring `_currentEval`. A throw ends the window early. */
    method RunThunk(name: string) returns (ran: bool)
      requires name in packs && packs[name].state == Imported && packs[name].kind == Code
      modifies this`packs, this`currentEval
      ensures var ev := EvaluateStep(old(packs)[name], apply);
              && packs == old(packs)[name := ev.pkg]
              && ran == ev.fires && (ran <==> ev.result.Ok?)
              && currentEval == (if ran then old(currentEval) else Some(name))
    {
      var oldCur := currentEval;
      currentEval := Some(name);
      packs := packs[name := packs[name].(state := Running)];
      var obj := packs[name].obj;
      if !(obj.Pair? && obj.first.Thunk?) {
        return false;
      }
      var result := apply(obj.first.id);
      packs := packs[name := packs[name].(obj := result)];
      if SealThrows(result, obj.second) {
        return false;
      }
      packs := packs[name := packs[name].(state := Ran)];
      currentEval := oldCur;
      ran := true;
    }

    // -------------------------------------------------------------------
    // Provision
    // -------------------------------------------------------------------

    /** `provide` up to the scheduler run: record `[pack, options]`; a
        package that was importing becomes imported, fires its import
        promises and is evaluated if it was asked for with `>`; any other
        package becomes seen and nothing else happens (`announced` is false). */
    method ReceiveCode(name: string, pack: Value, options: Value) returns (r: Result<()>, announced: bool)
      requires Valid()
      modifies this
      ensures Valid() && Evolved(old(Snap()), Snap())
      ensures files == old(files) && importSet == old(importSet) && errors == old(errors)
      ensures var obj := Pair(pack, if Truthy(options) then options else Blank);
              var delivered := Deliver(old(packs), name, obj, Code);
              delivered[name].state == Seen ==>
                && !announced && r == Done && packs == delivered
                && readies == old(readies) && onImport == old(onImport) && trace == old(trace)
                && currentEval == old(currentEval)
      ensures var obj := Pair(pack, if Truthy(options) then options else Blank);
              var delivered := Deliver(old(packs), name, obj, Code);
              delivered[name].state == Imported && !delivered[name].evalOnImport ==>
                && announced && r == Done && packs == delivered
                && onImport == Emptied(old(onImport), name) && readies == old(readies)
                && trace == old(trace) + Calls(old(onImport), name, obj)
                && currentEval == old(currentEval)
      ensures var obj := Pair(pack, if Truthy(options) then options else Blank);
              var delivered := Deliver(old(packs), name, obj, Code);
              var ev := EvaluateStep(delivered[name], apply);
              delivered[name].state == Imported && delivered[name].evalOnImport ==>
                && announced && r == (if ev.result.Err? then Err(ev.result.error) else Done)
                && packs == delivered[name := ev.pkg]
                && onImport == Emptied(old(onImport), name)
                && readies == (if ev.fires then Emptied(old(readies), name) else old(readies))
                && trace == old(trace) + Calls(old(onImport), name, obj)
                            + (if ev.fires then Calls(old(readies), name, ev.pkg.obj) else [])
                && currentEval == (if ev.result.Err? then Some(name) else old(currentEval))
    {
      ghost var cur := currentEval;
      var opts := if Truthy(options) then options else Blank;
      packs := Deliver(packs, name, Pair(pack, opts), Code);
      if packs[name].state == Seen {
        assert currentEval == cur;
        QuietEvolved(old(Snap()), Snap());
        return Done, false;
      }
      ghost var delivered := Snap();
      assert Evolved(old(Snap()), delivered) by {
        QuietEvolved(old(Snap()), delivered);
      }
      r := Announce(name);
      announced := true;
      EvolvedTrans(old(Snap()), delivered, Snap());
    }

    /** The part of `provide` for a package that has just become imported:
        fire its import promises with its obj, then evaluate it if it was
        asked for with `>`. */
    method Announce(name: string) returns (r: Result<()>)
      requires Valid() && name in packs && packs[name].state == Imported
      modifies this
      ensures Valid() && Evolved(old(Snap()), Snap())
      ensures files == old(files) && importSet == old(importSet) && errors == old(errors)
      ensures onImport == Emptied(old(onImport), name)
      ensures var p := old(packs)[name];
              !p.evalOnImport ==>
                && r == Done && packs == old(packs) && readies == old(readies)
                && trace == old(trace) + Calls(old(onImport), name, p.obj)
                && currentEval == old(currentEval)
      ensures var p := old(packs)[name];
              var ev := EvaluateStep(p, apply);
              p.evalOnImport ==>
                && r == (if ev.result.Err? then Err(ev.result.error) else Done)
                && packs == old(packs)[name := ev.pkg]
                && readies == (if ev.fires then Emptied(old(readies), name) else old(readies))
                && trace == old(trace) + Calls(old(onImport), name, p.obj)
                            + (if ev.fires then Calls(old(readies), name, ev.pkg.obj) else [])
                && currentEval == (if ev.result.Err? then Some(name) else old(currentEval))
    {
      ghost var cur := currentEval;
      ghost var ev := EvaluateStep(packs[name], apply);
      onImport := FireListeners(onImport, name);
      ghost var fired := Snap();
      FiredEvolved(old(Snap()), fired, name, packs[name].obj);
      assert currentEval == cur;
      r := Done;
      if packs[name].evalOnImport {
        var e := Evaluate(name);
        assert e == ev.result && packs == old(packs)[name := ev.pkg];
        assert trace == fired.trace + (if ev.fires then Calls(old(readies), name, ev.pkg.obj) else []);
        EvolvedTrans(old(Snap()), fired, Snap());
        if e.Err? {
          r := Err(e.error);
        }
      }
    }

    /** `provide`: record `[pack, options]`; a package that was importing
        becomes imported, fires its import promises, is evaluated if it was
        asked for with `>`, and the scheduler runs; any other package becomes
        seen and the call returns at once. */
    method Provide(name: string, pack: Value, options: Value) returns (r: Result<()>)
      requires Valid()
      modifies this
      decreases |importSet|, 2
      ensures Valid() && Evolved(old(Snap()), Snap()) && name in packs
      ensures var obj := Pair(pack, if Truthy(options) then options else Blank);
              var first := Deliver(old(packs), name, obj, Code);
              first[name].state == Seen ==>
                && r == Done && packs == first && files == old(files) && importSet == old(importSet)
                && readies == old(readies) && onImport == old(onImport) && trace == old(trace)
                && currentEval == old(currentEval)
      ensures var obj := Pair(pack, if Truthy(options) then options else Blank);
              var first := Deliver(old(packs), name, obj, Code);
              var ev := EvaluateStep(first[name], apply);
              first[name].state == Imported ==>
                && old(trace) + Calls(old(onImport), name, obj)
                   + (if first[name].evalOnImport && ev.fires then Calls(old(readies), name, ev.pkg.obj) else []) <= trace
                && (name in old(onImport) ==> onImport[name] == [])
                && (first[name].evalOnImport && ev.result.Err? ==> r == Err(ev.result.error))
    {
      var announced;
      r, announced := ReceiveCode(name, pack, options);
      if !announced || r.Err? {
        return;
      }
      ghost var received := Snap();
      r := TryImport();
      EvolvedTrans(old(Snap()), received, Snap());
      StaysEmpty(received, Snap(), name);
    }

    /** `provideResource` up to the scheduler run: the record goes straight to
        STATE_RAN with the data, its import promises fire, and the evaluation
        that follows only fires its ready listeners. */
    method ReceiveResource(name: string, data: Value)
      requires Valid()
      modifies this
      ensures Valid() && Evolved(old(Snap()), Snap())
      ensures packs == LoadResource(old(packs), name, data)
      ensures onImport == Emptied(old(onImport), name) && readies == Emptied(old(readies), name)
      ensures trace == old(trace) + Calls(old(onImport), name, data) + Calls(old(readies), name, data)
      ensures files == old(files) && importSet == old(importSet) && errors == old(errors)
      ensures currentEval == old(currentEval)
    {
      ghost var cur := currentEval;
      packs := LoadResource(packs, name, data);
      onImport := FireListeners(onImport, name);
      ghost var fired := Snap();
      FiredEvolved(old(Snap()), fired, name, data);
      // a package in STATE_RAN evaluates without throwing
      assert packs[name].state == Ran && packs[name].obj == data;
      assert currentEval == cur;
      var _ := Evaluate(name);
      assert currentEval == cur;
      EvolvedTrans(old(Snap()), fired, Snap());
    }

    /** `provideResource`: the resource is evaluated at once (STATE_RAN); its
        import promises and ready listeners fire, then the scheduler runs. */
    method ProvideResource(name: string, data: Value) returns (r: Result<()>)
      requires Valid()
      modifies this
      ensures Valid() && Evolved(old(Snap()), Snap()) && name in packs
      ensures old(trace) + Calls(old(onImport), name, data) + Calls(old(readies), name, data) <= trace
      ensures name in old(onImport) ==> onImport[name] == []
      ensures name in old(readies) ==> readies[name] == []
    {
      ReceiveResource(name, data);
      ghost var received := Snap();
      r := TryImport();
      EvolvedTrans(old(Snap()), received, Snap());
      StaysEmpty(received, Snap(), name);
    }

    /** The completion of a resource fetch: `provideResource`, then one more
        scheduler run. */
    method ResourceArrived(name: string, content: Value) returns (r: Result<()>)
      requires Valid()
      modifies this
      ensures Valid() && Evolved(old(Snap()), Snap()) && name in packs
      ensures old(trace) + Calls(old(onImport), name, content) + Calls(old(readies), name, content) <= trace
      ensures name in old(onImport) ==> onImport[name] == []
      ensures name in old(readies) ==> readies[name] == []
    {
      r := ProvideResource(name, content);
      if r.Err? {
        return;
      }
      ghost var mid := Snap();
      r := TryImport();
      EvolvedTrans(old(Snap()), mid, Snap());
      StaysEmpty(mid, Snap(), name);
    }

    /** `provideExternal` up to the scheduler run: record the script as the
        obj (TYPE_EXT for a new record), fire the import promises, and
        evaluate. */
    method ReceiveExternal(name: string, script: Value) returns (r: Result<Value>)
      requires Valid()
      modifies this
      ensures Valid() && Evolved(old(Snap()), Snap())
      ensures var delivered := Deliver(old(packs), name, script, External);
              var ev := EvaluateStep(delivered[name], apply);
              && r == ev.result
              && packs == delivered[name := ev.pkg]
              && onImport == Emptied(old(onImport), name)
              && readies == (if ev.fires then Emptied(old(readies), name) else old(readies))
              && trace == old(trace) + Calls(old(onImport), name, script)
                          + (if ev.fires then Calls(old(readies), name, ev.pkg.obj) else [])
              && currentEval == (if r.Err? then Some(name) else old(currentEval))
      ensures files == old(files) && importSet == old(importSet) && errors == old(errors)
    {
      ghost var cur := currentEval;
      packs := Deliver(packs, name, script, External);
      ghost var delivered := packs;
      ghost var ev := EvaluateStep(delivered[name], apply);
      onImport := FireListeners(onImport, name);
      ghost var fired := Snap();
      FiredEvolved(old(Snap()), fired, name, script);
      assert currentEval == cur;
      r := Evaluate(name);
      assert r == ev.result && packs == delivered[name := ev.pkg];
      assert trace == fired.trace + (if ev.fires then Calls(old(readies), name, ev.pkg.obj) else []);
      EvolvedTrans(old(Snap()), fired, Snap());
    }

    /** `provideExternal`: like `provide` with the script as the obj and
        TYPE_EXT for a new record, but it never returns early: it always fires
        the import promises, evaluates and runs the scheduler. */
    method ProvideExternal(name: string, script: Value) returns (r: Result<()>)
      requires Valid()
      modifies this
      decreases |importSet|, 2
      ensures Valid() && Evolved(old(Snap()), Snap()) && name in packs
      ensures var ev := EvaluateStep(Deliver(old(packs), name, script, External)[name], apply);
              && old(trace) + Calls(old(onImport), name, script)
                 + (if ev.fires then Calls(old(readies), name, ev.pkg.obj) else []) <= trace
              && (ev.result.Err? ==> r == Err(ev.result.error))
      ensures name in old(onImport) ==> onImport[name] == []
    {
      var e := ReceiveExternal(name, script);
      ghost var received := Snap();
      if e.Err? {
        return Err(e.error);
      }
      r := TryImport();
      EvolvedTrans(old(Snap()), received, Snap());
      StaysEmpty(received, Snap(), name);
    }

    // -------------------------------------------------------------------
    // Requiring
    // -------------------------------------------------------------------

    /** `require`: with a listener, call it at once if the package has run,
        otherwise queue it in `_readies`; then evaluate a registered package,
        or, for a `>` name, only mark it to be evaluated on import. */
    method Require(name: string, onReady: Option<nat>) returns (r: Result<Value>)
      requires Valid()
      modifies this
      decreases if onReady.Some? then 2 else 0
      ensures Valid()
      ensures importSet == old(importSet) && files == old(files) && onImport == old(onImport)
      ensures errors == old(errors)
      ensures var n := Strip(name);
              n !in old(packs) ==>
                && r == Ok(Undef) && packs == old(packs) && trace == old(trace)
                && readies == (if onReady.Some? then Listen(old(readies), n, onReady.value) else old(readies))
      ensures var n := Strip(name);
              n in old(packs) && Deferred(name) &&
              (onReady.None? || Level(old(packs)[n].state) < Level(Ran)) ==>
                && r == Ok(Undef) && trace == old(trace)
                && packs == old(packs)[n := old(packs)[n].(evalOnImport := true)]
                && readies == (if onReady.Some? then Listen(old(readies), n, onReady.value) else old(readies))
      ensures var n := Strip(name);
              n in old(packs) && !Deferred(name) &&
              (onReady.None? || Level(old(packs)[n].state) < Level(Ran)) ==>
                var queued := if onReady.Some? then Listen(old(readies), n, onReady.value) else old(readies);
                var ev := EvaluateStep(old(packs)[n], apply);
                && r == ev.result
                && packs == old(packs)[n := ev.pkg]
                && readies == (if ev.fires then Emptied(queued, n) else queued)
                && trace == old(trace) + (if ev.fires then Calls(queued, n, ev.pkg.obj) else [])
      ensures var n := Strip(name);
              n in old(packs) && !Deferred(n) && onReady.Some? && old(packs)[n].state == Ran ==>
                var obj := old(packs)[n].obj;
                && r == (if Deferred(name) then Ok(Undef) else Ok(obj))
                && packs == (if Deferred(name) then old(packs)[n := old(packs)[n].(evalOnImport := true)] else old(packs))
                && readies == Emptied(old(readies), n)
                && trace == old(trace) + Calls(old(readies), n, obj) + [Call(onReady.value, obj)]
      ensures var n := Strip(name);
              n in old(packs) && Deferred(n) && onReady.Some? && old(packs)[n].state == Ran ==>
                var m := Strip(n);
                var marked := if m in old(packs) then old(packs)[m := old(packs)[m].(evalOnImport := true)] else old(packs);
                && r == Ok(Undef) && readies == old(readies)
                && packs == marked[n := old(packs)[n].(evalOnImport := true)]
                && trace == old(trace) + [Call(onReady.value, Undef)]
    {
      var defer := Deferred(name);
      var n := Strip(name);
      if onReady.Some? {
        ReadyListener(n, onReady.value);
      }
      if n in packs && !defer {
        r := Evaluate(n);
        return;
      } else if n in packs {
        packs := packs[n := packs[n].(evalOnImport := true)];
      }
      r := Ok(Undef);
    }

    /** The listener half of `require` on the name without `>`: a package
        that has run is required again and the listener called at once with
        what that returns; otherwise the listener is queued in `_readies`. */
    method ReadyListener(n: string, l: nat)
      requires Valid()
      modifies this
      decreases 1
      ensures Valid()
      ensures importSet == old(importSet) && files == old(files) && onImport == old(onImport)
      ensures errors == old(errors)
      ensures !(n in old(packs) && old(packs)[n].state == Ran) ==>
                && packs == old(packs) && trace == old(trace) && readies == Listen(old(readies), n, l)
      ensures n in old(packs) && old(packs)[n].state == Ran && !Deferred(n) ==>
                var obj := old(packs)[n].obj;
                && packs == old(packs) && readies == Emptied(old(readies), n)
                && trace == old(trace) + Calls(old(readies), n, obj) + [Call(l, obj)]
      ensures n in old(packs) && old(packs)[n].state == Ran && Deferred(n) ==>
                var m := Strip(n);
                && packs == (if m in old(packs) then old(packs)[m := old(packs)[m].(evalOnImport := true)] else old(packs))
                && readies == old(readies) && trace == old(trace) + [Call(l, Undef)]
    {
      ghost var kept := (importSet, files, onImport, errors);
      if n in packs && Level(packs[n].state) >= Level(Ran) {
        // a package in STATE_RAN evaluates to its obj and only fires its ready listeners
        assert EvaluateStep(packs[n], apply) == Evaluation(packs[n], Ok(packs[n].obj), true);
        var v := Require(n, None);
        assert !Deferred(n) ==> packs[n].state == Ran && Emptied(readies, n) == readies;
        trace := trace + [Call(l, v.value)];
      } else {
        readies := Listen(readies, n, l);
      }
      assert kept == (importSet, files, onImport, errors);
    }

    // -------------------------------------------------------------------
    // Importing
    // -------------------------------------------------------------------

    /** `import`: an imported package resolves at once with `true` and
        nothing changes; otherwise the resolver is queued under the name
        without `>`, the closure of the name AS GIVEN is added to the import
        set, and the scheduler runs. The promise is fulfilled by the first
        call of its resolver; a throw rejects it only if it came first. */
    method Import(name: string, resolver: nat) returns (r: ImportResult)
      requires Valid()
      modifies this
      ensures Valid()
      ensures IsImported(old(packs), name) ==> r == Fulfilled(Bool(true)) && unchanged(this)
      ensures !IsImported(old(packs), name) ==>
                && Strip(name) in onImport && old(trace) <= trace
                && (resolver in onImport[Strip(name)] || Heard(trace, |old(trace)|, resolver))
                && (r.Fulfilled? <==> Heard(trace, |old(trace)|, resolver))
                && (r.Fulfilled? ==> FirstCall(trace, |old(trace)|, resolver) == Some(r.v))
                && (r.Pending? ==> resolver in onImport[Strip(name)])
      ensures !IsImported(old(packs), name) && name !in old(importSet) && name !in old(packs) ==>
                r == Rejected(DependencyError(name)) && importSet == old(importSet) && packs == old(packs)
    {
      if IsImported(packs, name) {
        return Fulfilled(Bool(true));
      }
      var start := |trace|;
      var n := Strip(name);
      onImport := Listen(onImport, n, resolver);
      var e := AddToImportSet(name);
      var t := Done;
      if e.Ok? {
        ghost var closed := Snap();
        assert resolver in closed.onImport[n];
        t := TryImport();
        assert resolver in onImport[n] || Heard(trace, start, resolver);
      }
      // a throw that follows the resolver's call leaves the promise fulfilled
      var heard := FirstCall(trace, start, resolver);
      if heard.Some? {
        r := Fulfilled(heard.value);
      } else if e.Err? {
        r := Rejected(e.error);
      } else if t.Err? {
        r := Rejected(t.error);
      } else {
        r := Pending;
      }
    }

    /** `_addToImportSet`: depth-first closure of `pack` over its
        dependencies (`>` stripped) into the import set, skipping names
        already there or at least importing, and throwing `DependencyError`
        for an unregistered name. */
    method AddToImportSet(pack: string) returns (r: Result<()>)
      requires Valid()
      modifies this`importSet
      decreases |packs| - |importSet|
      ensures Valid()
      ensures old(importSet) <= importSet
      ensures pack in old(importSet) ==> r == Done && importSet == old(importSet)
      ensures pack !in old(importSet) && pack !in packs ==>
                r == Err(DependencyError(pack)) && importSet == old(importSet)
      ensures pack !in old(importSet) && pack in packs && Level(packs[pack].state) >= Level(Importing) ==>
                r == Done && importSet == old(importSet)
      ensures pack !in old(importSet) && pack in packs && Level(packs[pack].state) < Level(Importing) ==>
                |importSet| > |old(importSet)| && importSet[|old(importSet)|] == pack
      ensures forall k :: |old(importSet)| <= k < |importSet| ==>
                Level(packs[importSet[k]].state) < Level(Importing)
      ensures r.Ok? ==> Covered(packs, importSet, pack)
      ensures r.Ok? ==> forall k :: |old(importSet)| <= k < |importSet| ==>
                Closed(packs, importSet, importSet[k])
      ensures r.Err? ==> r.error.DependencyError? && r.error.name !in packs
      ensures |importSet| > |old(importSet)| ==> importSet[|old(importSet)|] == pack
      ensures Reached(packs, importSet, |old(importSet)|)
    {
      if pack in importSet {
        return Done;
      }
      if pack !in packs {
        return Err(DependencyError(pack));
      }
      if Level(packs[pack].state) >= Level(Importing) {
        return Done;
      }
      NoDupBound(packs, importSet);
      importSet := importSet + [pack];
      r := AddDependenciesOf(pack, |old(importSet)|);
      PrefixTrans(old(importSet), old(importSet) + [pack], importSet);
    }

    /** The loop of `_addToImportSet` over the dependencies of `pack`, just
        pushed at position `start`: each dependency, `>` stripped, is added
        in turn, and the first throw ends the loop. */
    method AddDependenciesOf(pack: string, ghost start: nat) returns (r: Result<()>)
      requires Valid() && pack in packs && Level(packs[pack].state) < Level(Importing)
      requires |importSet| == start + 1 && importSet[start] == pack
      modifies this`importSet
      decreases |packs| - |importSet| + 1, 0
      ensures Valid()
      ensures old(importSet) <= importSet
      ensures forall k :: start <= k < |importSet| ==> Level(packs[importSet[k]].state) < Level(Importing)
      ensures r.Ok? ==> forall k :: start <= k < |importSet| ==> Closed(packs, importSet, importSet[k])
      ensures r.Err? ==> r.error.DependencyError? && r.error.name !in packs
      ensures Reached(packs, importSet, start)
    {
      var p := packs[pack];
      var i := 0;
      while i < |p.deps|
        invariant 0 <= i <= |p.deps|
        invariant Valid()
        invariant old(importSet) <= importSet
        invariant forall k :: start <= k < |importSet| ==> Level(packs[importSet[k]].state) < Level(Importing)
        invariant forall k :: 0 <= k < i ==> Covered(packs, importSet, Strip(p.deps[k]))
        invariant forall k :: start < k < |importSet| ==> Closed(packs, importSet, importSet[k])
        invariant Reached(packs, importSet, start)
      {
        ghost var before := importSet;
        NoDupBound(packs, importSet);
        r := AddToImportSet(Strip(p.deps[i]));
        PrefixTrans(old(importSet), before, importSet);
        ExpandStep(packs, before, importSet, start, p.deps, i, r.Ok?);
        if r.Err? {
          return;
        }
        i := i + 1;
      }
      assert importSet[start] == pack;
      assert Closed(packs, importSet, pack);
      r := Done;
    }

    /** The dependency test of `_tryImport` for one entry: false at the first
        hard dependency that is unregistered, or below STATE_IMPORTED in
        another file. */
    method DepsReady(name: string) returns (okay: bool)
      requires name in packs
      ensures okay == Ready(packs, packs[name])
    {
      var now := packs[name];
      var d := 0;
      while d < |now.deps|
        invariant 0 <= d <= |now.deps|
        invariant forall k :: 0 <= k < d ==> Satisfied(packs, now, now.deps[k])
      {
        var dep := now.deps[d];
        if Deferred(dep) {
          // never blocks
        } else if dep !in packs {
          return false;
        } else if Level(packs[dep].state) < Level(Imported) {
          if packs[dep].file != now.file {
            return false;
          }
        }
        d := d + 1;
      }
      return true;
    }

    /** The scan of `_tryImport`: walk the import set by index, splicing out
        every ready entry (and stepping the index back), collecting the ready
        entries still at most seen into the batch. */
    method ScanBatch() returns (batch: seq<string>)
      requires Valid()
      modifies this`importSet
      ensures Valid()
      ensures importSet == Blocked(packs, old(importSet))
      ensures batch == Batch(packs, old(importSet))
    {
      ghost var orig := importSet;
      ghost var j := 0;
      ghost var kept: seq<string> := [];
      var pending := importSet;
      batch := [];
      var i: int := 0;
      while i < |pending|
        invariant AllRegistered(packs, orig)
        invariant 0 <= j <= |orig|
        invariant AllRegistered(packs, orig[..j])
        invariant kept == Blocked(packs, orig[..j]) && batch == Batch(packs, orig[..j])
        invariant pending == kept + orig[j..] && i == |kept|
        decreases |orig| - j
      {
        ScanStep(packs, orig, j);
        ScanAdvance(packs, orig, j, pending);
        var name := pending[i];
        var okay := DepsReady(name);
        BatchStep(packs, orig, j, name, okay);
        batch := batch + (if okay && Level(packs[name].state) <= Level(Seen) then [name] else []);
        if okay {
          pending := pending[..i] + pending[i + 1..];
          i := i - 1;
        }
        kept := Blocked(packs, orig[..j + 1]);
        i := i + 1;
        j := j + 1;
      }
      importSet := pending;
      assert orig[..j] == orig;
      BlockedNoDup(packs, orig);
    }

    /** `_tryImport`: on a non-empty import set, scan it, then hand each batch
        entry, last first, to `_doImportFile`. */
    method TryImport() returns (r: Result<()>)
      requires Valid()
      modifies this
      decreases |importSet|, 1
      ensures Valid() && Evolved(old(Snap()), Snap())
      ensures old(importSet) == [] ==> r == Done && unchanged(this)
      ensures forall x :: x in importSet ==> x in Blocked(old(packs), old(importSet))

    {
      if |importSet| == 0 {
        return Done;
      }
      ghost var n := |importSet|;
      var batch := ScanBatch();
      ScanSplit(packs, old(importSet), "");
      forall x | x in batch || x in importSet
        ensures x in packs && (x in importSet ==> x in old(importSet))
      {
        ScanSplit(packs, old(importSet), x);
      }
      if |batch| > 0 {
        BatchShrinks(packs, old(importSet));
      }
      ghost var scanned := Snap();
      assert Evolved(old(Snap()), scanned);
      var i := |batch| - 1;
      while i >= 0
        invariant -1 <= i < |batch|
        invariant Valid() && Evolved(scanned, Snap())
        invariant AllRegistered(packs, batch)
        invariant |batch| > 0 ==> |importSet| < n
      {
        var p := batch[i];
        ghost var mid := Snap();
        r := DoImportFile(packs[p].file, packs[p].kind, p);
        EvolvedTrans(scanned, mid, Snap());
        if r.Err? {
          EvolvedTrans(old(Snap()), scanned, Snap());
          return;
        }
        i := i - 1;
      }
      EvolvedTrans(old(Snap()), scanned, Snap());
      r := Done;
    }

    /** `_doImportFile`, the state changes around a fetch: a seen code or
        external package is provided directly; otherwise a code or external
        file group is fetched at most once (the fetched flag), a resource's
        providers are marked importing, and an unknown type throws. Reading
        `_files[file]` of an unknown file throws a TypeError (for code, after
        an empty entry was created). */
    method DoImportFile(file: string, kind: Kind, pack: string) returns (r: Result<()>)
      requires Valid() && pack in packs
      modifies this
      decreases |importSet|, 4
      ensures Valid() && Evolved(old(Snap()), Snap())
      ensures (kind == Code || kind == External) && old(packs)[pack].state != Seen ==>
                && importSet == old(importSet) && trace == old(trace)
                && readies == old(readies) && onImport == old(onImport)
                && (file !in old(files) ==>
                      && r == Err(TypeError) && packs == old(packs)
                      && files == (if kind == Code then old(files)[file := FileEntry([], [], false)] else old(files)))
                && (file in old(files) ==>
                      r == Done && Reg(packs, files) == Fetch(Reg(old(packs), old(files)), file))
      ensures kind == Resource ==>
                && importSet == old(importSet) && trace == old(trace) && files == old(files)
                && (file !in old(files) ==> r == Err(TypeError) && packs == old(packs))
                && (file in old(files) ==> r == Done && packs == MarkImporting(old(packs), old(files)[file].provided))
      ensures kind == Invalid ==> r == Err(ImportError(file)) && unchanged(this)
      ensures kind == Code && old(packs)[pack].state == Seen && old(packs)[pack].obj == Undef ==>
                && r == Err(TypeError) && files == old(files) && trace == old(trace)
                && packs == old(packs)[pack := old(packs)[pack].(state := Importing)]
      ensures kind == Code && old(packs)[pack].state == Seen && old(packs)[pack].obj != Undef ==>
                var stored := old(packs)[pack].obj;
                var options := Index(stored, 1).value;
                var obj := Pair(Index(stored, 0).value, if Truthy(options) then options else Blank);
                && old(trace) + Calls(old(onImport), pack, obj) <= trace
                && (pack in old(onImport) ==> onImport[pack] == [])
      ensures kind == External && old(packs)[pack].state == Seen ==>
                var ev := EvaluateStep(old(packs)[pack].(state := Imported, obj := Undef), apply);
                && old(trace) + Calls(old(onImport), pack, Undef)
                   + (if ev.fires then Calls(old(readies), pack, ev.pkg.obj) else []) <= trace
                && (pack in old(onImport) ==> onImport[pack] == [])
    {
      match kind
      case Code =>
        r := ImportCode(file, pack);
      case Resource =>
        if file !in files {
          return Err(TypeError);
        }
        MarkGroup(files[file].provided);
        r := Done;
      case External =>
        r := ImportExternal(file, pack);
      case Invalid =>
        r := Err(ImportError(file));
    }

    /** The TYPE_PACK arm of `_doImportFile`. */
    method ImportCode(file: string, pack: string) returns (r: Result<()>)
      requires Valid() && pack in packs
      modifies this
      decreases |importSet|, 3
      ensures Valid() && Evolved(old(Snap()), Snap())
      ensures old(packs)[pack].state != Seen ==>
                && importSet == old(importSet) && trace == old(trace)
                && readies == old(readies) && onImport == old(onImport)
                && (file !in old(files) ==>
                      r == Err(TypeError) && packs == old(packs) && files == old(files)[file := FileEntry([], [], false)])
                && (file in old(files) ==>
                      r == Done && Reg(packs, files) == Fetch(Reg(old(packs), old(files)), file))
      ensures old(packs)[pack].state == Seen && old(packs)[pack].obj == Undef ==>
                && r == Err(TypeError) && files == old(files) && trace == old(trace)
                && packs == old(packs)[pack := old(packs)[pack].(state := Importing)]
      ensures old(packs)[pack].state == Seen && old(packs)[pack].obj != Undef ==>
                var stored := old(packs)[pack].obj;
                var options := Index(stored, 1).value;
                var obj := Pair(Index(stored, 0).value, if Truthy(options) then options else Blank);
                && old(trace) + Calls(old(onImport), pack, obj) <= trace
                && (pack in old(onImport) ==> onImport[pack] == [])
    {
      var f := if file in files then Some(files[file]) else None;
      if packs[pack].state == Seen {
        packs := packs[pack := packs[pack].(state := Importing)];
        var obj := packs[pack].obj;
        var first :- Index(obj, 0);
        var second := Index(obj, 1).value;
        ghost var mid := Snap();
        QuietEvolved(old(Snap()), mid);
        ghost var given := Pair(first, if Truthy(second) then second else Blank);
        ghost var p := Deliver(packs, pack, given, Code)[pack];
        assert p.state == Imported;
        ghost var ev := EvaluateStep(p, apply);
        r := Provide(pack, first, second);
        PrefixOfPrefix(mid.trace + Calls(mid.onImport, pack, given),
                       if p.evalOnImport && ev.fires then Calls(mid.readies, pack, ev.pkg.obj) else [], trace);
        EvolvedTrans(old(Snap()), mid, Snap());
        return;
      }
      if file !in files {
        files := files[file := FileEntry([], [], false)];
      }
      if f.None? {
        QuietEvolved(old(Snap()), Snap());
        return Err(TypeError);
      }
      FetchGroup(file);
      QuietEvolved(old(Snap()), Snap());
      r := Done;
    }

    /** The TYPE_EXT arm of `_doImportFile`. */
    method ImportExternal(file: string, pack: string) returns (r: Result<()>)
      requires Valid() && pack in packs
      modifies this
      decreases |importSet|, 3
      ensures Valid() && Evolved(old(Snap()), Snap())
      ensures old(packs)[pack].state != Seen ==>
                && importSet == old(importSet) && trace == old(trace)
                && readies == old(readies) && onImport == old(onImport)
                && (file !in old(files) ==> r == Err(TypeError) && packs == old(packs) && files == old(files))
                && (file in old(files) ==>
                      r == Done && Reg(packs, files) == Fetch(Reg(old(packs), old(files)), file))
      ensures old(packs)[pack].state == Seen ==>
                var ev := EvaluateStep(old(packs)[pack].(state := Imported, obj := Undef), apply);
                && old(trace) + Calls(old(onImport), pack, Undef)
                   + (if ev.fires then Calls(old(readies), pack, ev.pkg.obj) else []) <= trace
                && (pack in old(onImport) ==> onImport[pack] == [])
    {
      if packs[pack].state == Seen {
        packs := packs[pack := packs[pack].(state := Importing)];
        ghost var mid := Snap();
        assert Deliver(packs, pack, Undef, External)[pack] == old(packs)[pack].(state := Imported, obj := Undef);
        r := ProvideExternal(pack, Undef);
        EvolvedTrans(old(Snap()), mid, Snap());
        return;
      }
      if file !in files {
        return Err(TypeError);
      }
      FetchGroup(file);
      QuietEvolved(old(Snap()), Snap());
      r := Done;
    }

    /** The fetch of a code or external file group in `_doImportFile`: unless
        its fetched flag is set, set the flag and mark the group importing
        (the script tag itself is not modelled). */
    method FetchGroup(file: string)
      requires Valid() && file in files
      modifies this`packs, this`files
      ensures Valid()
      ensures Reg(packs, files) == Fetch(Reg(old(packs), old(files)), file)
    {
      var f := files[file];
      if f.fetched {
        return;
      }
      files := files[file := f.(fetched := true)];
      MarkGroup(f.provided);
    }

    /** The loop of `_doImportFile` that sets every package of a file group
        to STATE_IMPORTING. */
    method MarkGroup(names: seq<string>)
      requires forall n :: n in names ==> n in packs
      modifies this`packs
      ensures packs == MarkImporting(old(packs), names)
    {
      var i := 0;
      while i < |names|
        invariant 0 <= i <= |names|
        invariant forall n :: n in names ==> n in packs
        invariant packs == MarkImporting(old(packs), names[..i])
      {
        assert names[..i + 1][..i] == names[..i];
        packs := packs[names[i] := packs[names[i]].(state := Importing)];
        i := i + 1;
      }
      assert names[..i] == names;
    }

    // -------------------------------------------------------------------
    // Cancellation, queries, errors
    // -------------------------------------------------------------------

    /** `abort`: forget the pending import set; nothing else changes. */
    method Abort()
      modifies this`importSet
      ensures importSet == []
    {
      importSet := [];
    }

    /** The global `error` listener: a truthy error is recorded and the
        import set is dropped; a falsy one is ignored. */
    method ReportError(error: Value)
      modifies this`errors, this`importSet
      ensures Truthy(error) ==> errors == old(errors) + [error] && importSet == []
      ensures !Truthy(error) ==> errors == old(errors) && importSet == old(importSet)
    {
      if !Truthy(error) {
        return;
      }
      errors := errors + [error];
      Abort();
    }

    /** `getBytes`: the sum of the sizes of the import-set entries, added up
        from the last entry to the first. */
    method GetBytes() returns (sum: int)
      requires AllRegistered(packs, importSet)
      ensures sum == Bytes(packs, importSet)
    {
      sum := 0;
      var i := |importSet| - 1;
      while i >= 0
        invariant -1 <= i < |importSet|
        invariant sum == Bytes(packs, importSet[i + 1..])
      {
        assert importSet[i..][1..] == importSet[i + 1..];
        sum := sum + packs[importSet[i]].size;
        i := i - 1;
      }
    }

    // -------------------------------------------------------------------
    // Registration
    // -------------------------------------------------------------------

    /** `addDependency`: the overwrite loop over the provided names, last
        first, then the file entry with its fetched flag cleared. */
    method AddDependency(e: Entry)
      requires Valid()
      modifies this`packs, this`files
      ensures Valid()
      ensures Reg(packs, files) == AddDep(Reg(old(packs), old(files)), e)
    {
      var i := |e.provided| - 1;
      while i >= 0
        invariant -1 <= i < |e.provided|
        invariant files == old(files)
        invariant packs == RegisterFrom(old(packs), files, e, i + 1)
      {
        var p := e.provided[i];
        if p !in packs || (Level(packs[p].state) <= Level(Unseen) &&
             (packs[p].file !in files || |e.provided| > |files[packs[p].file].provided|)) {
          packs := packs[p := Declared(e)];
        }
        i := i - 1;
      }
      AddDepGrows(Reg(old(packs), old(files)), e);
      files := files[e.file := FileEntry(e.provided, e.required, false)];
      assert forall x :: x in importSet ==> x in old(packs);
    }

    /** `alsoDepends`: append to a registered package's dependencies; an
        unregistered name throws. */
    method AlsoDepends(pack: string, extraDeps: seq<string>) returns (r: Result<()>)
      requires Valid()
      modifies this`packs
      ensures Valid()
      ensures pack !in old(packs) ==> r == Err(TypeError) && packs == old(packs)
      ensures pack in old(packs) ==>
                r == Done && packs == old(packs)[pack := old(packs)[pack].(deps := old(packs)[pack].deps + extraDeps)]
    {
      if pack !in packs {
        return Err(TypeError);
      }
      packs := packs[pack := packs[pack].(deps := packs[pack].deps + extraDeps)];
      r := Done;
    }

    /** One pass of the `loadDepsObject` loop: a relative file path is
        prefixed with `absolutePath` in the row, and the row is registered. */
    method LoadRow(row: Entry, absolutePath: string) returns (now: Entry)
      requires Valid()
      modifies this`packs, this`files
      ensures Valid()
      ensures now == Manifests.ResolveRow(row, absolutePath)
      ensures Reg(packs, files) == AddDep(Reg(old(packs), old(files)), now)
    {
      now := row;
      if !Manifests.IsAbsolute(row.file) {
        now := row.(file := absolutePath + row.file);
      }
      AddDependency(now);
    }

    /** `loadDepsObject` on manifest data that is already parsed: upgrade a
        legacy array, prefix every relative file path with `absolutePath`
        (in place), register the rows last first, and hand back the data and
        the nested manifests still to be loaded. */
    method LoadDepsObject(data: Manifests.Manifest, absolutePath: string)
      returns (loaded: Manifests.Manifest, nested: seq<string>)
      requires Valid()
      modifies this`packs, this`files
      ensures Valid()
      ensures loaded == Manifests.Resolved(Manifests.Upgrade(data), absolutePath)
      ensures Reg(packs, files) == Manifests.RegisterRows(Reg(old(packs), old(files)), loaded.packages)
      ensures nested == (if loaded.dependencies.Some? then loaded.dependencies.value else [])
    {
      var m := Manifests.Upgrade(data);
      var deps := m.packages;
      var i := |deps| - 1;
      while i >= 0
        invariant -1 <= i < |deps| == |m.packages|
        invariant Valid()
        invariant forall k :: 0 <= k <= i ==> deps[k] == m.packages[k]
        invariant forall k :: i < k < |deps| ==> deps[k] == Manifests.ResolveRow(m.packages[k], absolutePath)
        invariant Reg(packs, files) == Manifests.RegisterRows(Reg(old(packs), old(files)), deps[i + 1..])
      {
        ghost var tail := deps[i + 1..];
        // `now` aliases the row, so it sees the rewritten path
        var now := LoadRow(deps[i], absolutePath);
        deps := deps[i := now];
        assert deps[i + 1..] == tail;
        assert deps[i..][1..] == tail;
        i := i - 1;
      }
      Manifests.ResolveAllEach(m.packages, absolutePath, deps);
      assert deps[0..] == deps;
      loaded := m.(packages := deps);
      nested := if loaded.dependencies.Some? then loaded.dependencies.value else [];
    }
  }
}
