/** The records of the package registry (`_packs`, `_files`) and the pure
    state changes that registration, provision, evaluation and fetching make
    to them, with the lemmas that say what each change does. */
module Registry {
  import opened Values

  /** The package states STATE_NONE … STATE_RAN. */
  datatype State = Unseen | Seen | Importing | Imported | Running | Ran

  /** The numeric value of each state, which the source compares with `<`, `<=`, `>=`. */
  function Level(s: State): (n: nat)
    ensures n <= 5
  {
    match s
    case Unseen => 0
    case Seen => 1
    case Importing => 2
    case Imported => 3
    case Running => 4
    case Ran => 5
  }

  /** TYPE_PACK, TYPE_RES, TYPE_EXT, and any other value a manifest may carry
      in that position (a missing fifth element is `undefined`). */
  datatype Kind = Code | Resource | External | Invalid

  /** One entry of `_packs`. A missing `evalOnImport` property reads as false. */
  datatype Package = Package(
    file: string,
    state: State,
    deps: seq<string>,
    size: int,
    obj: Value,
    kind: Kind,
    evalOnImport: bool)

  /** One entry of `_files`: `[provided, required, fetchedFlag]`. */
  datatype FileEntry = FileEntry(provided: seq<string>, required: seq<string>, fetched: bool)

  type Packs = map<string, Package>
  type Files = map<string, FileEntry>

  /** The file of a package that was provided without being registered. */
  const InlineFile: string := "about:blank"

  /** A name beginning with `>` is a deferred (cycle-breaking) dependency. */
  predicate Deferred(name: string) {
    |name| > 0 && name[0] == '>'
  }

  /** The name with a leading `>` removed. */
  function Strip(name: string): (r: string)
    ensures Deferred(name) ==> name == ">" + r
    ensures !Deferred(name) ==> r == name
  {
    if Deferred(name) then name[1..] else name
  }

  /** `isImported`: registered and at least STATE_IMPORTED. */
  predicate IsImported(packs: Packs, name: string)
    ensures IsImported(packs, name) <==>
              name in packs && packs[name].state in {Imported, Running, Ran}
  {
    name in packs && Level(packs[name].state) >= Level(Imported)
  }

  // ---------------------------------------------------------------------
  // Registration (addDependency)
  // ---------------------------------------------------------------------

  /** The arguments of one `addDependency` call, also one manifest row. */
  datatype Entry = Entry(file: string, provided: seq<string>, required: seq<string>, size: int, kind: Kind)

  /** The record `addDependency` writes for each name it (re)registers. */
  function Declared(e: Entry): Package {
    Package(e.file, Unseen, e.required, e.size, Undef, e.kind, false)
  }

  /** The overwrite rule: the name is unregistered, or it is still at
      STATE_NONE and its old file is unknown or provides fewer packages. */
  predicate Overwrites(packs: Packs, files: Files, p: string, provided: seq<string>) {
    || p !in packs
    || (&& Level(packs[p].state) <= Level(Unseen)
        && (|| packs[p].file !in files
            || |provided| > |files[packs[p].file].provided|))
  }

  /** `_packs` after the loop of `addDependency` has handled the indices
      |provided|-1 down to k (it runs from the last provided name to the first). */
  function RegisterFrom(packs: Packs, files: Files, e: Entry, k: nat): Packs
    requires k <= |e.provided|
    decreases |e.provided| - k
  {
    if k == |e.provided| then packs
    else
      var before := RegisterFrom(packs, files, e, k + 1);
      var p := e.provided[k];
      if Overwrites(before, files, p, e.provided) then before[p := Declared(e)] else before
  }

  /** Registry pair (`_packs`, `_files`). */
  datatype Reg = Reg(packs: Packs, files: Files)

  /** The whole effect of `addDependency`: the overwrite loop, then
      `_files[file] = [provided, required, false]`. */
  function AddDep(r: Reg, e: Entry): Reg {
    Reg(RegisterFrom(r.packs, r.files, e, 0), r.files[e.file := FileEntry(e.provided, e.required, false)])
  }

  /** After the loop has handled indices k.., a provided name holds the new
      record exactly when the overwrite rule held for it BEFORE the call
      (the rule gives the same answer however often the name is listed), and
      every other name is untouched. */
  lemma {:induction false} RegisterFromAt(packs: Packs, files: Files, e: Entry, k: nat, p: string)
    requires k <= |e.provided|
    ensures var r := RegisterFrom(packs, files, e, k);
            && (p in e.provided[k..] ==>
                  p in r && r[p] == if Overwrites(packs, files, p, e.provided) then Declared(e) else packs[p])
            && (p !in e.provided[k..] ==> (p in r <==> p in packs) && (p in packs ==> r[p] == packs[p]))
    decreases |e.provided| - k
  {
    if k < |e.provided| {
      RegisterFromAt(packs, files, e, k + 1, p);
      assert e.provided[k..] == [e.provided[k]] + e.provided[k + 1..];
    }
  }

  /** The registration rule for one `addDependency` call: every provided name
      ends up registered; it gets the new record iff the overwrite rule held;
      every other name and every other file is untouched; the file's entry is
      replaced and its fetched flag cleared. */
  lemma AddDepEffect(r: Reg, e: Entry, p: string)
    ensures var r' := AddDep(r, e);
            && (p in e.provided ==>
                  p in r'.packs && r'.packs[p] == if Overwrites(r.packs, r.files, p, e.provided) then Declared(e) else r.packs[p])
            && (p !in e.provided ==> (p in r'.packs <==> p in r.packs) && (p in r.packs ==> r'.packs[p] == r.packs[p]))
            && r'.files[e.file] == FileEntry(e.provided, e.required, false)
            && (forall f :: f != e.file ==> (f in r'.files <==> f in r.files) && (f in r.files ==> r'.files[f] == r.files[f]))
  {
    assert e.provided[0..] == e.provided;
    RegisterFromAt(r.packs, r.files, e, 0, p);
  }

  /** Registration never clobbers a package that has left STATE_NONE: a later
      manifest entry for a name that is seen, importing or evaluated is ignored. */
  lemma AddDepKeepsStarted(r: Reg, e: Entry, p: string)
    requires p in r.packs && r.packs[p].state != Unseen
    ensures p in AddDep(r, e).packs && AddDep(r, e).packs[p] == r.packs[p]
  {
    AddDepEffect(r, e, p);
  }

  /** Registration only adds names; it never removes one. */
  lemma AddDepGrows(r: Reg, e: Entry)
    ensures r.packs.Keys + (set p | p in e.provided) == AddDep(r, e).packs.Keys
    ensures r.files.Keys + {e.file} == AddDep(r, e).files.Keys
  {
    forall p | p in AddDep(r, e).packs.Keys
      ensures p in r.packs.Keys + (set p | p in e.provided)
    {
      AddDepEffect(r, e, p);
    }
    forall p | p in r.packs.Keys + (set p | p in e.provided)
      ensures p in AddDep(r, e).packs.Keys
    {
      AddDepEffect(r, e, p);
    }
  }

  // ---------------------------------------------------------------------
  // Provision (provide, provideExternal, provideResource)
  // ---------------------------------------------------------------------

  /** The record update of `provide` (obj = `[pack, options]`, new records of
      TYPE_PACK) and of `provideExternal` (obj = the script, TYPE_EXT): a
      registered package moves to STATE_IMPORTED if it was importing and to
      STATE_SEEN otherwise; an unregistered name gets an inline record. */
  function Deliver(packs: Packs, name: string, obj: Value, kind: Kind): (r: Packs)
    ensures r.Keys == packs.Keys + {name} && r[name].obj == obj
  {
    if name in packs then
      packs[name := packs[name].(obj := obj, state := if packs[name].state == Importing then Imported else Seen)]
    else
      packs[name := Package(InlineFile, Seen, [], 0, obj, kind, false)]
  }

  /** What provision does to the one record it touches, as an if-and-only-if:
      STATE_IMPORTED exactly for a registered package that was importing, and
      STATE_SEEN in every other case; file, deps, size and type survive for a
      registered name; nothing else changes. */
  lemma DeliverEffect(packs: Packs, name: string, obj: Value, kind: Kind, other: string)
    ensures var r := Deliver(packs, name, obj, kind);
            && name in r && r[name].obj == obj
            && (r[name].state == Imported <==> name in packs && packs[name].state == Importing)
            && (r[name].state == Seen <==> !(name in packs && packs[name].state == Importing))
            && (name in packs ==> r[name] == packs[name].(obj := obj, state := r[name].state))
            && (name !in packs ==> r[name] == Package(InlineFile, Seen, [], 0, obj, kind, false))
            && (other != name ==> (other in r <==> other in packs) && (other in packs ==> r[other] == packs[other]))
  {
  }

  /** Provision does not keep the state monotone: providing an evaluated
      package a second time puts it back to STATE_SEEN. */
  lemma DeliverRegresses(p: Package, obj: Value)
    requires p.state == Ran
    ensures var r := Deliver(map["pkg" := p], "pkg", obj, Code);
            r["pkg"].state == Seen && Level(r["pkg"].state) < Level(p.state)
  {
  }

  /** Providing twice does not equal providing once: an importing package
      becomes imported, and then seen. */
  lemma DeliverTwice(packs: Packs, name: string, obj: Value, kind: Kind)
    requires name in packs && packs[name].state == Importing
    ensures Deliver(packs, name, obj, kind)[name].state == Imported
    ensures Deliver(Deliver(packs, name, obj, kind), name, obj, kind)[name].state == Seen
  {
  }

  /** The record update of `provideResource`: straight to STATE_RAN. */
  function LoadResource(packs: Packs, name: string, data: Value): (r: Packs)
    ensures r.Keys == packs.Keys + {name} && r[name].state == Ran && r[name].obj == data
  {
    if name in packs then packs[name := packs[name].(obj := data, state := Ran)]
    else packs[name := Package(InlineFile, Ran, [], 0, data, Resource, false)]
  }

  /** A provided resource is evaluated at once and carries the data. */
  lemma LoadResourceEffect(packs: Packs, name: string, data: Value, other: string)
    ensures var r := LoadResource(packs, name, data);
            && name in r && r[name].state == Ran && r[name].obj == data
            && IsImported(r, name)
            && (name in packs ==> r[name].kind == packs[name].kind && r[name].file == packs[name].file)
            && (name !in packs ==> r[name].kind == Resource && r[name].file == InlineFile)
            && (other != name ==> (other in r <==> other in packs) && (other in packs ==> r[other] == packs[other]))
  {
  }

  // ---------------------------------------------------------------------
  // Evaluation (evaluate)
  // ---------------------------------------------------------------------

  /** What `evaluate` does to one record: the new record, what it returns or
      throws, and whether it fires the `_readies` listeners. */
  datatype Evaluation = Evaluation(pkg: Package, result: Result<Value>, fires: bool)

  /** A value the `in` operator accepts on its right: an object, not a primitive. */
  predicate IsObject(v: Value) {
    v.Blank? || v.Obj? || v.Thunk? || v.Pair?
  }

  /** The sealing step throws: a truthy result with primitive options makes
      `"noSeal" in options` a TypeError. */
  predicate SealThrows(result: Value, options: Value) {
    Truthy(result) && !IsObject(options)
  }

  /** STATE_RUNNING: return `undefined`, fire nothing. An imported TYPE_PACK
      package whose obj is `[thunk, options]`: run the thunk and keep its
      result as obj; then, unless sealing throws (which leaves it in
      STATE_RUNNING), end in STATE_RAN and fire. An imported TYPE_PACK
      package whose obj is anything else: the call `obj[0](self)` throws
      after the state was set to STATE_RUNNING. Every other case: return obj
      unchanged, fire. */
  function EvaluateStep(p: Package, apply: nat -> Value): (ev: Evaluation)
    ensures ev.pkg.file == p.file && ev.pkg.deps == p.deps && ev.pkg.size == p.size
    ensures ev.pkg.kind == p.kind && ev.pkg.evalOnImport == p.evalOnImport
    ensures ev.pkg.state in {p.state, Running, Ran}
  {
    if p.state == Running then Evaluation(p, Ok(Undef), false)
    else if p.state == Imported && p.kind == Code then
      if p.obj.Pair? && p.obj.first.Thunk? then
        var v := apply(p.obj.first.id);
        if SealThrows(v, p.obj.second) then
          Evaluation(p.(state := Running, obj := v), Err(TypeError), false)
        else
          Evaluation(p.(state := Ran, obj := v), Ok(v), true)
      else
        Evaluation(p.(state := Running), Err(TypeError), false)
    else Evaluation(p, Ok(p.obj), true)
  }

  /** The re-entrancy guard: a running package is left alone and nothing fires. */
  lemma EvaluateRunningGuard(p: Package, apply: nat -> Value)
    requires p.state == Running
    ensures EvaluateStep(p, apply) == Evaluation(p, Ok(Undef), false)
  {
  }

  /** An imported code package whose sealing does not throw passes to
      STATE_RAN with the thunk's result as its obj and as the returned value;
      nothing else in the record changes. */
  lemma EvaluateRunsThunk(p: Package, apply: nat -> Value, t: nat, options: Value)
    requires p.state == Imported && p.kind == Code && p.obj == Pair(Thunk(t), options)
    requires !SealThrows(apply(t), options)
    ensures var ev := EvaluateStep(p, apply);
            && ev.pkg.state == Ran && ev.pkg.obj == apply(t) && ev.result == Ok(apply(t)) && ev.fires
            && ev.pkg.(state := p.state, obj := p.obj) == p
  {
  }

  /** Every path but the guard fires the listeners, and every path that does
      not throw returns the record's final obj (or `undefined` while running). */
  lemma EvaluateFires(p: Package, apply: nat -> Value)
    ensures var ev := EvaluateStep(p, apply);
            && (ev.fires <==> ev.result.Ok? && p.state != Running)
            && (ev.fires ==> ev.result == Ok(ev.pkg.obj))
            && (ev.result.Err? <==>
                  && p.state == Imported && p.kind == Code
                  && (p.obj.Pair? && p.obj.first.Thunk? ==> SealThrows(apply(p.obj.first.id), p.obj.second)))
  {
  }

  /** Evaluation happens at most once: a second evaluation leaves the record
      as the first one left it and, if the first succeeded, returns the same value. */
  lemma EvaluateIdempotent(p: Package, apply: nat -> Value)
    ensures var ev := EvaluateStep(p, apply);
            var ev2 := EvaluateStep(ev.pkg, apply);
            && ev2.pkg == ev.pkg
            && (ev.result.Ok? ==> ev2.result == ev.result)
  {
  }

  // ---------------------------------------------------------------------
  // Fetching a file group (_doImportFile)
  // ---------------------------------------------------------------------

  /** Every listed package set to STATE_IMPORTING, in list order (the loop of
      `_doImportFile` over `_files[file][0]`). */
  function MarkImporting(packs: Packs, names: seq<string>): (r: Packs)
    requires forall n :: n in names ==> n in packs
    ensures r.Keys == packs.Keys
  {
    if names == [] then packs
    else
      var m := MarkImporting(packs, names[..|names| - 1]);
      var last := names[|names| - 1];
      m[last := m[last].(state := Importing)]
  }

  /** Exactly the listed packages become STATE_IMPORTING; nothing else in any
      record changes. */
  lemma {:induction false} MarkImportingAt(packs: Packs, names: seq<string>, n: string)
    requires forall x :: x in names ==> x in packs
    ensures var r := MarkImporting(packs, names);
            && (n in packs <==> n in r)
            && (n in names ==> r[n] == packs[n].(state := Importing))
            && (n !in names && n in packs ==> r[n] == packs[n])
  {
    if names != [] {
      var init := names[..|names| - 1];
      assert forall x :: x in init ==> x in names;
      MarkImportingAt(packs, init, n);
      assert names == init + [names[|names| - 1]];
    }
  }

  /** The fetch guard of a TYPE_PACK or TYPE_EXT group: if the fetched flag is
      set nothing happens; otherwise the flag is set and every package the
      file provides becomes importing. */
  function Fetch(r: Reg, file: string): (r': Reg)
    requires file in r.files
    requires forall n :: n in r.files[file].provided ==> n in r.packs
    ensures r'.packs.Keys == r.packs.Keys && r'.files.Keys == r.files.Keys
    ensures r'.files[file].fetched
  {
    var f := r.files[file];
    if f.fetched then r
    else Reg(MarkImporting(r.packs, f.provided), r.files[file := f.(fetched := true)])
  }

  /** A file group is fetched at most once: fetching again changes nothing. */
  lemma FetchAtMostOnce(r: Reg, file: string)
    requires file in r.files
    requires forall n :: n in r.files[file].provided ==> n in r.packs
    ensures var r1 := Fetch(r, file);
            && file in r1.files && r1.files[file].fetched
            && (forall n :: n in r1.files[file].provided ==> n in r1.packs)
            && Fetch(r1, file) == r1
  {
  }

  /** After a first fetch the whole group is importing together. */
  lemma FetchMarksGroup(r: Reg, file: string, n: string)
    requires file in r.files && !r.files[file].fetched
    requires forall x :: x in r.files[file].provided ==> x in r.packs
    requires n in r.files[file].provided
    ensures Fetch(r, file).packs[n].state == Importing
    ensures Fetch(r, file).packs[n].file == r.packs[n].file
  {
    MarkImportingAt(r.packs, r.files[file].provided, n);
  }
}
