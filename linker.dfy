/** The shell's linker: the `ffi` object is built from the ten stub tables,
    and the modules named on the command line are then loaded into it. Two
    namespaces live in `ffi`: the `env` table, which only the stub tables
    fill, and the top-level slots, which the exports of the extra modules
    fill. */
module Linker {
  import opened Runtime

  /** A stub table's own properties. */
  type Library = map<Name, Value>

  /** The ten stub tables of the shell. */
  datatype StubTable =
    | MuslHackTable | BuiltinsTable | CTypeTable | MathTable | RuntimeTable
    | StdioTable | StdlibTable | StringTable | UnixTable | SyscallTable

  /** The list the `ffi` builder walks: `musl_hack` first, `syscall` last. */
  const LibraryOrder: seq<StubTable> :=
    [MuslHackTable, BuiltinsTable, CTypeTable, MathTable, RuntimeTable,
     StdioTable, StdlibTable, StringTable, UnixTable, SyscallTable]

  /** The tables' contents in list order. */
  function Libraries(tables: StubTable -> Library): seq<Library>
  {
    seq(|LibraryOrder|, i requires 0 <= i < |LibraryOrder| => tables(LibraryOrder[i]))
  }

  /** `lib` has an own property `f` that is a function. */
  predicate DefinesFunction(lib: Library, f: Name)
  {
    f in lib && lib[f].Function?
  }

  /** The function-valued own properties of one table. */
  function FunctionsOf(lib: Library): (fs: map<Name, Value>)
    ensures forall f :: f in fs <==> DefinesFunction(lib, f)
    ensures forall f :: f in fs ==> f in lib && fs[f] == lib[f]
  {
    map f | f in lib && lib[f].Function? :: lib[f]
  }

  /** `env` after copying the tables in order, each overwriting the
      names it shares with the tables before it. */
  function Flatten(libs: seq<Library>): (env: map<Name, Value>)
    ensures forall f :: f in env ==> env[f].Function?
  {
    if libs == [] then map[]
    else Flatten(libs[..|libs| - 1]) + FunctionsOf(libs[|libs| - 1])
  }

  /** A name is in `env` exactly when some table defines it as a function:
      constants such as `NULL` or `EOF` never enter it. */
  lemma {:induction false} EnvDomain(libs: seq<Library>, f: Name)
    ensures f in Flatten(libs) <==> exists i :: 0 <= i < |libs| && DefinesFunction(libs[i], f)
    decreases |libs|
  {
    if libs != [] {
      var init := libs[..|libs| - 1];
      EnvDomain(init, f);
      if f in Flatten(init) {
        var i :| 0 <= i < |init| && DefinesFunction(init[i], f);
        assert libs[i] == init[i];
      }
      if exists i :: 0 <= i < |libs| && DefinesFunction(libs[i], f) {
        var i :| 0 <= i < |libs| && DefinesFunction(libs[i], f);
        if i < |init| {
          assert DefinesFunction(init[i], f);
        }
      }
    }
  }

  /** `env[f]` is the function of the last table in the list that defines
      `f` as a function. */
  lemma {:induction false} LastDefinerWins(libs: seq<Library>, f: Name, i: nat)
    requires i < |libs| && DefinesFunction(libs[i], f)
    requires forall j :: i < j < |libs| ==> !DefinesFunction(libs[j], f)
    ensures f in Flatten(libs) && Flatten(libs)[f] == libs[i][f]
    decreases |libs|
  {
    var last := |libs| - 1;
    if i < last {
      var init := libs[..last];
      assert !DefinesFunction(libs[last], f);
      forall j | i < j < |init|
        ensures !DefinesFunction(init[j], f)
      {
        assert init[j] == libs[j];
      }
      LastDefinerWins(init, f, i);
    }
  }

  /** `stdlib` comes after `musl_hack`, `ctype`, `math` and the rest, and
      only `string`, `unix` and `syscall` follow it: a function it defines
      that those three do not is the one in `env`. So `env.abort` is
      `stdlib.abort`, not the stub of `musl_hack`, and `env.abs` is
      `stdlib.abs`, not `Math.abs`. */
  lemma StdlibShadowsEarlierTables(tables: StubTable -> Library, f: Name)
    requires DefinesFunction(tables(StdlibTable), f)
    requires !DefinesFunction(tables(StringTable), f)
    requires !DefinesFunction(tables(UnixTable), f)
    requires !DefinesFunction(tables(SyscallTable), f)
    ensures f in Flatten(Libraries(tables))
    ensures Flatten(Libraries(tables))[f] == tables(StdlibTable)[f]
  {
    var libs := Libraries(tables);
    assert libs[6] == tables(StdlibTable);
    assert libs[7] == tables(StringTable);
    assert libs[8] == tables(UnixTable);
    assert libs[9] == tables(SyscallTable);
    LastDefinerWins(libs, f, 6);
  }

  /** A top-level property of `ffi`: the `env` table of stub functions, or
      a value some loaded module exported under that name. */
  datatype Slot = EnvTable(table: map<Name, Value>) | Export(value: Value)

  type Ffi = map<Name, Slot>

  /** `{env: env}`: the `ffi` object before any module is loaded. */
  function InitialFfi(env: map<Name, Value>): Ffi
  {
    map["env" := EnvTable(env)]
  }

  /** The inner loop of the `ffi` builder: every own function property of
      one table is written into `env`. */
  method CopyFunctions(env: map<Name, Value>, lib: Library) returns (env': map<Name, Value>)
    ensures env' == env + FunctionsOf(lib)
  {
    env' := env;
    var keys := lib.Keys;
    while keys != {}
      invariant keys <= lib.Keys
      invariant env' == env + map f | f in lib.Keys - keys && lib[f].Function? :: lib[f]
      decreases keys
    {
      var f :| f in keys;
      if lib[f].Function? {
        env' := env'[f := lib[f]];
      }
      keys := keys - {f};
    }
  }

  /** The `ffi` builder: the tables are copied into `env` in list order. */
  method BuildFfi(tables: StubTable -> Library) returns (ffi: Ffi)
    ensures ffi == InitialFfi(Flatten(Libraries(tables)))
  {
    var libraries := Libraries(tables);
    var env: map<Name, Value> := map[];
    var l := 0;
    while l < |libraries|
      invariant 0 <= l <= |libraries|
      invariant env == Flatten(libraries[..l])
    {
      env := CopyFunctions(env, libraries[l]);
      assert libraries[..l + 1][..l] == libraries[..l];
      l := l + 1;
    }
    assert libraries[..l] == libraries;
    ffi := map["env" := EnvTable(env)];
  }

  /** Every export of a module written to the top level of `ffi`, whatever
      its kind. */
  function MergeExports(ffi: Ffi, m: Exports): Ffi
  {
    ffi + map f | f in m :: Export(m[f])
  }

  /** After the merge a name is bound exactly when it was bound before or
      is exported; an export wins over the old slot, and every other slot
      is kept. */
  lemma MergeExportsMeaning(ffi: Ffi, m: Exports)
    ensures var r := MergeExports(ffi, m);
      && (forall f :: f in r <==> f in ffi || f in m)
      && (forall f :: f in m ==> r[f] == Export(m[f]))
      && (forall f :: f in ffi && f !in m ==> r[f] == ffi[f])
  {
  }

  /** `load_wasm(path)`, which instantiates the module against the current
      `ffi` and answers its exports, or fails. */
  type Loader = (Name, Ffi) -> Option<Exports>

  /** The state of the loader: the `ffi` object, `modules[i]` for each
      module loaded, and the indices in the order they were loaded. */
  datatype Loaded = Loaded(ffi: Ffi, modules: map<nat, Exports>, order: seq<nat>)

  /** One iteration of the loop over the extra modules: module `i` is
      loaded against the current `ffi`, and its exports are merged into it;
      a failed load ends the start-up with its exception. */
  function LoadNext(args: seq<Name>, st: Loaded, load: Loader, i: nat): Completion<Loaded>
    requires i < |args|
  {
    var exports := load(args[i], st.ffi);
    if exports.None? then Throw(LoadFailure(args[i]))
    else Return(Loaded(MergeExports(st.ffi, exports.value), st.modules[i := exports.value],
                       st.order + [i]))
  }

  /** The state after the first `k` iterations of the loop over the extra
      modules, which goes from the last argument down to index 1. */
  function LoadExtras(args: seq<Name>, ffi0: Ffi, load: Loader, k: nat): Completion<Loaded>
    requires k < |args|
  {
    if k == 0 then Return(Loaded(ffi0, map[], []))
    else
      var prev := LoadExtras(args, ffi0, load, k - 1);
      if prev.Throw? then prev else LoadNext(args, prev.value, load, |args| - k)
  }

  /** One more iteration after a successful prefix is one `LoadNext`. */
  lemma ExtrasStep(args: seq<Name>, ffi0: Ffi, load: Loader, k: nat, st: Loaded)
    requires k + 1 < |args| && LoadExtras(args, ffi0, load, k) == Return(st)
    ensures LoadExtras(args, ffi0, load, k + 1) == LoadNext(args, st, load, |args| - k - 1)
  {
  }

  /** The main module `args[0]` is loaded against the final `ffi`, and its
      exports are kept apart. */
  function LoadMain(args: seq<Name>, st: Loaded, load: Loader): Completion<Loaded>
    requires 1 <= |args|
  {
    var exports := load(args[0], st.ffi);
    if exports.None? then Throw(LoadFailure(args[0]))
    else Return(Loaded(st.ffi, st.modules[0 := exports.value], st.order + [0]))
  }

  /** Start-up: at least one module must be named; the extra modules are
      loaded and merged, then the main module is loaded. */
  function StartupSpec(args: seq<Name>, ffi0: Ffi, load: Loader): Completion<Loaded>
  {
    if |args| < 1 then Throw(JsError(PlainError, "Expected at least one wasm module to load."))
    else
      var extras := LoadExtras(args, ffi0, load, |args| - 1);
      if extras.Throw? then extras else LoadMain(args, extras.value, load)
  }

  /** The inner loop of the start-up: every export of one module written to
      the top level of `ffi`. */
  method MergeInto(ffi: Ffi, m: Exports) returns (ffi': Ffi)
    ensures ffi' == MergeExports(ffi, m)
  {
    ffi' := ffi;
    var keys := m.Keys;
    while keys != {}
      invariant keys <= m.Keys
      invariant ffi' == ffi + map f | f in m.Keys - keys :: Export(m[f])
      decreases keys
    {
      var f :| f in keys;
      ffi' := ffi'[f := Export(m[f])];
      keys := keys - {f};
    }
  }

  /** Once a load fails, start-up ends with that failure. */
  lemma {:induction false} FailureSticks(args: seq<Name>, ffi0: Ffi, load: Loader, k: nat, k': nat)
    requires k <= k' < |args| && LoadExtras(args, ffi0, load, k).Throw?
    ensures LoadExtras(args, ffi0, load, k') == LoadExtras(args, ffi0, load, k)
    decreases k' - k
  {
    if k < k' {
      FailureSticks(args, ffi0, load, k, k' - 1);
    }
  }

  /** One iteration after a successful prefix either fails, and start-up
      ends with that failure, or is the next prefix. */
  lemma ExtrasAdvance(args: seq<Name>, ffi0: Ffi, load: Loader, k: nat, st: Loaded, next: Completion<Loaded>)
    requires k + 1 < |args| && LoadExtras(args, ffi0, load, k) == Return(st)
    requires next == LoadNext(args, st, load, |args| - 1 - k)
    ensures next.Throw? ==> LoadExtras(args, ffi0, load, |args| - 1) == next
    ensures next.Return? ==> LoadExtras(args, ffi0, load, k + 1) == next
  {
    ExtrasStep(args, ffi0, load, k, st);
    if next.Throw? {
      FailureSticks(args, ffi0, load, k + 1, |args| - 1);
    }
  }

  /** The body of the loop over the extra modules. */
  method LoadNextModule(args: seq<Name>, st: Loaded, load: Loader, i: nat) returns (r: Completion<Loaded>)
    requires i < |args|
    ensures r == LoadNext(args, st, load, i)
  {
    var path := args[i];
    var exports := load(path, st.ffi);
    if exports.None? {
      return Throw(LoadFailure(path));
    }
    var ffi := MergeInto(st.ffi, exports.value);
    r := Return(Loaded(ffi, st.modules[i := exports.value], st.order + [i]));
  }

  /** The loop over the extra modules, from the last argument down to
      index 1. */
  method LoadExtraModules(args: seq<Name>, ffi0: Ffi, load: Loader) returns (r: Completion<Loaded>)
    requires 1 <= |args|
    ensures r == LoadExtras(args, ffi0, load, |args| - 1)
  {
    var st := Loaded(ffi0, map[], []);
    var i := |args| - 1;
    while i > 0
      invariant 0 <= i < |args|
      invariant LoadExtras(args, ffi0, load, |args| - 1 - i) == Return(st)
    {
      var next := LoadNextModule(args, st, load, i);
      ExtrasAdvance(args, ffi0, load, |args| - 1 - i, st, next);
      if next.Throw? {
        return next;
      }
      st := next.value;
      i := i - 1;
    }
    return Return(st);
  }

  /** The start-up sequence, given the `ffi` the builder produced. */
  method Startup(args: seq<Name>, ffi0: Ffi, load: Loader) returns (r: Completion<Loaded>)
    ensures r == StartupSpec(args, ffi0, load)
  {
    if |args| < 1 {
      return Throw(JsError(PlainError, "Expected at least one wasm module to load."));
    }
    var extras := LoadExtraModules(args, ffi0, load);
    if extras.Throw? {
      return extras;
    }
    var st := extras.value;
    var main := load(args[0], st.ffi);
    if main.None? {
      return Throw(LoadFailure(args[0]));
    }
    r := Return(Loaded(st.ffi, st.modules[0 := main.value], st.order + [0]));
  }

  /** After `k` extra loads, the indices loaded are the top `k`, in
      descending order. */
  lemma {:induction false} ExtrasOrder(args: seq<Name>, ffi0: Ffi, load: Loader, k: nat)
    requires k < |args| && LoadExtras(args, ffi0, load, k).Return?
    ensures var st := LoadExtras(args, ffi0, load, k).value;
      && |st.order| == k
      && (forall j :: 0 <= j < k ==> st.order[j] == |args| - 1 - j)
      && (forall i :: i in st.modules <==> |args| - k <= i < |args|)
  {
    if k > 0 {
      ExtrasOrder(args, ffi0, load, k - 1);
    }
  }

  /** Start-up loads `args[n-1]`, ..., `args[1]` and then `args[0]`. */
  lemma LoadOrder(args: seq<Name>, ffi0: Ffi, load: Loader)
    requires StartupSpec(args, ffi0, load).Return?
    ensures var st := StartupSpec(args, ffi0, load).value;
      && |st.order| == |args|
      && (forall j :: 0 <= j < |args| ==> st.order[j] == |args| - 1 - j)
      && (forall i :: i in st.modules <==> 0 <= i < |args|)
  {
    ExtrasOrder(args, ffi0, load, |args| - 1);
  }

  /** Once the extra modules from `|args| - k` up have been loaded, a name
      one of them exports is bound at the top level of `ffi` to the export
      of the lowest-indexed module exporting it: it was loaded last. */
  lemma {:induction false} LowestIndexWins(args: seq<Name>, ffi0: Ffi, load: Loader, k: nat, f: Name, i: nat)
    requires k < |args| && LoadExtras(args, ffi0, load, k).Return?
    requires |args| - k <= i < |args|
    requires var st := LoadExtras(args, ffi0, load, k).value;
      && i in st.modules && f in st.modules[i]
      && forall j :: |args| - k <= j < i && j in st.modules ==> f !in st.modules[j]
    ensures var st := LoadExtras(args, ffi0, load, k).value;
      f in st.ffi && st.ffi[f] == Export(st.modules[i][f])
  {
    var st := LoadExtras(args, ffi0, load, k).value;
    var prev := LoadExtras(args, ffi0, load, k - 1).value;
    var lo := |args| - k;
    var m := load(args[lo], prev.ffi).value;
    assert st == Loaded(MergeExports(prev.ffi, m), prev.modules[lo := m], prev.order + [lo]);
    if i > lo {
      ExtrasOrder(args, ffi0, load, k - 1);
      assert f !in st.modules[lo];
      assert st.modules[i] == prev.modules[i];
      forall j | |args| - (k - 1) <= j < i && j in prev.modules
        ensures f !in prev.modules[j]
      {
        assert st.modules[j] == prev.modules[j];
      }
      LowestIndexWins(args, ffi0, load, k - 1, f, i);
    }
  }

  /** A name no extra module exports keeps whatever slot it had in the
      `ffi` the builder produced, and stays absent if it had none. */
  lemma {:induction false} UnexportedNameKeepsSlot(args: seq<Name>, ffi0: Ffi, load: Loader, k: nat, f: Name)
    requires k < |args| && LoadExtras(args, ffi0, load, k).Return?
    requires var st := LoadExtras(args, ffi0, load, k).value;
      forall j :: j in st.modules ==> f !in st.modules[j]
    ensures var st := LoadExtras(args, ffi0, load, k).value;
      && (f in st.ffi <==> f in ffi0)
      && (f in ffi0 ==> st.ffi[f] == ffi0[f])
  {
    if k > 0 {
      var st := LoadExtras(args, ffi0, load, k).value;
      var prev := LoadExtras(args, ffi0, load, k - 1).value;
      var lo := |args| - k;
      var m := load(args[lo], prev.ffi).value;
      assert st.modules == prev.modules[lo := m];
      assert f !in m by {
        assert st.modules[lo] == m;
      }
      forall j | j in prev.modules
        ensures f !in prev.modules[j]
      {
        ExtrasOrder(args, ffi0, load, k - 1);
        assert st.modules[j] == prev.modules[j];
      }
      UnexportedNameKeepsSlot(args, ffi0, load, k - 1, f);
    }
  }

  /** A name no extra module exports leaves start-up with the slot it had
      in the `ffi` the builder produced, and stays absent if it had none. */
  lemma StartupKeepsUnexportedSlot(args: seq<Name>, ffi0: Ffi, load: Loader, f: Name)
    requires StartupSpec(args, ffi0, load).Return?
    requires var st := StartupSpec(args, ffi0, load).value;
      forall j :: 1 <= j < |args| && j in st.modules ==> f !in st.modules[j]
    ensures var st := StartupSpec(args, ffi0, load).value;
      && st.ffi == LoadExtras(args, ffi0, load, |args| - 1).value.ffi
      && (f in st.ffi <==> f in ffi0)
      && (f in ffi0 ==> st.ffi[f] == ffi0[f])
  {
    StartupKeepsExtras(args, ffi0, load);
    ExtrasOrder(args, ffi0, load, |args| - 1);
    UnexportedNameKeepsSlot(args, ffi0, load, |args| - 1, f);
  }

  /** The `env` table survives start-up untouched unless an extra module
      itself exports a name `env`: module exports never enter it. */
  lemma EnvTableSurvives(args: seq<Name>, env: map<Name, Value>, load: Loader)
    requires StartupSpec(args, InitialFfi(env), load).Return?
    requires var st := StartupSpec(args, InitialFfi(env), load).value;
      forall j :: 1 <= j < |args| && j in st.modules ==> "env" !in st.modules[j]
    ensures var st := StartupSpec(args, InitialFfi(env), load).value;
      "env" in st.ffi && st.ffi["env"] == EnvTable(env)
  {
    StartupKeepsUnexportedSlot(args, InitialFfi(env), load, "env");
  }

  /** Loading the main module keeps the `ffi` and the modules of the loop
      over the extra modules, and adds module 0. */
  lemma StartupKeepsExtras(args: seq<Name>, ffi0: Ffi, load: Loader)
    requires StartupSpec(args, ffi0, load).Return?
    ensures LoadExtras(args, ffi0, load, |args| - 1).Return?
    ensures var ex := LoadExtras(args, ffi0, load, |args| - 1).value;
      var st := StartupSpec(args, ffi0, load).value;
      && st.ffi == ex.ffi
      && 0 in st.modules
      && (forall j :: j in st.modules && j != 0 <==> j in ex.modules)
      && (forall j :: j in ex.modules ==> st.modules[j] == ex.modules[j])
  {
    ExtrasOrder(args, ffi0, load, |args| - 1);
  }

  /** The main module is loaded against the final `ffi`, which is also
      the `ffi` start-up leaves, and a name only it exports does not appear
      there. */
  lemma MainExportsNotMerged(args: seq<Name>, ffi0: Ffi, load: Loader, f: Name)
    requires StartupSpec(args, ffi0, load).Return?
    requires var st := StartupSpec(args, ffi0, load).value;
      && f in st.modules[0] && f !in ffi0
      && forall j :: 1 <= j < |args| && j in st.modules ==> f !in st.modules[j]
    ensures var st := StartupSpec(args, ffi0, load).value;
      && st.ffi == LoadExtras(args, ffi0, load, |args| - 1).value.ffi
      && f !in st.ffi
  {
    StartupKeepsUnexportedSlot(args, ffi0, load, f);
  }

  /** A later prefix of the loop keeps the modules an earlier one loaded. */
  lemma {:induction false} ExtrasPrefix(args: seq<Name>, ffi0: Ffi, load: Loader, k1: nat, k2: nat)
    requires k1 <= k2 < |args| && LoadExtras(args, ffi0, load, k2).Return?
    ensures LoadExtras(args, ffi0, load, k1).Return?
    ensures var st1 := LoadExtras(args, ffi0, load, k1).value;
      var st2 := LoadExtras(args, ffi0, load, k2).value;
      forall i :: i in st1.modules ==> i in st2.modules && st2.modules[i] == st1.modules[i]
    decreases k2 - k1
  {
    if k1 < k2 {
      ExtrasPrefix(args, ffi0, load, k1, k2 - 1);
      ExtrasOrder(args, ffi0, load, k2 - 1);
    }
  }

  /** Within the loop over the extra modules: module `a` is loaded against
      the `ffi` of the first `|args| - 1 - a` iterations, and there a name
      that a later module `b` exports, and no module between them does, is
      bound to `b`'s export. */
  lemma ExportVisibleInExtras(args: seq<Name>, ffi0: Ffi, load: Loader, a: nat, b: nat, f: Name)
    requires a < b < |args| && LoadExtras(args, ffi0, load, |args| - 1).Return?
    requires var ex := LoadExtras(args, ffi0, load, |args| - 1).value;
      && b in ex.modules && f in ex.modules[b]
      && forall j :: a < j < b && j in ex.modules ==> f !in ex.modules[j]
    ensures var seen := LoadExtras(args, ffi0, load, |args| - 1 - a);
      && seen.Return?
      && f in seen.value.ffi
      && seen.value.ffi[f] == Export(LoadExtras(args, ffi0, load, |args| - 1).value.modules[b][f])
  {
    var n := |args|;
    ExtrasPrefix(args, ffi0, load, n - 1 - a, n - 1);
    ExtrasOrder(args, ffi0, load, n - 1 - a);
    CarryModules(LoadExtras(args, ffi0, load, n - 1 - a).value, LoadExtras(args, ffi0, load, n - 1).value, a, b, f);
    LowestIndexWins(args, ffi0, load, n - 1 - a, f, b);
  }

  /** What a later state says about the modules an earlier state already
      holds carries over to the earlier state. */
  lemma CarryModules(sp: Loaded, ex: Loaded, a: nat, b: nat, f: Name)
    requires forall i :: i in sp.modules ==> i in ex.modules && ex.modules[i] == sp.modules[i]
    requires b in sp.modules && f in ex.modules[b]
    requires forall j :: a < j < b && j in ex.modules ==> f !in ex.modules[j]
    ensures f in sp.modules[b] && sp.modules[b][f] == ex.modules[b][f]
    ensures forall j :: a < j < b && j in sp.modules ==> f !in sp.modules[j]
  {
  }

  /** The point of loading in reverse. Module `a` is loaded against the
      `ffi` of the first `|args| - 1 - a` iterations (for the main module,
      of all of them). In it, a name that a later module `b` exports, and
      no module between them does, is bound to `b`'s export. */
  lemma ExportVisibleToEarlierModule(args: seq<Name>, ffi0: Ffi, load: Loader, a: nat, b: nat, f: Name)
    requires StartupSpec(args, ffi0, load).Return?
    requires a < b < |args|
    requires var st := StartupSpec(args, ffi0, load).value;
      && b in st.modules && f in st.modules[b]
      && forall j :: a < j < b && j in st.modules ==> f !in st.modules[j]
    ensures var seen := LoadExtras(args, ffi0, load, |args| - 1 - a);
      && seen.Return?
      && f in seen.value.ffi
      && seen.value.ffi[f] == Export(StartupSpec(args, ffi0, load).value.modules[b][f])
  {
    StartupKeepsExtras(args, ffi0, load);
    ExportVisibleInExtras(args, ffi0, load, a, b, f);
  }
}
