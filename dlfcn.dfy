/** The `<dlfcn.h>` entries of the `unix` stub table: `dlopen`, `dlsym` and
    `dlclose` emulated over WebAssembly modules. The state is three
    variables: `dlfcn` (file name to entry), `dlfcn_handle_to_filename` and
    the counter `dlfcn_max_handle`. Every failure is a thrown
    `NotYetImplementedException`, not an error return as in POSIX. */
module Dlfcn {
  import opened Runtime
  import Heap

  const RTLD_LAZY: int := 1
  const RTLD_NOW: int := 2
  const RTLD_NOLOAD: int := 4
  const RTLD_GLOBAL: int := 256
  const RTLD_NODELETE: int := 4096

  /** An entry of `dlfcn`. A fresh entry starts with `refcount` 0. */
  datatype Entry = Entry(refcount: int, exports: Exports, handle: int)

  datatype DlState = DlState(
    files: map<Name, Entry>,             // dlfcn
    handleToFilename: map<int, Name>,    // dlfcn_handle_to_filename
    maxHandle: nat)                      // dlfcn_max_handle

  const Initial: DlState := DlState(map[], map[], 0)

  /** The table is consistent: every handle was issued by the counter, and
      every live entry's handle maps back to its name. Handles whose entry
      was closed stay in `handleToFilename`. */
  ghost predicate Consistent(s: DlState)
  {
    && (forall h :: h in s.handleToFilename ==> 1 <= h <= s.maxHandle)
    && (forall fn :: fn in s.files ==>
          && s.files[fn].handle in s.handleToFilename
          && s.handleToFilename[s.files[fn].handle] == fn)
  }

  /** `flags & mask` is non-zero, for a mask with a single bit set (on the
      two's-complement value, as JavaScript's `&` reads it). */
  function HasFlag(flags: int, mask: int): bool
    requires mask > 0
  {
    (flags / mask) % 2 == 1
  }

  /** The message of the first flag check `dlopen` fails on a first load,
      or `None` when the flags pass: `RTLD_NOW` set and `RTLD_LAZY`,
      `RTLD_NOLOAD`, `RTLD_NODELETE` and `RTLD_GLOBAL` all clear. */
  function FlagError(flags: int): (r: Option<string>)
    ensures r == None <==>
              && HasFlag(flags, RTLD_NOW)
              && !HasFlag(flags, RTLD_LAZY)
              && !HasFlag(flags, RTLD_NOLOAD)
              && !HasFlag(flags, RTLD_NODELETE)
              && !HasFlag(flags, RTLD_GLOBAL)
  {
    if HasFlag(flags, RTLD_LAZY) then Some("dlopen with flag RTLD_LAZY")
    else if !HasFlag(flags, RTLD_NOW) then Some("dlopen without flag RTDL_NOW")
    else if HasFlag(flags, RTLD_NOLOAD) then Some("dlopen with flag RTLD_NOLOAD")
    else if HasFlag(flags, RTLD_NODELETE) then Some("dlopen with flag RTLD_NODELETE")
    else if HasFlag(flags, RTLD_GLOBAL) then Some("dlopen with flag RTLD_GLOBAL")
    else None
  }

  /** `RTLD_NOW` alone (also written `RTLD_NOW | RTLD_LOCAL`) is the one
      accepted combination of the defined flags; adding any other rejects it. */
  lemma OnlyNowIsAccepted()
    ensures FlagError(RTLD_NOW) == None
    ensures FlagError(RTLD_NOW + RTLD_LAZY) == Some("dlopen with flag RTLD_LAZY")
    ensures FlagError(RTLD_NOW + RTLD_GLOBAL) == Some("dlopen with flag RTLD_GLOBAL")
    ensures FlagError(0) == Some("dlopen without flag RTDL_NOW")
  {
  }

  /** `dlopen(filename, flags)`: `None` stands for a null `filename`. A name
      already present gains a reference and gives its handle back, whatever
      the flags. A first load checks the flags, takes the next handle
      (before loading, so a failing load still uses one up) and records an
      entry with reference count 0. */
  function Open(s: DlState, filename: Option<Name>, flags: int,
                load: Name -> Option<Exports>): (r: (DlState, Completion<int>))
    ensures Consistent(s) ==> Consistent(r.0)
    ensures r.1.Throw? && filename.Some? && filename.value !in s.files ==> r.0.files == s.files
    ensures r.0.maxHandle >= s.maxHandle
    ensures filename.None? ==> r == (s, Throw(NotYetImplemented("dlopen(NULL, ...);")))
    ensures filename.Some? && filename.value !in s.files && FlagError(flags).Some? ==>
              r == (s, Throw(NotYetImplemented(FlagError(flags).value)))
    ensures filename.Some? && filename.value !in s.files && FlagError(flags).None? &&
            load(filename.value).None? ==>
              r == (s.(maxHandle := s.maxHandle + 1), Throw(LoadFailure(filename.value)))
  {
    if filename.None? then (s, Throw(NotYetImplemented("dlopen(NULL, ...);")))
    else
      var fs := filename.value;
      if fs in s.files then
        var e := s.files[fs];
        (s.(files := s.files[fs := e.(refcount := e.refcount + 1)]), Return(e.handle))
      else if FlagError(flags).Some? then
        (s, Throw(NotYetImplemented(FlagError(flags).value)))
      else
        var handle := s.maxHandle + 1;
        match load(fs)
        case None => (s.(maxHandle := handle), Throw(LoadFailure(fs)))
        case Some(m) =>
          (DlState(s.files[fs := Entry(0, m, handle)],
                   s.handleToFilename[handle := fs],
                   handle),
           Return(handle))
  }

  /** The name a handle stands for, as `dlsym` and `dlclose` accept it: an
      unknown handle and the empty name (falsy in JavaScript) are refused. */
  function FileOf(s: DlState, handle: int): Option<Name>
  {
    if handle in s.handleToFilename && s.handleToFilename[handle] != "" then
      Some(s.handleToFilename[handle])
    else None
  }

  /** `dlsym(handle, symbol)`: `None` stands for a null `symbol`. A handle
      whose entry was closed reads `dlfcn[filename].module` of `undefined`,
      a `TypeError`. */
  function Sym(s: DlState, handle: int, symbol: Option<Name>): (r: Completion<Value>)
    ensures r.Return? <==>
              && FileOf(s, handle).Some? && symbol.Some?
              && FileOf(s, handle).value in s.files
              && symbol.value in s.files[FileOf(s, handle).value].exports
    ensures r.Return? ==> r.value == s.files[FileOf(s, handle).value].exports[symbol.value]
    ensures FileOf(s, handle).None? ==> r == Throw(NotYetImplemented("dlsym of invalid handle"))
    ensures FileOf(s, handle).Some? && symbol.None? ==>
              r == Throw(NotYetImplemented("dlsym of NULL symbol"))
    ensures FileOf(s, handle).Some? && symbol.Some? && FileOf(s, handle).value !in s.files ==>
              r.Throw? && r.exc.JsError? && r.exc.kind == TypeError
    ensures FileOf(s, handle).Some? && symbol.Some? && FileOf(s, handle).value in s.files &&
            symbol.value !in s.files[FileOf(s, handle).value].exports ==>
              r == Throw(NotYetImplemented("dlsym with symbol not found in handle"))
  {
    if FileOf(s, handle).None? then Throw(NotYetImplemented("dlsym of invalid handle"))
    else if symbol.None? then Throw(NotYetImplemented("dlsym of NULL symbol"))
    else
      var fn := FileOf(s, handle).value;
      if fn !in s.files then Throw(JsError(TypeError, "dlfcn[filename] is undefined"))
      else if symbol.value in s.files[fn].exports then Return(s.files[fn].exports[symbol.value])
      else Throw(NotYetImplemented("dlsym with symbol not found in handle"))
  }

  /** `dlclose(handle)`: one reference fewer; the entry goes when the count
      reaches exactly 0. The handle itself stays mapped to its name. */
  function Close(s: DlState, handle: int): (r: (DlState, Completion<int>))
    ensures Consistent(s) ==> Consistent(r.0)
    ensures r.0.handleToFilename == s.handleToFilename && r.0.maxHandle == s.maxHandle
    ensures r.1.Return? ==> r.1.value == 0
    ensures r.1.Throw? ==> r.0 == s
    ensures FileOf(s, handle).None? ==> r == (s, Throw(NotYetImplemented("dlclose of invalid handle")))
    ensures FileOf(s, handle).Some? && FileOf(s, handle).value !in s.files ==>
              r.1.Throw? && r.1.exc.JsError? && r.1.exc.kind == TypeError
    ensures FileOf(s, handle).Some? && FileOf(s, handle).value in s.files ==>
              var fn := FileOf(s, handle).value;
              var e := s.files[fn];
              && r.1 == Return(0)
              && (fn in r.0.files <==> e.refcount - 1 != 0)
              && (fn in r.0.files ==> r.0.files[fn] == e.(refcount := e.refcount - 1))
              && (forall g :: g != fn ==> (g in r.0.files <==> g in s.files))
              && (forall g :: g != fn && g in s.files ==> r.0.files[g] == s.files[g])
  {
    if FileOf(s, handle).None? then (s, Throw(NotYetImplemented("dlclose of invalid handle")))
    else
      var fn := FileOf(s, handle).value;
      if fn !in s.files then (s, Throw(JsError(TypeError, "dlfcn[filename] is undefined")))
      else
        var e := s.files[fn];
        if e.refcount - 1 == 0 then (s.(files := s.files - {fn}), Return(0))
        else (s.(files := s.files[fn := e.(refcount := e.refcount - 1)]), Return(0))
  }

  // ---------------------------------------------------------------------
  // Properties of the table

  /** A first load that succeeds gets the next handle, one never issued
      before, and an entry with reference count 0. The counter moves to
      that handle; every other entry and every other handle's name stay. */
  lemma FirstOpenTakesFreshHandle(s: DlState, name: Name, flags: int,
                                  load: Name -> Option<Exports>)
    requires Consistent(s)
    requires name !in s.files && FlagError(flags) == None && load(name).Some?
    ensures var (s', r) := Open(s, Some(name), flags, load);
      && r == Return(s.maxHandle + 1)
      && s.maxHandle + 1 !in s.handleToFilename
      && (forall fn :: fn in s.files ==> s.files[fn].handle != r.value)
      && s'.files[name] == Entry(0, load(name).value, r.value)
      && s'.handleToFilename[r.value] == name
      && s'.maxHandle == r.value
      && s'.files.Keys == s.files.Keys + {name}
      && (forall fn :: fn in s.files ==> s'.files[fn] == s.files[fn])
      && s'.handleToFilename.Keys == s.handleToFilename.Keys + {r.value}
      && (forall h :: h in s.handleToFilename ==> s'.handleToFilename[h] == s.handleToFilename[h])
  {
  }

  /** A name already open gains one reference and gives its handle back,
      whatever the flags and without loading anything; nothing else in the
      table changes, the entry's handle and exports included. */
  lemma ReopenIgnoresFlags(s: DlState, name: Name, flags: int, flags': int,
                           load: Name -> Option<Exports>, load': Name -> Option<Exports>)
    requires name in s.files
    ensures Open(s, Some(name), flags, load) == Open(s, Some(name), flags', load')
    ensures Open(s, Some(name), flags, load).1 == Return(s.files[name].handle)
    ensures var s' := Open(s, Some(name), flags, load).0;
      && s'.files.Keys == s.files.Keys
      && s'.files[name] == s.files[name].(refcount := s.files[name].refcount + 1)
      && (forall fn :: fn in s.files && fn != name ==> s'.files[fn] == s.files[fn])
      && s'.handleToFilename == s.handleToFilename
      && s'.maxHandle == s.maxHandle
  {
  }

  /** Because entries start at 0, one open and one close leave the count at
      -1 and the entry in place. */
  lemma {:induction false} OpenThenCloseKeepsEntry(s: DlState, name: Name, flags: int,
                                                  load: Name -> Option<Exports>)
    requires Consistent(s)
    requires name != "" && name !in s.files && FlagError(flags) == None && load(name).Some?
    ensures var (s1, h) := Open(s, Some(name), flags, load);
      var (s2, c) := Close(s1, h.value);
      && c == Return(0)
      && name in s2.files && s2.files[name].refcount == -1
  {
    var (s1, h) := Open(s, Some(name), flags, load);
    FirstOpenTakesFreshHandle(s, name, flags, load);
    assert FileOf(s1, h.value) == Some(name);
  }

  /** Two opens and one close remove the entry. */
  lemma {:induction false} TwoOpensOneCloseRemoves(s: DlState, name: Name, flags: int,
                                                  load: Name -> Option<Exports>)
    requires Consistent(s)
    requires name != "" && name !in s.files && FlagError(flags) == None && load(name).Some?
    ensures var (s1, h1) := Open(s, Some(name), flags, load);
      var (s2, h2) := Open(s1, Some(name), flags, load);
      var (s3, c) := Close(s2, h1.value);
      && h1 == h2
      && c == Return(0)
      && name !in s3.files
  {
    var (s1, h1) := Open(s, Some(name), flags, load);
    FirstOpenTakesFreshHandle(s, name, flags, load);
    var (s2, h2) := Open(s1, Some(name), flags, load);
    assert s2.files[name].refcount == 1;
    assert FileOf(s2, h1.value) == Some(name);
  }

  /** After the last close a handle is stale: `dlsym` and `dlclose` on it
      throw a `TypeError`, not the `NotYetImplementedException` of an
      unknown handle. */
  lemma {:induction false} ClosedHandleIsStale(s: DlState, handle: int, symbol: Name)
    requires Consistent(s)
    requires FileOf(s, handle).Some? && FileOf(s, handle).value in s.files
    requires s.files[FileOf(s, handle).value].refcount == 1
    ensures var (s', c) := Close(s, handle);
      && c == Return(0)
      && Sym(s', handle, Some(symbol)).Throw?
      && Sym(s', handle, Some(symbol)).exc.JsError?
      && Sym(s', handle, Some(symbol)).exc.kind == TypeError
      && Close(s', handle).1.Throw?
      && Close(s', handle).1.exc.JsError?
  {
    var (s', c) := Close(s, handle);
    assert FileOf(s', handle) == FileOf(s, handle);
  }

  /** Once a closed name is opened again it gets a new handle, and the old
      handle, still mapped to the name, reaches the new entry. */
  lemma {:induction false} ReopenRevivesStaleHandle(s: DlState, old_handle: int, flags: int,
                                                   load: Name -> Option<Exports>, symbol: Name)
    requires Consistent(s)
    requires FileOf(s, old_handle).Some? && FileOf(s, old_handle).value !in s.files
    requires FlagError(flags) == None && load(FileOf(s, old_handle).value).Some?
    ensures var name := FileOf(s, old_handle).value;
      var (s', h) := Open(s, Some(name), flags, load);
      && h.Return? && h.value != old_handle
      && Sym(s', old_handle, Some(symbol)) == Sym(s', h.value, Some(symbol))
  {
    var name := FileOf(s, old_handle).value;
    var (s', h) := Open(s, Some(name), flags, load);
    assert old_handle in s.handleToFilename;
    assert FileOf(s', old_handle) == Some(name);
    assert FileOf(s', h.value) == Some(name);
  }

  /** Different names never share a live handle. */
  lemma LiveHandlesAreDistinct(s: DlState, a: Name, b: Name)
    requires Consistent(s)
    requires a in s.files && b in s.files && a != b
    ensures s.files[a].handle != s.files[b].handle
  {
  }

  // ---------------------------------------------------------------------
  // The state as the shell keeps it

  /** The name a heap pointer stands for, `None` for the null pointer. */
  function NameAt(h: seq<byte>, p: nat): Option<Name>
    requires p == 0 || Heap.Terminated(h, p)
  {
    if p == 0 then None else Some(Heap.CString(h, p))
  }

  class DynamicLinker {
    var dlfcn: map<Name, Entry>
    var dlfcnHandleToFilename: map<int, Name>
    var dlfcnMaxHandle: nat

    function State(): DlState
      reads this
    {
      DlState(dlfcn, dlfcnHandleToFilename, dlfcnMaxHandle)
    }

    constructor ()
      ensures State() == Initial && Consistent(State())
    {
      dlfcn := map[];
      dlfcnHandleToFilename := map[];
      dlfcnMaxHandle := 0;
    }

    method DlOpen(heap: array<byte>, filename: nat, flags: int,
                  load: Name -> Option<Exports>) returns (r: Completion<int>)
      requires filename == 0 || Heap.Terminated(heap[..], filename)
      modifies this
      ensures (State(), r) == Open(old(State()), NameAt(heap[..], filename), flags, load)
      ensures Consistent(old(State())) ==> Consistent(State())
    {
      if filename == 0 {
        return Throw(NotYetImplemented("dlopen(NULL, ...);"));
      }
      var fs := Heap.StringFromHeap(heap, filename);
      if fs in dlfcn {
        var e := dlfcn[fs];
        dlfcn := dlfcn[fs := e.(refcount := e.refcount + 1)];
        return Return(e.handle);
      }
      if HasFlag(flags, RTLD_LAZY) {
        return Throw(NotYetImplemented("dlopen with flag RTLD_LAZY"));
      }
      if !HasFlag(flags, RTLD_NOW) {
        return Throw(NotYetImplemented("dlopen without flag RTDL_NOW"));
      }
      if HasFlag(flags, RTLD_NOLOAD) {
        return Throw(NotYetImplemented("dlopen with flag RTLD_NOLOAD"));
      }
      if HasFlag(flags, RTLD_NODELETE) {
        return Throw(NotYetImplemented("dlopen with flag RTLD_NODELETE"));
      }
      if HasFlag(flags, RTLD_GLOBAL) {
        return Throw(NotYetImplemented("dlopen with flag RTLD_GLOBAL"));
      }
      dlfcnMaxHandle := dlfcnMaxHandle + 1;
      var handle := dlfcnMaxHandle;
      var exports := load(fs);
      if exports.None? {
        return Throw(LoadFailure(fs));
      }
      dlfcn := dlfcn[fs := Entry(0, exports.value, handle)];
      dlfcnHandleToFilename := dlfcnHandleToFilename[handle := fs];
      return Return(handle);
    }

    /** `dlsym` changes nothing: it scans the module's export names for one
        equal to `symbol`. */
    method DlSym(heap: array<byte>, handle: int, symbol: nat) returns (r: Completion<Value>)
      requires symbol == 0 || Heap.Terminated(heap[..], symbol)
      ensures r == Sym(State(), handle, NameAt(heap[..], symbol))
    {
      if handle !in dlfcnHandleToFilename || dlfcnHandleToFilename[handle] == "" {
        return Throw(NotYetImplemented("dlsym of invalid handle"));
      }
      var filename := dlfcnHandleToFilename[handle];
      if symbol == 0 {
        return Throw(NotYetImplemented("dlsym of NULL symbol"));
      }
      var ss := Heap.StringFromHeap(heap, symbol);
      if filename !in dlfcn {
        return Throw(JsError(TypeError, "dlfcn[filename] is undefined"));
      }
      var exports := dlfcn[filename].exports;
      var names := exports.Keys;
      while names != {}
        invariant names <= exports.Keys
        invariant ss !in exports.Keys - names
        decreases names
      {
        var m :| m in names;
        if m == ss {
          return Return(exports[m]);
        }
        names := names - {m};
      }
      return Throw(NotYetImplemented("dlsym with symbol not found in handle"));
    }

    method DlClose(handle: int) returns (r: Completion<int>)
      modifies this
      ensures (State(), r) == Close(old(State()), handle)
      ensures Consistent(old(State())) ==> Consistent(State())
    {
      if handle !in dlfcnHandleToFilename || dlfcnHandleToFilename[handle] == "" {
        return Throw(NotYetImplemented("dlclose of invalid handle"));
      }
      var filename := dlfcnHandleToFilename[handle];
      if filename !in dlfcn {
        return Throw(JsError(TypeError, "dlfcn[filename] is undefined"));
      }
      var e := dlfcn[filename].(refcount := dlfcn[filename].refcount - 1);
      if e.refcount == 0 {
        dlfcn := dlfcn - {filename};   // `dlfcn[filename] = undefined`
      } else {
        dlfcn := dlfcn[filename := e];
      }
      return Return(0);
    }
  }
}
