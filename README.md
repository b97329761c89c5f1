# A verified model of musl's wasm32 JavaScript shell runtime

The wasm32 port of musl runs WebAssembly programs in a JavaScript shell.
`arch/wasm32/wasm.js` stands in for a C library there, and it also links and
loads the modules. `src/malloc/wasm32/expand_heap.c` grows the linear memory
for musl's own allocator. This project models the core of both files in
Dafny and proves what they do.

- `runtime.dfy` (`Runtime`) holds the shared vocabulary:
  - the bytes of the `Uint8Array` heap view;
  - property names and the values a stub table or module export can hold;
  - the exceptions the shell throws;
  - JavaScript's `& 0xff` and its boolean-to-`i32` conversion.
- `heap.dfy` (`Heap`) holds `stringFromHeap` and the byte-string routines of
  the `string` table. They are methods looping over an `array<byte>`. Each is
  proved against a specification function of the old heap contents.
- `ctype.dfy` (`CType`) holds the `ctype` predicates. Three of them throw
  where the shell names something it never defines.
- `stdio.dfy` (`Stdio`) holds the standard-output buffer behind `putchar`,
  `puts` and `__flush_stdout`.
- `stdlib.dfy` (`Stdlib`) holds two pieces of state:
  - the bump allocator behind `malloc`, `calloc` and `realloc`;
  - the exit code that `exit`, `_Exit` and `abort` record.
- `files.dfy` (`FileTable`) holds the 256-slot descriptor table behind
  `open`, `creat` and `close`.
- `dlfcn.dfy` (`Dlfcn`) holds the dynamic-library table of `dlopen`, `dlsym`
  and `dlclose`:
  - a pure state machine `Open`/`Sym`/`Close` and the lemmas about it;
  - the class `DynamicLinker`, whose methods mutate the three variables of
    the shell and are proved equal to the state machine.
- `linker.dfy` (`Linker`) holds the `ffi` builder and the start-up loader.
  The builder flattens the ten stub tables into `ffi.env`. The loader loads
  the extra modules in reverse, writes their exports to the top level of
  `ffi`, and then loads the main module.
- `driver.dfy` (`Driver`) holds the `try`/`catch` around `main()`:
  - what is printed;
  - what is thrown on to the engine;
  - `is_runtime_trap`.
- `expand_heap.dfy` (`ExpandHeap`) holds `__expand_heap` in 32-bit unsigned
  arithmetic, with `memory.grow` (section 4.4.7 of the WebAssembly Core
  Specification 2.0) given as a function.

The code abstracts over the host calls `load_wasm` (`Wasm.instantiateModule`
of `readbuffer`), `print` and `memory.grow`. They appear as function
parameters or as returned values:
- A loader maps a path, and for start-up the current `ffi`, to the module's
  exports or to a failure.
- Flushing returns the printed text.
- `grow` maps a page count to the old size in pages, or to `0xFFFFFFFF`.

## Model

| member | source | states |
|---|---|---|
| Runtime.ToUint8 | arch/wasm32/wasm.js:74 | `c &= 0xff` keeps the value modulo 256 |
| Runtime.FromCharCode | arch/wasm32/wasm.js:29 | `charFromHeap` without the heap read: the character whose code is the byte |
| Heap.LengthAt | arch/wasm32/wasm.js:543-545 | the C string length is the offset of the first zero byte: it is zero there and non-zero at every earlier offset |
| Heap.StringFromHeap | arch/wasm32/wasm.js:30-35 | the loop builds the characters of every byte before the first zero byte |
| Heap.MemCpy | arch/wasm32/wasm.js:459-463 | answers `dst`; the heap is the forward byte copy of the old heap; no byte outside `[dst, dst+num)` changes; for non-overlapping ranges the destination holds the source bytes |
| Heap.CopyForward | arch/wasm32/wasm.js:460-461 | the heap after the forward byte loop stores `h[src+i]` at `dst+i` in increasing `i`, reading bytes already written; no byte outside the destination changes |
| Heap.CopyForwardCopies | arch/wasm32/wasm.js:460-461 | the forward loop reproduces the source bytes when the destination does not start inside the source past its first byte (or the ranges are disjoint) |
| Heap.MemPCpy | arch/wasm32/wasm.js:464-466 | answers `dst + num` after the same copy as `memcpy` |
| Heap.StrCpy | arch/wasm32/wasm.js:468-474 | answers `dst`; copies the source string through its terminating zero; changes nothing else |
| Heap.StrNCpy | arch/wasm32/wasm.js:475-481 | answers `dst`; writes exactly `num` bytes: the source bytes up to its first zero (or `num`), then zeros; changes nothing else |
| Heap.PadWithZeros | arch/wasm32/wasm.js:479 | the second loop of `strncpy` zeros exactly `[lo, hi)` and changes nothing else |
| Heap.MemCmp | arch/wasm32/wasm.js:488-493 | the result is the as-written comparison of the two `num`-byte runs |
| Heap.StrCmp | arch/wasm32/wasm.js:494-501 | the result is the as-written comparison over the left string and its terminating zero |
| Heap.StrNCmp | arch/wasm32/wasm.js:503-510 | the result is the as-written comparison over the left string through its zero byte, at most `num` bytes |
| Heap.CompareStopsAt | arch/wasm32/wasm.js:504-509 | where the `strncmp` loop stops decides its answer: at a difference the boolean of the two bytes, at the left string's zero byte or after `num` bytes 0, equal to the as-written comparison over the span |
| Heap.CompareAsWritten | arch/wasm32/wasm.js:488-510 | the answer of the compare loops: 0 when the runs agree, otherwise the JavaScript boolean `a[i] < b[i]` at the first difference as 1 or 0 |
| Heap.CompareAsWrittenMeaning | arch/wasm32/wasm.js:489-492 | the compare routines answer 1 exactly when the first differing byte is smaller on the left, and 0 exactly when the runs are equal or the first difference is greater on the left |
| Heap.CompareAsWrittenGreaterReadsAsEqual | arch/wasm32/wasm.js:490-492 | `[1]` against `[0]` answers 0, the same as equal runs; `[0]` against `[1]` answers 1 |
| Heap.SignedCompare | arch/wasm32/wasm.js:488-493 | the corrected comparison answers -1, 0 or 1 |
| Heap.SignedCompareIsOrder | arch/wasm32/wasm.js:488-493 | the corrected comparison is 0 exactly on equal runs and is antisymmetric |
| Heap.StrChr | arch/wasm32/wasm.js:515-522 | answers an offset, not a pointer: the first offset holding the low byte of `character`, or else the string length; no earlier byte matches |
| Heap.StrLen | arch/wasm32/wasm.js:543-545 | answers the offset of the first zero byte |
| Heap.StrRChr | arch/wasm32/wasm.js:525-532 | for `character` 0, answers the address of the terminator; otherwise the address of the last match, or 0 when nothing matches |
| Heap.MemSet | arch/wasm32/wasm.js:538-541 | answers `ptr`; every byte of `[ptr, ptr+num)` becomes the low byte of `value`; nothing else changes |
| CType.Between | arch/wasm32/wasm.js:73-76 | the low byte of the argument lies between the two character codes, bounds included |
| CType.IsUpper | arch/wasm32/wasm.js:95 | true exactly for the low bytes 0x41-0x5a |
| CType.IsLower | arch/wasm32/wasm.js:86 | true exactly for the low bytes 0x61-0x7a |
| CType.IsDigit | arch/wasm32/wasm.js:84 | true exactly for the low bytes 0x30-0x39 |
| CType.ToLower | arch/wasm32/wasm.js:100 | an upper-case argument becomes its lower-case byte; any other argument comes back unchanged |
| CType.ToUpper | arch/wasm32/wasm.js:101 | a lower-case argument becomes its upper-case byte; any other argument comes back unchanged |
| CType.CaseRoundTrip | arch/wasm32/wasm.js:100-101 | on bytes, converting to one case after the other equals converting directly, and a letter round-trips |
| CType.IsAlpha | arch/wasm32/wasm.js:81 | lower-casing and then testing for 'a'..'z' accepts exactly the upper- and lower-case letters |
| CType.IsBlank | arch/wasm32/wasm.js:82 | true exactly for the low bytes tab and space |
| CType.IsCntrl | arch/wasm32/wasm.js:83 | true exactly for the low bytes below 0x20 and 0x7f |
| CType.IsPrint | arch/wasm32/wasm.js:87 | true exactly for 0x20-0x7e and for every byte from 0x80 |
| CType.IsGraph | arch/wasm32/wasm.js:85 | printable but not space: 0x21-0x7e and every byte from 0x80 |
| CType.Listed | arch/wasm32/wasm.js:91-92 | the scan finds the byte exactly when it is in the list |
| CType.IsSpace | arch/wasm32/wasm.js:89-94 | answers 1 exactly for space and 0x09-0x0d, and 0 otherwise |
| CType.IsAlnum | arch/wasm32/wasm.js:80 | answers true for letters; throws a `TypeError` for every other byte, since `ctype.isnum` is undefined |
| CType.IsPunct | arch/wasm32/wasm.js:88 | answers false for non-graphic bytes and letters; throws a `TypeError` for every other graphic byte |
| CType.IsXDigit | arch/wasm32/wasm.js:96-97 | answers true for decimal digits; throws a `ReferenceError` for everything else, since the bare `tolower` is undefined |
| Stdio.StdoutBuffer.constructor | arch/wasm32/wasm.js:278 | the buffer starts empty |
| Stdio.StdoutBuffer.PutChar | arch/wasm32/wasm.js:332-336 | appends the character of the low byte and answers that byte |
| Stdio.StdoutBuffer.PutS | arch/wasm32/wasm.js:337 | appends the heap string and a newline |
| Stdio.StdoutBuffer.FlushStdout | arch/wasm32/wasm.js:282 | hands back the whole buffer and empties it |
| Stdlib.StdlibState.constructor | arch/wasm32/wasm.js:360-361 | the exit code is 0 and the bump pointer is 16384 |
| Stdlib.StdlibState.Malloc | arch/wasm32/wasm.js:399-404 | answers 0 for size 0 or a bump pointer past the heap; otherwise answers the old bump pointer and advances it by `size`; the blocks handed out stay disjoint and in increasing order |
| Stdlib.StdlibState.Calloc | arch/wasm32/wasm.js:392-397 | answers 0 when `nmemb*size` is 0 or `malloc` fails; otherwise `malloc`'s block with exactly `nmemb*size` zero bytes and no other byte changed; the block list grows exactly as `malloc`'s does |
| Stdlib.StdlibState.Realloc | arch/wasm32/wasm.js:405-409 | with a null pointer it is `malloc`, bump pointer and block list included; otherwise size 0 throws the unimplemented `free`, and any other size throws unimplemented `realloc` |
| Stdlib.StdlibState.Abort | arch/wasm32/wasm.js:412-414 | stores exit code 1 and throws the termination `abort()` |
| Stdlib.StdlibState.Exit | arch/wasm32/wasm.js:417-420 | stores its argument and throws the termination `exit(<code>)`, the code written in decimal |
| Stdlib.StdlibState.UnderscoreExit | arch/wasm32/wasm.js:426-428 | stores its argument and throws the termination `_Exit(<code>)`, the code written in decimal |
| Stdlib.IntToString | arch/wasm32/wasm.js:420-428 | the text of the exit code in the termination message: a leading `-` exactly for a negative code, decimal digits everywhere else |
| Stdlib.NatToStringValue | arch/wasm32/wasm.js:420-428 | the digits written for a natural number denote that number |
| Stdlib.IntToStringValue | arch/wasm32/wasm.js:420-428 | a non-negative exit code is written as digits denoting its value |
| Stdlib.NegativeIntToStringValue | arch/wasm32/wasm.js:420-428 | a negative exit code is written as `-` followed by digits denoting its magnitude |
| FileTable.OpenFiles.constructor | arch/wasm32/wasm.js:550-551 | all 256 slots start free |
| FileTable.OpenFiles.Open | arch/wasm32/wasm.js:651-657 | takes the lowest free slot and answers its index, or answers -1 exactly when all slots are taken; no other slot changes |
| FileTable.OpenFiles.Creat | arch/wasm32/wasm.js:647-649 | behaves exactly as `open` |
| FileTable.OpenFiles.Close | arch/wasm32/wasm.js:729-731 | answers -1 exactly when `fd` is not an open descriptor; otherwise frees that slot and answers 0; no other slot changes |
| Dlfcn.HasFlag | arch/wasm32/wasm.js:587-591 | the single-bit test `flags & mask` on the two's-complement value |
| Dlfcn.FlagError | arch/wasm32/wasm.js:587-591 | a first load passes the flag checks exactly when `RTLD_NOW` is set and `RTLD_LAZY`, `RTLD_NOLOAD`, `RTLD_NODELETE` and `RTLD_GLOBAL` are clear |
| Dlfcn.OnlyNowIsAccepted | arch/wasm32/wasm.js:587-591 | `RTLD_NOW` passes; adding `RTLD_LAZY` or `RTLD_GLOBAL`, or omitting `RTLD_NOW`, fails with the check's message |
| Dlfcn.Open | arch/wasm32/wasm.js:580-600 | keeps the table consistent; never lowers the handle counter; a null name throws the unimplemented `dlopen(NULL, ...);` and a first load with rejected flags throws the unimplemented flag message, both with the table unchanged; a failed load uses up one handle and adds no entry |
| Dlfcn.FileOf | arch/wasm32/wasm.js:571-572 | the handle's name as `dlsym` and `dlclose` accept it: none for an unknown handle or the falsy empty name |
| Dlfcn.Sym | arch/wasm32/wasm.js:601-610 | succeeds exactly when the handle names a live entry, the symbol is non-null, and the entry exports that name, and then answers that export; an unknown handle, a null symbol and a missing symbol throw their unimplemented-feature messages; a closed entry throws a `TypeError` |
| Dlfcn.Close | arch/wasm32/wasm.js:570-576 | on a live entry: answers 0, lowers its count by one, removes it exactly when the new count is 0, and leaves every other entry alone; an unknown handle throws the unimplemented `dlclose of invalid handle` and a closed entry a `TypeError`, both with the table unchanged; keeps the table consistent and never touches the handle map or the counter |
| Dlfcn.FirstOpenTakesFreshHandle | arch/wasm32/wasm.js:593-599 | a successful first load answers the next counter value, a handle never issued before, with an entry of reference count 0 mapped back to its name; the counter becomes that handle, and every other entry and every other handle's name is unchanged |
| Dlfcn.ReopenIgnoresFlags | arch/wasm32/wasm.js:583-586 | for an open name the flags and the loader are irrelevant; it answers the existing handle with one more reference, and nothing else in the table changes |
| Dlfcn.OpenThenCloseKeepsEntry | arch/wasm32/wasm.js:570-600 | one open and one close leave the entry in place with reference count -1 |
| Dlfcn.TwoOpensOneCloseRemoves | arch/wasm32/wasm.js:570-600 | two opens give the same handle, and one close then removes the entry |
| Dlfcn.ClosedHandleIsStale | arch/wasm32/wasm.js:570-610 | after the last close, `dlsym` and `dlclose` on the handle throw a JavaScript error, not the unimplemented-feature exception |
| Dlfcn.ReopenRevivesStaleHandle | arch/wasm32/wasm.js:580-610 | reopening a closed name issues a new handle, and the old handle then reaches the new entry |
| Dlfcn.LiveHandlesAreDistinct | arch/wasm32/wasm.js:593-599 | in a consistent table, two names never share a handle |
| Dlfcn.DynamicLinker.constructor | arch/wasm32/wasm.js:553-555 | starts with empty tables and counter 0 |
| Dlfcn.DynamicLinker.DlOpen | arch/wasm32/wasm.js:580-600 | the new state and the result are `Open` of the old state on the heap string |
| Dlfcn.DynamicLinker.DlSym | arch/wasm32/wasm.js:601-610 | the scan of export names answers `Sym` of the state, which it leaves alone |
| Dlfcn.DynamicLinker.DlClose | arch/wasm32/wasm.js:570-576 | the new state and the result are `Close` of the old state |
| Linker.FunctionsOf | arch/wasm32/wasm.js:925-927 | exactly the own properties of a table that are functions, with their values |
| Linker.Flatten | arch/wasm32/wasm.js:925-928 | everything in `env` is a function |
| Linker.EnvDomain | arch/wasm32/wasm.js:925-928 | a name is in `env` exactly when some table has it as an own function property, so constants never enter |
| Linker.LastDefinerWins | arch/wasm32/wasm.js:920-928 | `env[f]` is the function of the last table in the list that defines `f` as a function |
| Linker.StdlibShadowsEarlierTables | arch/wasm32/wasm.js:920-923 | a function of `stdlib` that `string`, `unix` and `syscall` lack is the one in `env`, e.g. `abort` over `musl_hack`'s stub and `abs` over `Math.abs` |
| Linker.CopyFunctions | arch/wasm32/wasm.js:926-928 | the inner loop adds exactly the table's own function properties to `env` |
| Linker.BuildFfi | arch/wasm32/wasm.js:918-930 | `ffi` is `{env: ...}` holding the flattened tables in list order |
| Linker.MergeExports | arch/wasm32/wasm.js:951-957 | the `ffi` after one module's exports are written to its top level |
| Linker.MergeExportsMeaning | arch/wasm32/wasm.js:951-957 | after the merge a name is bound exactly when it was bound or is exported; an export wins over the old slot, and every other slot is kept |
| Linker.MergeInto | arch/wasm32/wasm.js:951-957 | every export of the module, of any kind, is written to the top level of `ffi` |
| Linker.LoadNext | arch/wasm32/wasm.js:949-957 | one iteration of the loop over the extra modules: `load_wasm` against the current `ffi`, a failure ending start-up, or the module recorded and merged |
| Linker.LoadExtras | arch/wasm32/wasm.js:948-958 | the state after the first `k` iterations from the last argument down, a failure being final |
| Linker.LoadMain | arch/wasm32/wasm.js:960-962 | the main module `args[0]` is loaded against the final `ffi`, recorded as module 0 and not merged |
| Linker.StartupSpec | arch/wasm32/wasm.js:932-962 | start-up: an `Error` without arguments, then the extra modules in reverse, then the main module |
| Linker.LoadNextModule | arch/wasm32/wasm.js:949-957 | one iteration of the loop: a failed load ends with the load failure for that path; otherwise the module is recorded under its index and its exports are merged into `ffi` |
| Linker.ExtrasAdvance | arch/wasm32/wasm.js:948-958 | after a successful prefix of the loop, the next iteration either fails and start-up ends with that failure, or it is the next prefix |
| Linker.LoadExtraModules | arch/wasm32/wasm.js:948-958 | the loop from the last argument down to index 1 ends in exactly the state, or the failure, of the loader's specification |
| Linker.Startup | arch/wasm32/wasm.js:932-962 | the loader's result is the start-up specification: no argument is an error, a failed load ends start-up, extras load in reverse and merge, and the main module loads last without merging |
| Linker.FailureSticks | arch/wasm32/wasm.js:948-950 | once a load fails, start-up ends with that failure |
| Linker.ExtrasOrder | arch/wasm32/wasm.js:948-958 | after `k` iterations exactly the top `k` arguments are loaded, in descending order |
| Linker.LoadOrder | arch/wasm32/wasm.js:948-962 | start-up loads `args[n-1]`, ..., `args[1]` and then `args[0]`, and every argument once |
| Linker.LowestIndexWins | arch/wasm32/wasm.js:948-958 | a name exported by several extra modules is bound at the top level of `ffi` to the lowest-indexed module's export |
| Linker.UnexportedNameKeepsSlot | arch/wasm32/wasm.js:948-958 | a name no extra module exports keeps its slot from the builder, or stays absent |
| Linker.EnvTableSurvives | arch/wasm32/wasm.js:918-962 | module exports never touch the `env` table unless a module exports a name `env` |
| Linker.StartupKeepsExtras | arch/wasm32/wasm.js:960-962 | loading the main module keeps the `ffi` and the modules of the extras loop and adds module 0 |
| Linker.StartupKeepsUnexportedSlot | arch/wasm32/wasm.js:948-962 | after start-up, a name no extra module exports keeps its slot from the builder, or stays absent |
| Linker.MainExportsNotMerged | arch/wasm32/wasm.js:960-962 | start-up leaves the `ffi` of the extras loop, and a name only the main module exports is absent from it |
| Linker.ExtrasPrefix | arch/wasm32/wasm.js:948-958 | later iterations keep every module already loaded, under the same index |
| Linker.ExportVisibleInExtras | arch/wasm32/wasm.js:943-958 | module `a` is loaded against the `ffi` of the iterations before it, and there a name is bound to the export of the nearest higher module `b` that exports it |
| Linker.ExportVisibleToEarlierModule | arch/wasm32/wasm.js:943-962 | later modules export symbols to earlier ones, the main module included: the `ffi` module `a` is loaded against binds a name to the export of the nearest `b > a` that exports it |
| Driver.Caught | arch/wasm32/wasm.js:973-1000 | the `catch` block: flush, then a termination reports and throws a non-zero exit code, an unimplemented feature is reported and thrown on, anything else is reported as a trap or unknown and thrown on |
| Driver.Classify | arch/wasm32/wasm.js:966-1001 | the whole `try`/`catch` around `main()`: a zero return prints and ends quietly, a non-zero return throws an `Error` into the `catch` block |
| Driver.IsRuntimeTrap | arch/wasm32/wasm.js:983-995 | true exactly for a thrown string equal to one of the eight trap messages |
| Driver.SucceedsExactly | arch/wasm32/wasm.js:966-1001 | nothing is thrown on exactly when `main` returns 0, or when a termination has exit code 0 stored |
| Driver.NonZeroReturnIsUnknownError | arch/wasm32/wasm.js:966-973 | a non-zero return flushes, prints the return, flushes an empty buffer, reports an unknown `Error` and throws it on |
| Driver.TerminationThrowsExitCode | arch/wasm32/wasm.js:973-978 | a termination is printed, and the stored exit code is thrown exactly when it is non-zero |
| Driver.NotYetImplementedRethrown | arch/wasm32/wasm.js:979-981 | an unimplemented feature is printed and always thrown on |
| Driver.OtherExceptionsRethrown | arch/wasm32/wasm.js:982-999 | any other exception is thrown on unchanged, and reported as a runtime trap exactly when it is one |
| Driver.Finish | arch/wasm32/wasm.js:966-1001 | run against the stdout buffer and the stored exit code, the lines and the rethrown value are the classification's, and the buffer ends empty |
| ExpandHeap.RoundUpToPage | src/malloc/wasm32/expand_heap.c:15-16 | the result is a page multiple; below the last page it is the smallest page multiple at or above `n`; in the last page it wraps to 0 |
| ExpandHeap.WholePagesUnchanged | src/malloc/wasm32/expand_heap.c:16 | a whole number of pages, 0 included, is left unchanged |
| ExpandHeap.PagesRequested | src/malloc/wasm32/expand_heap.c:16-17 | below the last page, the grow request is for the whole pages of `n`, plus one for a partial page; `n = 0` asks for 0 pages |
| ExpandHeap.RoundUpWrapsNearMax | src/malloc/wasm32/expand_heap.c:15-16 | `0xFFFFFFFF` and `0xFFFF0001` round to 0 |
| ExpandHeap.RoundUpChecked | src/malloc/wasm32/expand_heap.c:15-16 | the corrected rounding fails exactly when the page multiple does not fit in 32 bits; otherwise it is the smallest page multiple at or above `n` |
| ExpandHeap.PageAddress | src/malloc/wasm32/expand_heap.c:25 | the address of page `res` is page-aligned, and exactly `65536 * res` while that fits in 32 bits |
| ExpandHeap.ExpandHeapAsWritten | src/malloc/wasm32/expand_heap.c:13-28 | a failed grow gives null and `errno = ENOMEM` with `*pn` untouched; otherwise the result is `65536 * res` mod 2^32 and `*pn` is the rounded size |
| ExpandHeap.ExpandHeap | src/malloc/wasm32/expand_heap.c:13-28 | as written, except that a request whose rounding would wrap fails with `ENOMEM` before growing; on success `*pn` is a page multiple no smaller than the request |

## Left out

- The `math` table (arch/wasm32/wasm.js:105-248) is floating-point work and thin `Math.*` aliases. The `syscall` table (arch/wasm32/wasm.js:886-915) only prints and answers -1. Both enter the model as opaque stub tables of the `ffi` builder.
- The individual stubs that throw `NotYetImplementedException` are left out. They appear only as the exception variant `NotYetImplemented`.
- `quick_exit` calls a bare `_Exit` and fails with a JavaScript `ReferenceError`. `mmap` throws `NotYetImplementedException` for a non-zero `addr`; with `addr` 0 it reaches a bare `PROT_READ` and fails with a `ReferenceError`. Neither is modelled.
- `dlerror` always answers 0 and is not modelled.
- `dladdr` and `dlinfo` are unimplemented stubs and are left out.
- `print`, `readbuffer` and `Wasm.instantiateModule` are host calls. They become parameters (a loader function) or returned values (the printed text).
- The unknown-exception line is kept as the exception value, not as text. Its text depends on the engine's `typeof` and string conversion.
- The shell engine's JavaScript doubles are not modelled. Addresses, sizes and counts are unbounded naturals or integers.
- JavaScript property lookup through `Object.prototype` is not modelled. In the shell, a library named `constructor` or `toString` would find an inherited value in `dlfcn`.
- Heap.MemCpy, Heap.MemSet, Heap.StrCmp and the other heap routines require every byte they touch to lie inside the heap array. In the shell, out-of-range stores are dropped and out-of-range reads give `undefined`. That behaviour is not modelled.
- Heap.StrCpy requires the destination to start at or before the source, or past the source string's terminator: exactly the cases where the shell's loop copies correctly.
- Heap.StrNCpy requires more: the destination may not start anywhere inside the `num` source bytes past their first byte, even when the string ends before the destination and the shell's copy would be correct. `memcpy` is modelled for overlapping ranges too, through the forward copy.
- Heap.StrNCpy and Heap.StrNCmp require all `num` bytes of both ranges to be inside the heap. The shell reads fewer when a zero byte comes first.
- Heap.StrCmp requires the right string to be readable as far as the left string's terminator.
- Dlfcn.DynamicLinker.DlSym requires a non-null `symbol` pointer to point at a terminated string, even on calls whose handle check fails first.
- Stdlib.StdlibState.Malloc takes sizes as naturals. A negative size from a 32-bit caller would lower the bump pointer in the shell.
- Stdlib.StdlibState.Calloc requires the zero-filled block to fit in the heap array. In the shell, stores past the end are dropped.
- Stdlib.IntToString writes every integer in plain decimal. JavaScript switches to exponent notation from 1e21 upwards, which no 32-bit exit code reaches; the model does not bound the code to 32 bits.
- Linker.MergeInto writes exports in an unspecified key order, as `for ... in` may. The result does not depend on the order.
- The shell checks `arguments.length` after building `ffi`. Linker.Startup takes the built `ffi` as input, and the order of the two steps does not change the outcome.

## Findings

| source | as written | input that shows it | evidently intended | confidence | as-written member | corrected member |
|---|---|---|---|---|---|---|
| arch/wasm32/wasm.js:488-510 | `memcmp`, `strcmp` and `strncmp` answer the boolean `a[i] < b[i]`, which is 1 when the left byte is smaller and 0 when it is greater | `memcmp` of `[1]` and `[0]` answers 0, the same as for equal inputs; `[0]` and `[1]` answers 1, which C reads as "greater" | a negative, zero or positive result as the first differing byte is smaller, equal or greater (section 7.24.4 of C11) | high, not executed | Heap.CompareAsWrittenGreaterReadsAsEqual | Heap.SignedCompareIsOrder |
| src/malloc/wasm32/expand_heap.c:15-16 | `n += -n & WASM_PAGE_SIZE-1` wraps for `n` above `2^32 - 65536` | `*pn = 0xFFFFFFFF` rounds to 0, so 0 pages are requested, the call succeeds, and `*pn` becomes 0 | a request that cannot be rounded fails with `ENOMEM` | low, not executed (callers may never ask for that much) | ExpandHeap.RoundUpWrapsNearMax | ExpandHeap.ExpandHeap |

The heap routines keep the as-written comparison, since callers inside the
shell observe it. `Heap.SignedCompare` is the corrected definition.
