/** Values shared by every part of the shell runtime: bytes of the linear
    memory, JavaScript property names, what a stub table or a module export
    can hold, and the exceptions the shell throws. */
module Runtime {

  /** One element of the `Uint8Array` view of the linear memory. */
  newtype byte = x: int | 0 <= x < 256

  /** Size of the one linear memory the shell allocates at start-up. */
  const HEAP_SIZE_BYTES: int := 0x100_0000

  /** JavaScript strings, used for property names, paths and output. */
  type Name = string

  /** What a property of a stub table, or an export of a module, holds:
      a callable, a memory instance, or a plain number (a constant such as
      `NULL` or `EOF`). Identities stand for distinct JavaScript objects. */
  datatype Value = Function(id: nat) | Memory(id: nat) | Number(n: int)

  /** A module's exports by name: what `load_wasm` returns. */
  type Exports = map<Name, Value>

  datatype ErrorKind = PlainError | TypeError | ReferenceError

  /** Everything the shell code throws or lets through. */
  datatype Thrown =
    | TerminateWasm(reason: string)        // TerminateWasmException
    | NotYetImplemented(what: string)      // NotYetImplementedException
    | JsString(s: string)                  // a thrown string (engine traps)
    | JsError(kind: ErrorKind, message: string)
    | JsNumber(n: int)                     // `throw exit_code`
    | LoadFailure(path: Name)              // whatever reading or instantiating a module throws

  /** The outcome of evaluating a JavaScript call: it returns or it throws. */
  datatype Completion<T> = Return(value: T) | Throw(exc: Thrown)

  datatype Option<T> = None | Some(value: T)

  /** `x & 0xff` and the store of `x` into a `Uint8Array` element: both keep
      the low eight bits of the two's-complement value. */
  function ToUint8(x: int): (b: byte)
    ensures (b as int - x) % 256 == 0
  {
    (x % 256) as byte
  }

  /** A JavaScript boolean handed back to WebAssembly as an `i32`. */
  function BoolToI32(b: bool): (r: int)
    ensures r == 0 <==> !b
    ensures 0 <= r <= 1
  {
    if b then 1 else 0
  }

  /** `String.fromCharCode` of one byte. */
  function FromCharCode(b: byte): (c: char)
    ensures c as int == b as int
  {
    (b as int) as char
  }

  /** The characters `String.fromCharCode` gives for a run of bytes. */
  function Chars(bs: seq<byte>): (s: string)
    ensures |s| == |bs|
    ensures forall i :: 0 <= i < |bs| ==> s[i] == FromCharCode(bs[i])
  {
    seq(|bs|, i requires 0 <= i < |bs| => FromCharCode(bs[i]))
  }
}
