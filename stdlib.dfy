/** The state kept by the `stdlib` stub table: the exit code that `exit`,
    `_Exit` and `abort` record, and the bump pointer behind `malloc`. */
module Stdlib {
  import opened Runtime
  import Heap

  /** The bump pointer's starting value: the bottom 16 KiB stay free. */
  const HEAP_BASE: int := 0x4000

  const EXIT_SUCCESS: int := 0
  const EXIT_FAILURE: int := 1

  /** A block handed out by `malloc`. */
  datatype Block = Block(start: nat, size: nat)

  class StdlibState {
    var exitCode: int
    var allocatedBytes: nat
    /** Every block `malloc` has handed out, in order. */
    ghost var blocks: seq<Block>

    /** The bump pointer never drops below its start, and the blocks handed
        out so far are non-empty, lie between the start and the bump
        pointer, and follow each other without overlapping. */
    ghost predicate Valid()
      reads this
    {
      && HEAP_BASE <= allocatedBytes
      && (forall i :: 0 <= i < |blocks| ==>
            && HEAP_BASE <= blocks[i].start
            && 0 < blocks[i].size
            && blocks[i].start + blocks[i].size <= allocatedBytes)
      && (forall i, j :: 0 <= i < j < |blocks| ==>
            blocks[i].start + blocks[i].size <= blocks[j].start)
    }

    constructor ()
      ensures Valid()
      ensures exitCode == 0 && allocatedBytes == HEAP_BASE && blocks == []
    {
      exitCode := 0;
      allocatedBytes := HEAP_BASE;
      blocks := [];
    }

    /** `malloc`: 0 for a zero size or once the bump pointer has passed the
        end of the heap (checked before bumping, so the last block may run
        past the end); otherwise the old bump pointer, which then moves on by
        `size`. */
    method Malloc(size: nat) returns (ptr: nat)
      requires Valid()
      modifies this`allocatedBytes, this`blocks
      ensures Valid()
      ensures size == 0 || old(allocatedBytes) > HEAP_SIZE_BYTES ==>
                ptr == 0 && allocatedBytes == old(allocatedBytes) && blocks == old(blocks)
      ensures size != 0 && old(allocatedBytes) <= HEAP_SIZE_BYTES ==>
                && ptr == old(allocatedBytes)
                && allocatedBytes == old(allocatedBytes) + size
                && blocks == old(blocks) + [Block(ptr, size)]
    {
      if size == 0 {
        return 0;
      }
      if allocatedBytes > HEAP_SIZE_BYTES {
        return 0;
      }
      allocatedBytes := allocatedBytes + size;
      ptr := allocatedBytes - size;
      blocks := blocks + [Block(ptr, size)];
    }

    /** `calloc`: `malloc` of `nmemb * size` bytes, zero-filled; 0 when that
        product is 0 or `malloc` fails. */
    method Calloc(heap: array<byte>, nmemb: nat, size: nat) returns (ptr: nat)
      requires Valid()
      requires allocatedBytes <= HEAP_SIZE_BYTES ==> allocatedBytes + nmemb * size <= heap.Length
      modifies this`allocatedBytes, this`blocks, heap
      ensures Valid()
      ensures nmemb * size == 0 || old(allocatedBytes) > HEAP_SIZE_BYTES ==>
                && ptr == 0 && allocatedBytes == old(allocatedBytes) && blocks == old(blocks)
                && heap[..] == old(heap[..])
      ensures nmemb * size != 0 && old(allocatedBytes) <= HEAP_SIZE_BYTES ==>
                && ptr == old(allocatedBytes)
                && allocatedBytes == old(allocatedBytes) + nmemb * size
                && blocks == old(blocks) + [Block(ptr, nmemb * size)]
                && (forall k :: ptr <= k < ptr + nmemb * size ==> heap[k] == 0)
                && (forall k :: 0 <= k < heap.Length && !(ptr <= k < ptr + nmemb * size) ==>
                      heap[k] == old(heap[k]))
    {
      var bytes := nmemb * size;
      if bytes == 0 {
        return 0;
      }
      var p := Malloc(bytes);
      if p != 0 {
        ptr := Heap.MemSet(heap, p, 0, bytes);
      } else {
        ptr := 0;
      }
    }

    /** `realloc`: a null pointer makes it `malloc`; otherwise a zero size
        reaches the unimplemented `free` and any other size is itself
        unimplemented. */
    method Realloc(ptr: nat, size: nat) returns (r: Completion<nat>)
      requires Valid()
      modifies this`allocatedBytes, this`blocks
      ensures Valid()
      ensures ptr != 0 ==> allocatedBytes == old(allocatedBytes) && blocks == old(blocks)
      ensures ptr != 0 && size == 0 ==> r == Throw(NotYetImplemented("free"))
      ensures ptr != 0 && size != 0 ==> r == Throw(NotYetImplemented("realloc"))
      ensures ptr == 0 ==> r.Return?
      ensures ptr == 0 && (size == 0 || old(allocatedBytes) > HEAP_SIZE_BYTES) ==>
                r.value == 0 && allocatedBytes == old(allocatedBytes) && blocks == old(blocks)
      ensures ptr == 0 && size != 0 && old(allocatedBytes) <= HEAP_SIZE_BYTES ==>
                && r.value == old(allocatedBytes)
                && allocatedBytes == old(allocatedBytes) + size
                && blocks == old(blocks) + [Block(r.value, size)]
    {
      if ptr == 0 {
        var p := Malloc(size);
        return Return(p);
      }
      if size == 0 {
        return Throw(NotYetImplemented("free"));
      }
      return Throw(NotYetImplemented("realloc"));
    }

    /** `abort`: records `EXIT_FAILURE` and throws the termination. */
    method Abort() returns (e: Thrown)
      modifies this`exitCode
      ensures exitCode == EXIT_FAILURE
      ensures e == TerminateWasm("abort()")
    {
      exitCode := EXIT_FAILURE;
      e := TerminateWasm("abort()");
    }

    /** `exit`: records its argument and throws the termination (no `atexit`
        handlers run). */
    method Exit(code: int) returns (e: Thrown)
      modifies this`exitCode
      ensures exitCode == code
      ensures e == TerminateWasm("exit(" + IntToString(code) + ")")
    {
      exitCode := code;
      e := TerminateWasm("exit(" + IntToString(code) + ")");
    }

    /** `_Exit`: as `exit`. */
    method UnderscoreExit(code: int) returns (e: Thrown)
      modifies this`exitCode
      ensures exitCode == code
      ensures e == TerminateWasm("_Exit(" + IntToString(code) + ")")
    {
      exitCode := code;
      e := TerminateWasm("_Exit(" + IntToString(code) + ")");
    }
  }

  /** Decimal text of an integer, as JavaScript's `+` writes a number. */
  function IntToString(n: int): (s: string)
    ensures |s| >= 1
    ensures s[0] == '-' <==> n < 0
    ensures forall i :: (if n < 0 then 1 else 0) <= i < |s| ==> '0' <= s[i] <= '9'
  {
    if n < 0 then "-" + NatToString(-n) else NatToString(n)
  }

  /** Decimal digits of a natural number, without leading zeros. */
  function NatToString(n: nat): (s: string)
    ensures |s| >= 1
    ensures forall i :: 0 <= i < |s| ==> '0' <= s[i] <= '9'
  {
    if n < 10 then [DigitChar(n)]
    else NatToString(n / 10) + [DigitChar(n % 10)]
  }

  function DigitChar(d: int): char
    requires 0 <= d < 10
  {
    "0123456789"[d]
  }

  /** The number a run of decimal digits denotes, most significant first. */
  function DecimalValue(s: string): int
  {
    if s == [] then 0
    else 10 * DecimalValue(s[..|s| - 1]) + (s[|s| - 1] as int - '0' as int)
  }

  /** The digits denote the number they were written for. */
  lemma {:induction false} NatToStringValue(n: nat)
    ensures DecimalValue(NatToString(n)) == n
  {
    if n < 10 {
      DigitValue(n);
    } else {
      var p, d := NatToString(n / 10), DigitChar(n % 10);
      assert NatToString(n) == p + [d];
      assert (p + [d])[..|p + [d]| - 1] == p;
      NatToStringValue(n / 10);
      DigitValue(n % 10);
    }
  }

  /** `IntToString` writes the value of a non-negative argument as its
      digits. */
  lemma IntToStringValue(n: nat)
    ensures DecimalValue(IntToString(n)) == n
  {
    NatToStringValue(n);
  }

  /** A negative argument is written as `-` followed by its magnitude's
      digits. */
  lemma NegativeIntToStringValue(n: int)
    requires n < 0
    ensures IntToString(n) == "-" + NatToString(-n)
    ensures DecimalValue(NatToString(-n)) == -n
  {
    var m: nat := -n;
    NatToStringValue(m);
    assert IntToString(n) == "-" + NatToString(m);
  }

  lemma DigitValue(d: int)
    requires 0 <= d < 10
    ensures DigitChar(d) as int - '0' as int == d
    ensures DecimalValue([DigitChar(d)]) == d
  {
    assert DecimalValue([DigitChar(d)]) == 10 * DecimalValue([]) + (DigitChar(d) as int - '0' as int);
  }
}
