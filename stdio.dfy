/** The one piece of state of the `stdio` stub table: the buffered standard
    output that `putchar` and `puts` append to and `__flush_stdout` hands to
    the shell's `print` and empties. */
module Stdio {
  import opened Runtime
  import Heap

  class StdoutBuffer {
    var buf: string

    constructor ()
      ensures buf == ""
    {
      buf := "";
    }

    /** `putchar`: appends the character of the argument's low byte and
        answers that byte. */
    method PutChar(character: int) returns (r: byte)
      modifies this
      ensures r == ToUint8(character)
      ensures buf == old(buf) + [FromCharCode(r)]
    {
      r := ToUint8(character);
      buf := buf + [FromCharCode(r)];
    }

    /** `puts`: appends the string at `str` and a newline. */
    method PutS(heap: array<byte>, str: nat)
      requires Heap.Terminated(heap[..], str)
      modifies this
      ensures buf == old(buf) + Heap.CString(heap[..], str) + "\n"
    {
      var s := Heap.StringFromHeap(heap, str);
      buf := buf + s + "\n";
    }

    /** `__flush_stdout`: what was buffered goes to `print`, and the buffer
        is emptied. */
    method FlushStdout() returns (printed: string)
      modifies this
      ensures printed == old(buf)
      ensures buf == ""
    {
      printed := buf;
      buf := "";
    }
  }
}
