/** The byte-string routines of the `string` stub table and the heap access
    helper `stringFromHeap`, working on the `Uint8Array` view of the linear
    memory. Addresses are byte offsets; every routine requires the bytes it
    touches to lie inside the array (the shell silently ignores stores out of
    range and reads `undefined` there, which is not modelled). */
module Heap {
  import opened Runtime

  // ---------------------------------------------------------------------
  // Specification functions

  /** There is a terminating zero byte at or after `p`. */
  ghost predicate Terminated(h: seq<byte>, p: nat)
  {
    exists j :: p <= j < |h| && h[j] == 0
  }

  /** Offset from `p` of the first zero byte: the C string length. */
  function LengthAt(h: seq<byte>, p: nat): (n: nat)
    requires Terminated(h, p)
    ensures p + n < |h| && h[p + n] == 0
    ensures forall k :: p <= k < p + n ==> h[k] != 0
    decreases |h| - p
  {
    if h[p] == 0 then 0 else LengthAt(h, p + 1) + 1
  }

  /** The JavaScript string `stringFromHeap(p)` builds. */
  function CString(h: seq<byte>, p: nat): (s: string)
    requires Terminated(h, p)
    ensures |s| == LengthAt(h, p)
  {
    Chars(h[p .. p + LengthAt(h, p)])
  }

  /** Offset of the first zero byte among the `n` bytes at `p`, or `n` when
      there is none. */
  function NulOrLimit(h: seq<byte>, p: nat, n: nat): (c: nat)
    requires p + n <= |h|
    ensures c <= n
    ensures c < n ==> h[p + c] == 0
    ensures forall j :: p <= j < p + c ==> h[j] != 0
  {
    if n == 0 then 0
    else
      var c' := NulOrLimit(h, p, n - 1);
      if c' < n - 1 then c' else if h[p + n - 1] == 0 then n - 1 else n
  }

  /** How many bytes `strncmp` looks at: through the first zero byte of the
      left string, but no more than `num`. */
  function CompareSpan(h: seq<byte>, p: nat, num: nat): (n: nat)
    requires p + num <= |h|
    ensures n <= num
  {
    var c := NulOrLimit(h, p, num);
    if c < num then c + 1 else num
  }

  /** The memory after storing `h[src + i]` at `dst + i` for i = 0, 1, ...,
      n - 1 in that order: the effect of the forward byte loop, also when the
      two ranges overlap. */
  function CopyForward(h: seq<byte>, dst: nat, src: nat, n: nat): (r: seq<byte>)
    requires dst + n <= |h| && src + n <= |h|
    ensures |r| == |h|
    ensures forall k :: 0 <= k < |h| && !(dst <= k < dst + n) ==> r[k] == h[k]
  {
    if n == 0 then h
    else
      var p := CopyForward(h, dst, src, n - 1);
      p[dst + n - 1 := p[src + n - 1]]
  }

  /** Copying forward reproduces the source bytes when the destination does
      not start inside the source range past its first byte. */
  lemma {:induction false} CopyForwardCopies(h: seq<byte>, dst: nat, src: nat, n: nat)
    requires dst + n <= |h| && src + n <= |h|
    requires dst <= src || src + n <= dst
    ensures forall j :: dst <= j < dst + n ==> CopyForward(h, dst, src, n)[j] == h[j - dst + src]
  {
    if n > 0 {
      CopyForwardCopies(h, dst, src, n - 1);
    }
  }

  /** Index of the first position where two equally long runs differ, or
      their length when they are equal. */
  function Mismatch(a: seq<byte>, b: seq<byte>): (i: nat)
    requires |a| == |b|
    ensures i <= |a|
    ensures forall k :: 0 <= k < i ==> a[k] == b[k]
    ensures i < |a| ==> a[i] != b[i]
  {
    MismatchFrom(a, b, 0)
  }

  /** The first position at or after `i` where the runs differ, or their
      length. */
  function MismatchFrom(a: seq<byte>, b: seq<byte>, i: nat): (m: nat)
    requires |a| == |b| && i <= |a|
    ensures i <= m <= |a|
    ensures forall k :: i <= k < m ==> a[k] == b[k]
    ensures m < |a| ==> a[m] != b[m]
    decreases |a| - i
  {
    if i == |a| || a[i] != b[i] then i else MismatchFrom(a, b, i + 1)
  }

  /** What `memcmp`, `strcmp` and `strncmp` hand back: 0 when the runs
      agree, otherwise the JavaScript boolean `a[i] < b[i]` at the first
      difference, which reaches WebAssembly as 1 or 0. */
  function CompareAsWritten(a: seq<byte>, b: seq<byte>): int
    requires |a| == |b|
  {
    var i := Mismatch(a, b);
    if i == |a| then 0 else BoolToI32(a[i] < b[i])
  }

  /** The as-written comparison answers 1 exactly when the first difference
      is smaller on the left; 0 lumps together "equal" and "greater". */
  lemma CompareAsWrittenMeaning(a: seq<byte>, b: seq<byte>)
    requires |a| == |b|
    ensures CompareAsWritten(a, b) == 1 <==>
              exists i :: 0 <= i < |a| && a[..i] == b[..i] && a[i] < b[i]
    ensures CompareAsWritten(a, b) == 0 <==>
              a == b || exists i :: 0 <= i < |a| && a[..i] == b[..i] && a[i] > b[i]
  {
    var m := Mismatch(a, b);
    if m == |a| {
      assert a == b;
    } else {
      assert a[..m] == b[..m];
      forall i | 0 <= i < |a| && a[..i] == b[..i] && a[i] != b[i]
        ensures i == m
      {
      }
    }
  }

  /** An input that shows the lost order: the left run is greater, yet the
      answer is the same as for equal runs. */
  lemma CompareAsWrittenGreaterReadsAsEqual()
    ensures CompareAsWritten([1], [0]) == 0 && CompareAsWritten([0], [0]) == 0
    ensures CompareAsWritten([0], [1]) == 1
  {
    assert Mismatch([1], [0]) == 0;
    assert Mismatch([0], [1]) == 0;
    assert Mismatch([0], [0]) == 1 by {
      assert Mismatch([0 as byte][1..], [0 as byte][1..]) == 0;
    }
  }

  /** The comparison C11 section 7.24.4 asks for: negative, zero or positive
      as the first differing byte is smaller, absent or greater. */
  function SignedCompare(a: seq<byte>, b: seq<byte>): (r: int)
    requires |a| == |b|
    ensures -1 <= r <= 1
  {
    var i := Mismatch(a, b);
    if i == |a| then 0 else if a[i] < b[i] then -1 else 1
  }

  /** The signed comparison is zero exactly on equal runs and swaps sign when
      its arguments are swapped. */
  lemma SignedCompareIsOrder(a: seq<byte>, b: seq<byte>)
    requires |a| == |b|
    ensures SignedCompare(a, b) == 0 <==> a == b
    ensures SignedCompare(b, a) == -SignedCompare(a, b)
  {
    var i := Mismatch(a, b);
    assert Mismatch(b, a) == i;
    if i == |a| {
      assert a == b;
    }
  }

  // ---------------------------------------------------------------------
  // The routines

  /** `stringFromHeap`: the characters up to the first zero byte. */
  method StringFromHeap(heap: array<byte>, ptr: nat) returns (str: string)
    requires Terminated(heap[..], ptr)
    ensures str == CString(heap[..], ptr)
  {
    ghost var n := LengthAt(heap[..], ptr);
    str := "";
    var i := ptr;
    while heap[i] != 0
      invariant ptr <= i <= ptr + n
      invariant str == Chars(heap[ptr .. i])
      decreases ptr + n - i
    {
      str := str + [FromCharCode(heap[i])];
      i := i + 1;
    }
  }

  /** `memcpy`: copies `num` bytes forward, one at a time, and returns the
      destination. */
  method MemCpy(heap: array<byte>, dst: nat, src: nat, num: nat) returns (r: nat)
    requires dst + num <= heap.Length && src + num <= heap.Length
    modifies heap
    ensures r == dst
    ensures heap[..] == CopyForward(old(heap[..]), dst, src, num)
    ensures forall k :: 0 <= k < heap.Length && !(dst <= k < dst + num) ==> heap[k] == old(heap[k])
    ensures dst <= src || src + num <= dst ==>
              forall j :: dst <= j < dst + num ==> heap[j] == old(heap[j - dst + src])
  {
    var i := 0;
    while i != num
      invariant 0 <= i <= num
      invariant heap[..] == CopyForward(old(heap[..]), dst, src, i)
    {
      heap[dst + i] := heap[src + i];
      i := i + 1;
    }
    if dst <= src || src + num <= dst {
      CopyForwardCopies(old(heap[..]), dst, src, num);
    }
    r := dst;
  }

  /** `mempcpy`: `memcpy`, answering the address just past the copy. */
  method MemPCpy(heap: array<byte>, dst: nat, src: nat, num: nat) returns (r: nat)
    requires dst + num <= heap.Length && src + num <= heap.Length
    modifies heap
    ensures r == dst + num
    ensures heap[..] == CopyForward(old(heap[..]), dst, src, num)
  {
    var d := MemCpy(heap, dst, src, num);
    r := num + d;
  }

  /** `strcpy`: copies the string at `src` through its terminating zero. */
  method StrCpy(heap: array<byte>, dst: nat, src: nat) returns (r: nat)
    requires Terminated(heap[..], src)
    requires dst + LengthAt(heap[..], src) < heap.Length
    requires dst <= src || src + LengthAt(heap[..], src) < dst
    modifies heap
    ensures r == dst
    ensures var n := LengthAt(old(heap[..]), src);
      && (forall j :: dst <= j <= dst + n ==> heap[j] == old(heap[j - dst + src]))
      && (forall k :: 0 <= k < heap.Length && !(dst <= k <= dst + n) ==> heap[k] == old(heap[k]))
  {
    ghost var h := heap[..];
    ghost var n := LengthAt(h, src);
    var i := 0;
    while heap[src + i] != 0
      invariant 0 <= i <= n
      invariant forall j :: dst <= j < dst + i ==> heap[j] == h[j - dst + src]
      invariant forall k :: 0 <= k < heap.Length && !(dst <= k < dst + i) ==> heap[k] == h[k]
      decreases n - i
    {
      assert heap[src + i] == h[src + i];
      heap[dst + i] := heap[src + i];
      i := i + 1;
    }
    assert i == n;
    heap[dst + i] := 0;
    r := dst;
  }

  /** `strncpy`: copies at most `num` bytes of the string at `src` and pads
      the rest of the `num` bytes with zeros. */
  method StrNCpy(heap: array<byte>, dst: nat, src: nat, num: nat) returns (r: nat)
    requires dst + num <= heap.Length && src + num <= heap.Length
    requires dst <= src || src + num <= dst
    modifies heap
    ensures r == dst
    ensures var c := NulOrLimit(old(heap[..]), src, num);
      && (forall j :: dst <= j < dst + c ==> heap[j] == old(heap[j - dst + src]))
      && (forall j :: dst + c <= j < dst + num ==> heap[j] == 0)
      && (forall k :: 0 <= k < heap.Length && !(dst <= k < dst + num) ==> heap[k] == old(heap[k]))
  {
    ghost var h := heap[..];
    ghost var c := NulOrLimit(h, src, num);
    var i := 0;
    while i != num && heap[src + i] != 0
      invariant 0 <= i <= c
      invariant forall j :: dst <= j < dst + i ==> heap[j] == h[j - dst + src]
      invariant forall k :: 0 <= k < heap.Length && !(dst <= k < dst + i) ==> heap[k] == h[k]
      decreases num - i
    {
      heap[dst + i] := heap[src + i];
      i := i + 1;
    }
    assert i == c;
    PadWithZeros(heap, dst + i, dst + num);
    r := dst;
  }

  /** The second loop of `strncpy`: zeros from `lo` up to `hi`. */
  method PadWithZeros(heap: array<byte>, lo: nat, hi: nat)
    requires lo <= hi <= heap.Length
    modifies heap
    ensures forall j :: lo <= j < hi ==> heap[j] == 0
    ensures forall k :: 0 <= k < heap.Length && !(lo <= k < hi) ==> heap[k] == old(heap[k])
  {
    var i := lo;
    while i != hi
      invariant lo <= i <= hi
      invariant forall j :: lo <= j < i ==> heap[j] == 0
      invariant forall k :: 0 <= k < heap.Length && !(lo <= k < i) ==> heap[k] == old(heap[k])
      decreases hi - i
    {
      heap[i] := 0;
      i := i + 1;
    }
  }

  /** `memcmp` over `num` bytes. */
  method MemCmp(heap: array<byte>, ptr1: nat, ptr2: nat, num: nat) returns (r: int)
    requires ptr1 + num <= heap.Length && ptr2 + num <= heap.Length
    ensures r == CompareAsWritten(heap[ptr1 .. ptr1 + num], heap[ptr2 .. ptr2 + num])
  {
    ghost var a, b := heap[ptr1 .. ptr1 + num], heap[ptr2 .. ptr2 + num];
    ghost var m := Mismatch(a, b);
    var i := 0;
    while i != num
      invariant 0 <= i <= m
      decreases num - i
    {
      if heap[ptr1 + i] != heap[ptr2 + i] {
        assert a[i] != b[i];
        return BoolToI32(heap[ptr1 + i] < heap[ptr2 + i]);
      }
      assert a[i] == b[i];
      i := i + 1;
    }
    return 0;
  }

  /** `strcmp`: compares up to and including the terminating zero of the
      string at `str1`. */
  method StrCmp(heap: array<byte>, str1: nat, str2: nat) returns (r: int)
    requires Terminated(heap[..], str1)
    requires str2 + LengthAt(heap[..], str1) < heap.Length
    ensures var n := LengthAt(heap[..], str1) + 1;
      r == CompareAsWritten(heap[str1 .. str1 + n], heap[str2 .. str2 + n])
  {
    ghost var n := LengthAt(heap[..], str1) + 1;
    ghost var a, b := heap[str1 .. str1 + n], heap[str2 .. str2 + n];
    ghost var m := Mismatch(a, b);
    var i := 0;
    while true
      invariant 0 <= i <= m && i < n
      decreases n - i
    {
      if heap[str1 + i] != heap[str2 + i] {
        assert a[i] != b[i];
        return BoolToI32(heap[str1 + i] < heap[str2 + i]);
      } else if heap[str1 + i] == 0 {
        break;
      }
      assert a[i] == b[i];
      i := i + 1;
    }
    assert a[i] == b[i];
    return 0;
  }

  /** The first difference of two equally long runs is the first index
      where they disagree. */
  lemma MismatchIs(a: seq<byte>, b: seq<byte>, i: nat)
    requires |a| == |b| && i <= |a|
    requires forall k :: 0 <= k < i ==> a[k] == b[k]
    requires i < |a| ==> a[i] != b[i]
    ensures Mismatch(a, b) == i
  {
  }

  /** The `k`-th bytes of the strings at `p1` and `p2` agree, and the
      first of them is not the terminating zero. */
  ghost predicate SameNonZeroAt(h: seq<byte>, p1: nat, p2: nat, k: nat)
  {
    p1 + k < |h| && p2 + k < |h| && h[p1 + k] == h[p2 + k] && h[p1 + k] != 0
  }

  /** Where the byte loop of `strncmp` stops decides the comparison: at a
      difference, by the two bytes there; at the left string's zero byte
      or after `num` bytes, equal. */
  lemma CompareStopsAt(h: seq<byte>, p1: nat, p2: nat, num: nat, i: nat)
    requires p1 + num <= |h| && p2 + num <= |h| && i <= num
    requires forall k :: 0 <= k < i ==> SameNonZeroAt(h, p1, p2, k)
    requires i < num ==> h[p1 + i] != h[p2 + i] || h[p1 + i] == 0
    ensures var n := CompareSpan(h, p1, num);
      CompareAsWritten(h[p1 .. p1 + n], h[p2 .. p2 + n]) ==
        if i < num && h[p1 + i] != h[p2 + i] then BoolToI32(h[p1 + i] < h[p2 + i]) else 0
  {
    var c := NulOrLimit(h, p1, num);
    var n := CompareSpan(h, p1, num);
    var a, b := h[p1 .. p1 + n], h[p2 .. p2 + n];
    forall j | p1 <= j < p1 + i
      ensures h[j] != 0
    {
      assert SameNonZeroAt(h, p1, p2, j - p1);
    }
    assert c >= i;
    forall k | 0 <= k < i && k < n
      ensures a[k] == b[k]
    {
      assert SameNonZeroAt(h, p1, p2, k);
    }
    if i < num && h[p1 + i] != h[p2 + i] {
      MismatchIs(a, b, i);
    } else if i < num {
      assert c == i;
      MismatchIs(a, b, n);
    } else {
      MismatchIs(a, b, n);
    }
  }

  /** `strncmp`: like `strcmp`, but looks at no more than `num` bytes. */
  method StrNCmp(heap: array<byte>, str1: nat, str2: nat, num: nat) returns (r: int)
    requires str1 + num <= heap.Length && str2 + num <= heap.Length
    ensures var n := CompareSpan(heap[..], str1, num);
      r == CompareAsWritten(heap[str1 .. str1 + n], heap[str2 .. str2 + n])
  {
    var i := 0;
    while i != num
      invariant 0 <= i <= num
      invariant forall k :: 0 <= k < i ==> SameNonZeroAt(heap[..], str1, str2, k)
      decreases num - i
    {
      if heap[str1 + i] != heap[str2 + i] {
        CompareStopsAt(heap[..], str1, str2, num, i);
        return BoolToI32(heap[str1 + i] < heap[str2 + i]);
      } else if heap[str1 + i] == 0 {
        break;
      }
      i := i + 1;
    }
    CompareStopsAt(heap[..], str1, str2, num, i);
    return 0;
  }

  /** `strchr`: the OFFSET (not the address) of the first occurrence of the
      byte `character & 0xff`, or of the terminating zero when there is none
      (the trailing `? i : 0` never picks 0, since the loop only stops on a
      zero byte). */
  method StrChr(heap: array<byte>, str: nat, character: int) returns (r: nat)
    requires Terminated(heap[..], str)
    ensures r <= LengthAt(heap[..], str)
    ensures r < LengthAt(heap[..], str) ==> heap[str + r] == ToUint8(character)
    ensures forall j :: str <= j < str + r ==> heap[j] != ToUint8(character)
  {
    ghost var n := LengthAt(heap[..], str);
    var ch := ToUint8(character);
    var i := 0;
    while heap[str + i] != 0
      invariant 0 <= i <= n
      invariant forall j :: str <= j < str + i ==> heap[j] != ch
      decreases n - i
    {
      if heap[str + i] == ch {
        return i;
      }
      i := i + 1;
    }
    r := if heap[str + i] == 0 then i else 0;
  }

  /** `strlen`: the offset of the first zero byte. */
  method StrLen(heap: array<byte>, str: nat) returns (r: nat)
    requires Terminated(heap[..], str)
    ensures r == LengthAt(heap[..], str)
  {
    ghost var n := LengthAt(heap[..], str);
    var i := 0;
    while true
      invariant 0 <= i <= n
      decreases n - i
    {
      if heap[str + i] == 0 {
        return i;
      }
      i := i + 1;
    }
  }

  /** `strrchr`: the ADDRESS of the last occurrence of `character & 0xff` in
      the string, the address of its terminator when that byte is 0, and 0
      when it does not occur. */
  method StrRChr(heap: array<byte>, str: nat, character: int) returns (r: nat)
    requires Terminated(heap[..], str)
    ensures var n := LengthAt(heap[..], str);
      var ch := ToUint8(character);
      && (ch == 0 ==> r == str + n)
      && (ch != 0 && (forall j :: str <= j < str + n ==> heap[j] != ch) ==> r == 0)
      && (ch != 0 && (exists j :: str <= j < str + n && heap[j] == ch) ==>
            str <= r < str + n && heap[r] == ch &&
            forall j :: r < j < str + n ==> heap[j] != ch)
  {
    ghost var n := LengthAt(heap[..], str);
    var ch := ToUint8(character);
    if ch == 0 {
      var len := StrLen(heap, str);
      return str + len;
    }
    var found := str;
    var i := 0;
    while heap[str + i] != 0
      invariant 0 <= i <= n
      invariant str <= found <= str + i
      invariant found != str ==> heap[found] == ch
      invariant forall j :: found < j < str + i ==> heap[j] != ch
      decreases n - i
    {
      if heap[str + i] == ch {
        found := str + i;
      }
      i := i + 1;
    }
    r := if heap[found] == ch then found else 0;
  }

  /** `memset`: stores `value & 0xff` in each of `num` bytes from `ptr`. */
  method MemSet(heap: array<byte>, ptr: nat, value: int, num: nat) returns (r: nat)
    requires ptr + num <= heap.Length
    modifies heap
    ensures r == ptr
    ensures forall k :: ptr <= k < ptr + num ==> heap[k] == ToUint8(value)
    ensures forall k :: 0 <= k < heap.Length && !(ptr <= k < ptr + num) ==> heap[k] == old(heap[k])
  {
    var i := 0;
    while i != num
      invariant 0 <= i <= num
      invariant forall k :: ptr <= k < ptr + i ==> heap[k] == ToUint8(value)
      invariant forall k :: 0 <= k < heap.Length && !(ptr <= k < ptr + i) ==> heap[k] == old(heap[k])
    {
      heap[ptr + i] := ToUint8(value);
      i := i + 1;
    }
    r := ptr;
  }
}
