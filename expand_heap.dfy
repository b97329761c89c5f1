/** `__expand_heap` of the wasm32 port of musl's allocator: the requested
    size is rounded up to whole WebAssembly pages and the memory is grown
    by that many pages. `size_t`, `unsigned` and pointers are all 32 bits
    wide, so the arithmetic wraps modulo 2^32. */
module ExpandHeap {
  import opened Runtime

  const U32_LIMIT: int := 0x1_0000_0000

  /** `size_t`, `unsigned` and `void *` on wasm32. */
  newtype u32 = x: int | 0 <= x < 0x1_0000_0000

  const WASM_PAGE_SIZE: int := 65536

  /** `errno` value for a failed allocation. */
  const ENOMEM: int := 12

  /** What `memory.grow` answers when the memory cannot grow. */
  const GROW_FAILED: u32 := 0xFFFF_FFFF

  /** `n += -n & WASM_PAGE_SIZE-1` in 32-bit unsigned arithmetic: the
      negation is taken modulo 2^32, the mask keeps its low sixteen bits,
      and the sum wraps again. Below the last page the result is the
      smallest multiple of the page size at or above `n`; in the last page
      (above `2^32 - 65536`) the sum wraps to 0. */
  function RoundUpToPage(n: u32): (r: u32)
    ensures r as int % WASM_PAGE_SIZE == 0
    ensures n as int <= U32_LIMIT - WASM_PAGE_SIZE ==>
              n as int <= r as int < n as int + WASM_PAGE_SIZE
    ensures n as int > U32_LIMIT - WASM_PAGE_SIZE ==> r == 0
  {
    var neg := (U32_LIMIT - n as int) % U32_LIMIT;
    var pad := neg % WASM_PAGE_SIZE;
    PadToPage(n as int);
    ((n as int + pad) % U32_LIMIT) as u32
  }

  /** The padding the mask produces is what is missing to the next page
      boundary. */
  lemma PadToPage(n: int)
    requires 0 <= n < U32_LIMIT
    ensures var pad := ((U32_LIMIT - n) % U32_LIMIT) % WASM_PAGE_SIZE;
      && 0 <= pad < WASM_PAGE_SIZE
      && (n + pad) % WASM_PAGE_SIZE == 0
      && (n % WASM_PAGE_SIZE == 0 ==> pad == 0)
  {
    var q := n / WASM_PAGE_SIZE;
    var s := n % WASM_PAGE_SIZE;
    assert n == WASM_PAGE_SIZE * q + s;
    var neg := (U32_LIMIT - n) % U32_LIMIT;
    if n == 0 {
      assert neg == 0;
    } else {
      assert neg == U32_LIMIT - n;
      assert neg == WASM_PAGE_SIZE * (65536 - q - 1) + (WASM_PAGE_SIZE - s);
      if s == 0 {
        assert neg == WASM_PAGE_SIZE * (65536 - q);
      }
    }
  }

  /** A size that is already a whole number of pages, 0 included, is left
      as it is. */
  lemma WholePagesUnchanged(n: u32)
    requires n as int % WASM_PAGE_SIZE == 0
    ensures RoundUpToPage(n) == n
  {
    PadToPage(n as int);
  }

  /** The grow request asks for exactly the pages of the rounded size:
      none for a request of 0, and one more than the whole pages in `n`
      when `n` has a partial page (below the last page). */
  lemma PagesRequested(n: u32)
    requires n as int <= U32_LIMIT - WASM_PAGE_SIZE
    ensures RoundUpToPage(n) as int / WASM_PAGE_SIZE ==
              if n as int % WASM_PAGE_SIZE == 0 then n as int / WASM_PAGE_SIZE
              else n as int / WASM_PAGE_SIZE + 1
  {
    var r := RoundUpToPage(n) as int;
    var q := n as int / WASM_PAGE_SIZE;
    assert r == WASM_PAGE_SIZE * (r / WASM_PAGE_SIZE);
    if n as int % WASM_PAGE_SIZE == 0 {
      WholePagesUnchanged(n);
    } else {
      assert WASM_PAGE_SIZE * q < n as int <= r < WASM_PAGE_SIZE * q + 2 * WASM_PAGE_SIZE;
    }
  }

  /** A request in the last page below 2^32 is rounded to 0: the grow asks
      for no page, the call succeeds, and `*pn` is set to 0. */
  lemma RoundUpWrapsNearMax()
    ensures RoundUpToPage(0xFFFF_FFFF) == 0
    ensures RoundUpToPage(0xFFFF_0001) == 0
  {
  }

  /** The rounding as intended: the smallest page multiple at or above `n`,
      or nothing when that multiple does not fit in 32 bits. */
  function RoundUpChecked(n: u32): (r: Option<u32>)
    ensures r.Some? <==> n as int <= U32_LIMIT - WASM_PAGE_SIZE
    ensures r.Some? ==> && r.value as int % WASM_PAGE_SIZE == 0
                        && n as int <= r.value as int < n as int + WASM_PAGE_SIZE
  {
    if n as int > U32_LIMIT - WASM_PAGE_SIZE then None else Some(RoundUpToPage(n))
  }

  /** The thread's `errno`. */
  class Errno {
    var value: int

    constructor (v: int)
      ensures value == v
    {
      value := v;
    }
  }

  /** The address of page `res`: `WASM_PAGE_SIZE * res` in `unsigned`
      arithmetic. */
  function PageAddress(res: u32): (a: u32)
    ensures a as int % WASM_PAGE_SIZE == 0
    ensures res as int < 65536 ==> a as int == WASM_PAGE_SIZE * res as int
  {
    ((WASM_PAGE_SIZE * res as int) % U32_LIMIT) as u32
  }

  /** `__expand_heap(pn)` as written, with `memory.grow` given as `grow`,
      which takes a page count and answers the old size in pages or
      `GROW_FAILED`. On failure `errno` becomes `ENOMEM`, the result is
      null and `*pn` is untouched; on success `*pn` becomes the rounded
      size and the result is the address where the new pages start. */
  method ExpandHeapAsWritten(pn: array<u32>, errno: Errno, grow: u32 -> u32) returns (area: u32)
    requires pn.Length == 1
    modifies pn, errno
    ensures var n := RoundUpToPage(old(pn[0]));
      var res := grow((n as int / WASM_PAGE_SIZE) as u32);
      if res == GROW_FAILED then
        area == 0 && errno.value == ENOMEM && pn[0] == old(pn[0])
      else
        area == PageAddress(res) && pn[0] == n && errno.value == old(errno.value)
  {
    var n := pn[0];
    n := RoundUpToPage(n);
    var delta := (n as int / WASM_PAGE_SIZE) as u32;
    var res := grow(delta);
    if res == GROW_FAILED {
      errno.value := ENOMEM;
      return 0;
    }
    area := PageAddress(res);
    pn[0] := n;
  }

  /** `__expand_heap` as evidently intended: a request whose rounding would
      not fit in 32 bits fails like a failed grow, before any grow is
      asked for. */
  method ExpandHeap(pn: array<u32>, errno: Errno, grow: u32 -> u32) returns (area: u32)
    requires pn.Length == 1
    modifies pn, errno
    ensures RoundUpChecked(old(pn[0])).None? ==>
              area == 0 && errno.value == ENOMEM && pn[0] == old(pn[0])
    ensures RoundUpChecked(old(pn[0])).Some? ==>
              var n := RoundUpChecked(old(pn[0])).value;
              var res := grow((n as int / WASM_PAGE_SIZE) as u32);
              if res == GROW_FAILED then
                area == 0 && errno.value == ENOMEM && pn[0] == old(pn[0])
              else
                && area == PageAddress(res) && pn[0] == n && errno.value == old(errno.value)
                && old(pn[0]) <= pn[0] && pn[0] as int % WASM_PAGE_SIZE == 0
  {
    var checked := RoundUpChecked(pn[0]);
    if checked.None? {
      errno.value := ENOMEM;
      return 0;
    }
    area := ExpandHeapAsWritten(pn, errno, grow);
  }
}
