/** The file-descriptor table behind `open`, `creat` and `close` of the
    `unix` stub table: 256 occupancy slots and nothing else (no file is ever
    read or written). */
module FileTable {

  const OPEN_MAX: int := 256

  const O_WRONLY: int := 0x1     // 01
  const O_CREAT: int := 0x40     // 0100
  const O_TRUNC: int := 0x200    // 01000

  class OpenFiles {
    /** `open_files`: slot `i` is occupied when descriptor `i` is open. */
    const slots: array<bool>

    ghost predicate Valid()
      reads this
    {
      slots.Length == OPEN_MAX
    }

    constructor ()
      ensures Valid() && fresh(slots)
      ensures forall i :: 0 <= i < OPEN_MAX ==> !slots[i]
    {
      slots := new bool[OPEN_MAX](_ => false);
    }

    /** `open`: takes the lowest free slot and answers its index, or -1 when
        all 256 are taken. The path, flags and mode are not looked at. */
    method Open(pathname: nat, flags: int, mode: int) returns (fd: int)
      requires Valid()
      modifies slots
      ensures fd == -1 <==> forall i :: 0 <= i < OPEN_MAX ==> old(slots[i])
      ensures fd == -1 ==> slots[..] == old(slots[..])
      ensures fd != -1 ==>
                && 0 <= fd < OPEN_MAX
                && !old(slots[fd]) && slots[fd]
                && (forall i :: 0 <= i < fd ==> old(slots[i]))
                && (forall i :: 0 <= i < OPEN_MAX && i != fd ==> slots[i] == old(slots[i]))
    {
      var i := 0;
      while i != OPEN_MAX
        invariant 0 <= i <= OPEN_MAX
        invariant forall k :: 0 <= k < i ==> slots[k]
      {
        if !slots[i] {
          slots[i] := true;
          return i;
        }
        i := i + 1;
      }
      return -1;
    }

    /** `creat`: `open` with `O_CREAT | O_WRONLY | O_TRUNC`. */
    method Creat(pathname: nat, mode: int) returns (fd: int)
      requires Valid()
      modifies slots
      ensures fd == -1 <==> forall i :: 0 <= i < OPEN_MAX ==> old(slots[i])
      ensures fd == -1 ==> slots[..] == old(slots[..])
      ensures fd != -1 ==>
                && 0 <= fd < OPEN_MAX
                && !old(slots[fd]) && slots[fd]
                && (forall i :: 0 <= i < fd ==> old(slots[i]))
                && (forall i :: 0 <= i < OPEN_MAX && i != fd ==> slots[i] == old(slots[i]))
    {
      fd := Open(pathname, O_CREAT + O_WRONLY + O_TRUNC, mode);
    }

    /** `close`: -1 unless `fd` names an occupied slot (the guard
        `fd > OPEN_MAX` lets 256 through, but reading past the array gives
        `undefined`, which also fails); otherwise the slot is freed and the
        call answers `undefined`, 0 to WebAssembly. */
    method Close(fd: int) returns (r: int)
      requires Valid()
      modifies slots
      ensures r == -1 <==> !(0 <= fd < OPEN_MAX && old(slots[fd]))
      ensures r != -1 ==> r == 0 && !slots[fd]
      ensures forall i :: 0 <= i < OPEN_MAX && i != fd ==> slots[i] == old(slots[i])
      ensures r == -1 ==> slots[..] == old(slots[..])
    {
      if fd > OPEN_MAX || !(0 <= fd < OPEN_MAX && slots[fd]) {
        return -1;
      }
      slots[fd] := false;
      return 0;
    }
  }
}
