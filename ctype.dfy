/** The `ctype` stub table: character classification and case conversion in
    the spirit of C11 section 7.4. Every test first keeps the low byte of its
    argument (`c &= 0xff`); bytes 0x80-0xff are therefore printable and
    graphic here, unlike the "C" locale. Three entries name something the
    shell never defines and so throw a JavaScript error instead of answering
    whenever the call reaches that name. */
module CType {
  import opened Runtime

  /** `between(c, lower, upper)`: the low byte of `c` lies in the range. */
  function Between(c: int, lower: char, upper: char): bool
  {
    lower as int <= ToUint8(c) as int <= upper as int
  }

  function IsUpper(c: int): (r: bool)
    ensures r <==> 0x41 <= ToUint8(c) <= 0x5a
  {
    Between(c, 'A', 'Z')
  }

  function IsLower(c: int): (r: bool)
    ensures r <==> 0x61 <= ToUint8(c) <= 0x7a
  {
    Between(c, 'a', 'z')
  }

  function IsDigit(c: int): (r: bool)
    ensures r <==> 0x30 <= ToUint8(c) <= 0x39
  {
    Between(c, '0', '9')
  }

  /** `tolower`: an upper-case byte moves to its lower-case partner (masked
      to a byte); every other argument comes back unchanged, unmasked. */
  function ToLower(c: int): (r: int)
    ensures IsUpper(c) ==> 0 <= r < 256 && r == ToUint8(c) as int + 0x20 && IsLower(r)
    ensures !IsUpper(c) ==> r == c
  {
    if IsUpper(c) then ToUint8(c + 0x20) as int else c
  }

  /** `toupper`: the mirror image of `tolower`. */
  function ToUpper(c: int): (r: int)
    ensures IsLower(c) ==> 0 <= r < 256 && r == ToUint8(c) as int - 0x20 && IsUpper(r)
    ensures !IsLower(c) ==> r == c
  {
    if IsLower(c) then ToUint8(c - 0x20) as int else c
  }

  /** `isalpha` tests the lower-cased argument against 'a'..'z', which
      accepts exactly the upper- and lower-case letters. */
  function IsAlpha(c: int): (r: bool)
    ensures r <==> IsUpper(c) || IsLower(c)
  {
    Between(ToLower(c), 'a', 'z')
  }

  function IsBlank(c: int): (r: bool)
    ensures r <==> c % 256 == 9 || c % 256 == 32
  {
    var b := ToUint8(c);
    b == 0x09 || b == 0x20
  }

  function IsCntrl(c: int): (r: bool)
    ensures r <==> c % 256 < 32 || c % 256 == 127
  {
    var b := ToUint8(c);
    b <= 0x1f || b == 0x7f
  }

  /** `isprint` is "not a control byte", so it also accepts 0x80-0xff. */
  function IsPrint(c: int): (r: bool)
    ensures r <==> 0x20 <= ToUint8(c) <= 0x7e || 0x80 <= ToUint8(c)
  {
    !IsCntrl(c)
  }

  function IsGraph(c: int): (r: bool)
    ensures r <==> 0x21 <= ToUint8(c) <= 0x7e || 0x80 <= ToUint8(c)
  {
    IsPrint(c) && ToUint8(c) != 0x20
  }

  /** The bytes `isspace` scans for, in its order. */
  const Spaces: seq<byte> := [0x20, 0x09, 0x0a, 0x0b, 0x0c, 0x0d]

  /** The scan of `isspace`: does `b` equal some entry of `list`? */
  function Listed(b: byte, list: seq<byte>): (r: bool)
    ensures r <==> b in list
  {
    if list == [] then false else b == list[0] || Listed(b, list[1..])
  }

  /** `isspace` answers 1 or 0 (a number, where the others answer a
      boolean); both reach WebAssembly as the same `i32`. */
  function IsSpace(c: int): (r: int)
    ensures r == 1 <==> ToUint8(c) == 0x20 || 0x09 <= ToUint8(c) <= 0x0d
    ensures r == 0 || r == 1
  {
    if Listed(ToUint8(c), Spaces) then 1 else 0
  }

  /** `isalnum` calls `ctype.isnum`, which does not exist: a letter answers
      true through `||` short-circuiting, anything else throws. */
  function IsAlnum(c: int): (r: Completion<bool>)
    ensures r.Return? <==> IsUpper(c) || IsLower(c)
    ensures r.Return? ==> r.value
    ensures r.Throw? ==> r.exc.JsError? && r.exc.kind == TypeError
  {
    if IsAlpha(c) then Return(true)
    else Throw(JsError(TypeError, "ctype.isnum is not a function"))
  }

  /** `ispunct` is `isgraph(c) && !isalnum(c)`: false for non-graphic bytes,
      false for letters, and a `TypeError` for every other graphic byte. */
  function IsPunct(c: int): (r: Completion<bool>)
    ensures r == Return(false) <==> !IsGraph(c) || IsUpper(c) || IsLower(c)
    ensures r != Return(false) ==> r.Throw? && r.exc.JsError? && r.exc.kind == TypeError
  {
    if !IsGraph(c) then Return(false)
    else match IsAlnum(c)
      case Return(b) => Return(!b)
      case Throw(e) => Throw(e)
  }

  /** `isxdigit` calls a bare `tolower`, undefined in the shell: a decimal
      digit answers true, anything else throws a `ReferenceError`. */
  function IsXDigit(c: int): (r: Completion<bool>)
    ensures r == Return(true) <==> IsDigit(c)
    ensures !IsDigit(c) ==> r.Throw? && r.exc.JsError? && r.exc.kind == ReferenceError
  {
    if IsDigit(c) then Return(true)
    else Throw(JsError(ReferenceError, "tolower is not defined"))
  }

  /** On bytes, case conversion round-trips: converting to one case after
      the other is the same as converting to that case directly. */
  lemma {:induction false} CaseRoundTrip(c: int)
    requires 0 <= c < 256
    ensures ToLower(ToUpper(c)) == ToLower(c)
    ensures ToUpper(ToLower(c)) == ToUpper(c)
    ensures IsLower(c) ==> ToLower(ToUpper(c)) == c
    ensures IsUpper(c) ==> ToUpper(ToLower(c)) == c
  {
    assert ToUint8(c) as int == c;
    if IsLower(c) {
      assert ToUint8(ToUpper(c)) as int == c - 0x20;
    }
    if IsUpper(c) {
      assert ToUint8(ToLower(c)) as int == c + 0x20;
    }
  }
}
