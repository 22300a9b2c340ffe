/** The sizes of strings in UTF-8. */
module Utf8 {

  /** How many bytes a character takes. */
  function Utf8Length(c: char): nat {
    var n := c as int;
    if n < 0x80 then 1 else if n < 0x800 then 2 else if n < 0x10000 then 3 else 4
  }

  /** How many different code points fit below the given number of bytes: 7, 11, 16 and 21 bits of payload. */
  function Capacity(bytes: nat): nat
    requires 1 <= bytes <= 4
  {
    if bytes == 1 then 0x80 else 0x20 * Power(32, bytes - 1) * 2
  }

  function Power(base: nat, exponent: nat): nat {
    if exponent == 0 then 1 else base * Power(base, exponent - 1)
  }

  /** A character takes the fewest bytes it fits in. */
  lemma Utf8LengthIsLeast(c: char)
    ensures 1 <= Utf8Length(c) <= 4 && c as int < Capacity(Utf8Length(c))
    ensures forall bytes | 1 <= bytes < Utf8Length(c) :: Capacity(bytes) <= c as int
  {
    assert Power(32, 0) == 1 && Power(32, 1) == 32 && Power(32, 2) == 1024 && Power(32, 3) == 32768;
    assert Capacity(2) == 0x800 && Capacity(3) == 0x10000 && Capacity(4) == 0x200000;
  }

  function ByteLength(text: string): nat {
    if text == "" then 0 else Utf8Length(text[0]) + ByteLength(text[1..])
  }

  lemma ByteLengthOne(c: char)
    ensures ByteLength([c]) == Utf8Length(c)
  {
    assert [c][1..] == "";
  }

  lemma {:induction false} ByteLengthAppend(a: string, b: string)
    ensures ByteLength(a + b) == ByteLength(a) + ByteLength(b)
  {
    if a == "" {
      assert a + b == b;
    } else {
      ByteLengthAppend(a[1..], b);
      assert (a + b)[1..] == a[1..] + b;
    }
  }
}
