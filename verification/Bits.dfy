/** Bits of byte buffers, numbered least significant first. */
module Bits {

  type Byte = bv8
  type Word = bv32

  /** 1 << shift */
  function Mask(shift: nat): Byte
    requires shift < 8
  {
    match shift
    case 0 => 0x01
    case 1 => 0x02
    case 2 => 0x04
    case 3 => 0x08
    case 4 => 0x10
    case 5 => 0x20
    case 6 => 0x40
    case 7 => 0x80
  }

  function GetBit(x: Byte, shift: nat): bool
    requires shift < 8
  {
    x & Mask(shift) != 0
  }

  /** The bits of a byte are numbered from the least significant one. */
  lemma {:induction false} BitByShift(x: Byte, s: nat)
    requires s < 8
    ensures GetBit(x, s) <==> (x >> s) & 1 != 0
  {
  }

  /** A byte is the sum of the powers of two of its bits. */
  lemma {:induction false} ByteValue(x: Byte)
    ensures x as nat == (if GetBit(x, 0) then 1 else 0) + (if GetBit(x, 1) then 2 else 0)
      + (if GetBit(x, 2) then 4 else 0) + (if GetBit(x, 3) then 8 else 0) + (if GetBit(x, 4) then 16 else 0)
      + (if GetBit(x, 5) then 32 else 0) + (if GetBit(x, 6) then 64 else 0) + (if GetBit(x, 7) then 128 else 0)
  {
  }

  /** Clears a bit and adds the new one in its place. */
  function SetBit(x: Byte, shift: nat, bit: bool): Byte
    requires shift < 8
  {
    (x & !Mask(shift)) + (if bit then Mask(shift) else 0)
  }

  lemma {:induction false} MasksApart(s: nat, t: nat)
    requires s < 8 && t < 8 && s != t
    ensures Mask(s) & Mask(t) == 0
  {
  }

  /** Setting a bit is seen at its own place and nowhere else. */
  lemma {:induction false} SetThenGet(x: Byte, s: nat, bit: bool, t: nat)
    requires s < 8 && t < 8
    ensures GetBit(SetBit(x, s, bit), t) == if s == t then bit else GetBit(x, t)
  {
    if s != t {
      MasksApart(s, t);
    } else {
      assert Mask(s) != 0;
    }
    hide Mask;
  }

  /** A byte is known by its bits. */
  lemma {:induction false} BitsDecide(x: Byte, y: Byte)
    requires forall s | 0 <= s < 8 :: GetBit(x, s) == GetBit(y, s)
    ensures x == y
  {
    assert GetBit(x, 0) == GetBit(y, 0) && GetBit(x, 1) == GetBit(y, 1) && GetBit(x, 2) == GetBit(y, 2) &&
      GetBit(x, 3) == GetBit(y, 3);
    assert GetBit(x, 4) == GetBit(y, 4) && GetBit(x, 5) == GetBit(y, 5) && GetBit(x, 6) == GetBit(y, 6) &&
      GetBit(x, 7) == GetBit(y, 7);
  }

  function BitOf(buffer: seq<Byte>, from: nat, k: nat): bool
    requires from + k / 8 < |buffer|
  {
    GetBit(buffer[from + k / 8], k % 8)
  }

  lemma {:induction false} SetBitOf(buffer: seq<Byte>, from: nat, k: nat, bit: bool, j: nat)
    requires from + k / 8 < |buffer| && from + j / 8 < |buffer|
    ensures BitOf(buffer[from + k / 8 := SetBit(buffer[from + k / 8], k % 8, bit)], from, j) ==
            if j == k then bit else BitOf(buffer, from, j)
  {
    hide GetBit, SetBit;
    SetThenGet(buffer[from + k / 8], k % 8, bit, j % 8);
  }
}
