/** Packing values into bit fields of a byte buffer, on a little-endian machine.  A machine word is the sequence of its
    bits, least significant first. */
module BitFields {
  import opened Arithmetic
  import opened Bits

  type Bitstring = seq<bool>

  // ----- numbers and bits

  function Bit(v: nat, k: nat): bool {
    if k == 0 then v % 2 == 1 else Bit(v / 2, k - 1)
  }

  function Low(v: nat, n: nat): (w: Bitstring)
    ensures |w| == n && forall k | 0 <= k < n :: w[k] == Bit(v, k)
  {
    seq(n, k requires 0 <= k < n => Bit(v, k))
  }

  function Number(w: Bitstring): nat {
    if w == [] then 0 else (if w[0] then 1 else 0) + 2 * Number(w[1..])
  }

  function TwoTo(n: nat): (p: nat)
    ensures p > 0
  {
    if n == 0 then 1 else 2 * TwoTo(n - 1)
  }

  /** Reading the low bits of a number gives its remainder. */
  lemma {:induction false} NumberLow(v: nat, n: nat)
    ensures Number(Low(v, n)) == v % TwoTo(n)
  {
    if n > 0 {
      assert Low(v, n)[1..] == Low(v / 2, n - 1);
      NumberLow(v / 2, n - 1);
      Halves(v, TwoTo(n - 1));
    }
  }

  lemma {:induction false} NumberZeros(w: Bitstring)
    requires forall k | 0 <= k < |w| :: !w[k]
    ensures Number(w) == 0
  {
    if w != [] {
      NumberZeros(w[1..]);
    }
  }

  /** High zeros do not count. */
  lemma {:induction false} NumberPrefix(w: Bitstring, n: nat)
    requires n <= |w| && forall k | n <= k < |w| :: !w[k]
    ensures Number(w) == Number(w[..n])
  {
    if n == 0 {
      NumberZeros(w);
    } else {
      assert w[..n][1..] == w[1..][..n - 1];
      NumberPrefix(w[1..], n - 1);
    }
  }

  // ----- word operations

  function Ones(n: nat): (w: Bitstring)
    ensures |w| == n && forall k | 0 <= k < n :: w[k]
  {
    seq(n, _ => true)
  }

  function ShiftLeft(w: Bitstring, n: nat): (r: Bitstring)
    ensures |r| == |w| && forall k | 0 <= k < |w| :: r[k] == (k >= n && w[k - n])
  {
    seq(|w|, k requires 0 <= k < |w| => k >= n && w[k - n])
  }

  function ShiftRight(w: Bitstring, n: nat): (r: Bitstring)
    ensures |r| == |w| && forall k | 0 <= k < |w| :: r[k] == (k + n < |w| && w[k + n])
  {
    seq(|w|, k requires 0 <= k < |w| => k + n < |w| && w[k + n])
  }

  function And(v: Bitstring, w: Bitstring): (r: Bitstring)
    requires |v| == |w|
    ensures |r| == |w| && forall k | 0 <= k < |w| :: r[k] == (v[k] && w[k])
  {
    seq(|w|, k requires 0 <= k < |w| => v[k] && w[k])
  }

  function Or(v: Bitstring, w: Bitstring): (r: Bitstring)
    requires |v| == |w|
    ensures |r| == |w| && forall k | 0 <= k < |w| :: r[k] == (v[k] || w[k])
  {
    seq(|w|, k requires 0 <= k < |w| => v[k] || w[k])
  }

  function Not(w: Bitstring): (r: Bitstring)
    ensures |r| == |w| && forall k | 0 <= k < |w| :: r[k] == !w[k]
  {
    seq(|w|, k requires 0 <= k < |w| => !w[k])
  }

  function Load(buffer: seq<Byte>, at: nat, width: nat): (w: Bitstring)
    requires 8 * at + width <= 8 * |buffer|
    ensures |w| == width && forall k | 0 <= k < width :: w[k] == BitOf(buffer, at, k)
  {
    seq(width, k requires 0 <= k < width => BitOf(buffer, at, k))
  }

  method Store(target: array<Byte>, at: nat, w: Bitstring)
    requires 8 * at + |w| <= 8 * target.Length
    modifies target
    ensures forall k | 0 <= k < 8 * target.Length ::
      BitOf(target[..], 0, k) == if 8 * at <= k < 8 * at + |w| then w[k - 8 * at] else BitOf(old(target[..]), 0, k)
  {
    hide BitOf, SetBit;
    for i := 0 to |w|
      invariant forall k | 0 <= k < 8 * target.Length ::
        BitOf(target[..], 0, k) == if 8 * at <= k < 8 * at + i then w[k - 8 * at] else BitOf(old(target[..]), 0, k)
    {
      var b := 8 * at + i;
      ghost var was := target[..];
      target[b / 8] := SetBit(target[b / 8], b % 8, w[i]);
      assert target[..] == was[0 + b / 8 := SetBit(was[0 + b / 8], b % 8, w[i])];
      forall k | 0 <= k < 8 * target.Length
        ensures BitOf(target[..], 0, k) == if k == b then w[i] else BitOf(was, 0, k)
      {
        SetBitOf(was, 0, b, w[i], k);
      }
    }
  }

  // ----- bytes as one number

  lemma {:induction false} NumberBound(w: Bitstring)
    ensures Number(w) < TwoTo(|w|)
  {
    if w != [] {
      NumberBound(w[1..]);
    }
  }

  lemma {:induction false} NumberAppend(u: Bitstring, w: Bitstring)
    ensures Number(u + w) == Number(u) + TwoTo(|u|) * Number(w)
  {
    hide Number, TwoTo;
    if u == [] {
      assert u + w == w;
      Nothing();
    } else {
      assert (u + w)[1..] == u[1..] + w;
      NumberAppend(u[1..], w);
      Head(u);
      Head(u + w);
      Twice(TwoTo(|u| - 1), Number(w));
    }
  }

  lemma {:induction false} Nothing()
    ensures Number([]) == 0 && TwoTo(0) == 1
  {
  }

  lemma {:induction false} Head(w: Bitstring)
    requires w != []
    ensures Number(w) == (if w[0] then 1 else 0) + 2 * Number(w[1..]) && TwoTo(|w|) == 2 * TwoTo(|w| - 1)
  {
  }

  lemma {:induction false} Twice(p: nat, n: nat)
    ensures 2 * (p * n) == (2 * p) * n
  {
  }

  /** The lower bits are the remainder, the higher ones the quotient. */
  lemma {:induction false} NumberSlices(w: Bitstring, i: nat)
    requires i <= |w|
    ensures Number(w[..i]) == Number(w) % TwoTo(i) && Number(w[i..]) == Number(w) / TwoTo(i)
  {
    hide Number, TwoTo;
    assert w[..i] + w[i..] == w;
    NumberAppend(w[..i], w[i..]);
    NumberBound(w[..i]);
    DivMod(Number(w), TwoTo(i), Number(w[i..]), Number(w[..i]));
  }

  /** The number `after` has the low bits of `value` in the field that starts at bit `start`, and else those of
      `before`. */
  predicate FieldReplaced(before: nat, after: nat, start: nat, length: nat, value: nat) {
    after == before % TwoTo(start) + TwoTo(start) * (value % TwoTo(length))
             + TwoTo(start + length) * (before / TwoTo(start + length))
  }

  predicate FieldOnly(was: Bitstring, now: Bitstring, start: nat, length: nat, value: nat) {
    && |was| == |now| && start + length <= |was|
    && forall k | 0 <= k < |was| :: now[k] == if start <= k < start + length then Bit(value, k - start) else was[k]
  }

  /** Replacing the bits of a field replaces the field in the number. */
  lemma {:induction false} ReplacedNumber(was: Bitstring, now: Bitstring, start: nat, length: nat, value: nat)
    requires FieldOnly(was, now, start, length, value)
    ensures FieldReplaced(Number(was), Number(now), start, length, value)
  {
    hide Number, TwoTo, Bit;
    var low, field, high := was[..start], Low(value, length), was[start + length..];
    assert now == low + field + high;
    NumberAppend(low + field, high);
    NumberAppend(low, field);
    NumberLow(value, length);
    NumberSlices(was, start);
    NumberSlices(was, start + length);
  }

  /** The number that the bytes represent, least significant byte first. */
  function Value(b: seq<Byte>): nat {
    if b == [] then 0 else b[0] as nat + 0x100 * Value(b[1..])
  }

  function BitsOf(b: seq<Byte>): (w: Bitstring)
    ensures |w| == 8 * |b| && forall k | 0 <= k < 8 * |b| :: w[k] == BitOf(b, 0, k)
  {
    Load(b, 0, 8 * |b|)
  }

  function ByteBits(x: Byte): (w: Bitstring)
    ensures |w| == 8 && forall s | 0 <= s < 8 :: w[s] == GetBit(x, s)
  {
    seq(8, s requires 0 <= s < 8 => GetBit(x, s))
  }

  function Sum(p: bool, q: bool, r: bool, s: bool): nat {
    (if p then 1 else 0) + (if q then 2 else 0) + (if r then 4 else 0) + (if s then 8 else 0)
  }

  lemma {:induction false} EightBits(w: Bitstring)
    requires |w| == 8
    ensures Number(w) == Number(w[..4]) + 16 * Number(w[4..])
    ensures Number(w[..4]) == Sum(w[0], w[1], w[2], w[3]) && Number(w[4..]) == Sum(w[4], w[5], w[6], w[7])
  {
    assert w[..4] + w[4..] == w;
    NumberAppend(w[..4], w[4..]);
    FourBits(w[..4]);
    FourBits(w[4..]);
    assert TwoTo(4) == 2 * TwoTo(3) == 4 * TwoTo(2) == 8 * TwoTo(1) == 16;
  }

  lemma {:induction false} FourBits(w: Bitstring)
    requires |w| == 4
    ensures Number(w) == Sum(w[0], w[1], w[2], w[3])
  {
    var t, u, v := w[1..], w[2..], w[3..];
    assert t[1..] == u && u[1..] == v && v[1..] == [];
    assert Number(v) == (if v[0] then 1 else 0) && Number(u) == (if u[0] then 1 else 0) + 2 * Number(v);
    assert Number(t) == (if t[0] then 1 else 0) + 2 * Number(u);
  }

  /** A byte is the number of its bits. */
  lemma {:induction false} ByteNumber(x: Byte)
    ensures Number(ByteBits(x)) == x as nat
  {
    hide Number, GetBit;
    EightBits(ByteBits(x));
    ByteValue(x);
  }

  /** The bits of a buffer, byte by byte, are the bits of the number it represents. */
  lemma {:induction false} ValueNumber(b: seq<Byte>)
    ensures Value(b) == Number(BitsOf(b))
  {
    if b == [] {
      assert BitsOf(b) == [];
    } else {
      hide GetBit;
      assert BitsOf(b) == ByteBits(b[0]) + BitsOf(b[1..]);
      hide Number;
      NumberAppend(ByteBits(b[0]), BitsOf(b[1..]));
      ByteNumber(b[0]);
      ValueNumber(b[1..]);
      assert TwoTo(8) == 2 * TwoTo(7) == 4 * TwoTo(6) == 8 * TwoTo(5) == 16 * TwoTo(4) == 32 * TwoTo(3) == 0x100;
    }
  }

  // ----- least significant bit first

  /** The word that is read and written: 8, 16, 32 or 64 bits; wider fields are refused. */
  function Width(span: nat): (w: nat)
    ensures span <= 64 ==> span <= w && (w == 8 || w == 16 || w == 32 || w == 64)
    ensures span > 64 ==> w == 0
  {
    if span <= 8 then 8 else if span <= 16 then 16 else if span <= 32 then 32 else if span <= 64 then 64 else 0
  }

  /** Set for the bits of the field. */
  function FieldMask(offset: nat, length: nat): (m: Bitstring)
    requires 1 <= length <= 64
    ensures |m| == 64 && forall k | 0 <= k < 64 :: m[k] == (offset <= k < offset + length)
  {
    ShiftLeft(ShiftRight(Ones(64), 64 - length), offset)
  }

  /** Masking and merging in one word puts the value into the field and keeps the rest. */
  lemma {:induction false} Merged(buffer: seq<Byte>, at: nat, value: nat, offset: nat, length: nat, width: nat,
      word: Bitstring)
    requires 1 <= length && offset + length <= width <= 64 && 8 * at + width <= 8 * |buffer|
    requires var mask := FieldMask(offset, length);
      word ==
        Or(And(Load(buffer, at, width), Not(mask)[..width]), And(ShiftLeft(Low(value, 64), offset), mask)[..width])
    ensures |word| == width
    ensures forall k | 0 <= k < width ::
      word[k] == if offset <= k < offset + length then Bit(value, k - offset) else BitOf(buffer, 0, 8 * at + k)
  {
    hide BitOf, Bit;
    forall k | 0 <= k < width
      ensures word[k] == if offset <= k < offset + length then Bit(value, k - offset) else BitOf(buffer, 0, 8 * at + k)
    {
      SameBit(buffer, at, k);
    }
  }

  /** The field gets the low bits of the value, and nothing else changes; a field that reaches beyond 64 bits from the
      start of its first byte is not written at all. */
  method PackBitsBE(target: array<Byte>, value: nat, byteOffset: nat, bitOffset: nat, length: nat) returns (end: nat)
    requires 1 <= length <= 64
    requires byteOffset + bitOffset / 8 + Width(bitOffset % 8 + length) / 8 <= target.Length
    modifies target
    ensures end == 8 * byteOffset + bitOffset + length
    ensures var start := 8 * byteOffset + bitOffset;
      forall k | 0 <= k < 8 * target.Length ::
        BitOf(target[..], 0, k) ==
        if bitOffset % 8 + length <= 64 && start <= k < end then Bit(value, k - start) else BitOf(old(target[..]), 0, k)
    ensures bitOffset % 8 + length <= 64 ==>
      FieldReplaced(Value(old(target[..])), Value(target[..]), 8 * byteOffset + bitOffset, length, value)
  {
    hide BitOf, Bit, Low, Load, And, Or, Not, ShiftLeft, FieldMask, Width, FieldReplaced, Value, FieldOnly;
    ghost var was := target[..];
    var at := byteOffset + bitOffset / 8;
    var offset := bitOffset % 8;
    var bitmask := FieldMask(offset, length);
    var shifted := And(ShiftLeft(Low(value, 64), offset), bitmask);
    bitmask := Not(bitmask);
    var width := Width(length + offset);
    if width > 0 {
      var word := Load(target[..], at, width);
      word := And(word, bitmask[..width]);
      word := Or(word, shifted[..width]);
      Merged(target[..], at, value, offset, length, width, word);
      Store(target, at, word);
      ReplacedValue(was, target[..], 8 * at + offset, length, value);
    }
    end := 8 * at + offset + length;
  }

  lemma {:induction false} ReplacedValue(was: seq<Byte>, now: seq<Byte>, start: nat, length: nat, value: nat)
    requires |was| == |now| && start + length <= 8 * |was|
    requires forall k | 0 <= k < 8 * |now| ::
      BitOf(now, 0, k) == if start <= k < start + length then Bit(value, k - start) else BitOf(was, 0, k)
    ensures FieldReplaced(Value(was), Value(now), start, length, value)
  {
    hide BitOf, Bit, FieldReplaced, Value, Number;
    ValueNumber(was);
    ValueNumber(now);
    ReplacedNumber(BitsOf(was), BitsOf(now), start, length, value);
  }

  lemma {:induction false} SameBit(buffer: seq<Byte>, at: nat, k: nat)
    requires at + k / 8 < |buffer|
    ensures 8 * at + k < 8 * |buffer| && BitOf(buffer, at, k) == BitOf(buffer, 0, 8 * at + k)
  {
    hide GetBit;
    assert (8 * at + k) / 8 == at + k / 8 && (8 * at + k) % 8 == k % 8;
  }

  /** The bits of a field, least significant first. */
  function Field(buffer: seq<Byte>, start: nat, length: nat): (f: Bitstring)
    requires start + length <= 8 * |buffer|
    ensures |f| == length && forall k | 0 <= k < length :: f[k] == BitOf(buffer, 0, start + k)
  {
    seq(length, k requires 0 <= k < length => BitOf(buffer, 0, start + k))
  }

  method UnpackBitsBE(target: seq<Byte>, byteOffset: nat, bitOffset: nat, length: nat) returns (value: nat)
    requires 1 <= length <= 64
    requires byteOffset + bitOffset / 8 + Width(bitOffset % 8 + length) / 8 <= |target|
    ensures bitOffset % 8 + length <= 64 ==>
      8 * byteOffset + bitOffset + length <= 8 * |target| &&
        value == Number(Field(target, 8 * byteOffset + bitOffset, length)) &&
        value == Value(target) / TwoTo(8 * byteOffset + bitOffset) % TwoTo(length)
    ensures bitOffset % 8 + length > 64 ==> value == 0
  {
    hide BitOf, Number, Value, TwoTo;
    var at := byteOffset + bitOffset / 8;
    var offset := bitOffset % 8;
    var bitmask := FieldMask(offset, length);
    var width := Width(length + offset);
    if width == 0 {
      return 0;
    }
    var word := ShiftRight(And(Load(target, at, width), bitmask[..width]), offset);
    forall k | 0 <= k < length
      ensures word[k] == BitOf(target, 0, 8 * at + offset + k)
    {
      SameBit(target, at, k + offset);
    }
    NumberPrefix(word, length);
    assert word[..length] == Field(target, 8 * at + offset, length);
    FieldValue(target, 8 * at + offset, length);
    value := Number(word);
  }

  lemma {:induction false} FieldValue(buffer: seq<Byte>, start: nat, length: nat)
    requires start + length <= 8 * |buffer|
    ensures Number(Field(buffer, start, length)) == Value(buffer) / TwoTo(start) % TwoTo(length)
  {
    hide BitOf, Value, Number, TwoTo;
    var w := BitsOf(buffer);
    ValueNumber(buffer);
    NumberSlices(w, start);
    NumberSlices(w[start..], length);
    assert Field(buffer, start, length) == w[start..][..length];
  }

  /** Unpacking what was packed gives the value modulo 2^length. */
  method RoundTripBE(target: array<Byte>, value: nat, byteOffset: nat, bitOffset: nat, length: nat) returns (back: nat)
    requires 1 <= length && bitOffset % 8 + length <= 64
    requires byteOffset + bitOffset / 8 + Width(bitOffset % 8 + length) / 8 <= target.Length
    modifies target
    ensures back == value % TwoTo(length)
  {
    hide BitOf, Bit, Number, TwoTo, Value, FieldReplaced;
    var end := PackBitsBE(target, value, byteOffset, bitOffset, length);
    back := UnpackBitsBE(target[..], byteOffset, bitOffset, length);
    assert Field(target[..], 8 * byteOffset + bitOffset, length) == Low(value, length);
    NumberLow(value, length);
  }

  // ----- most significant bit first

  /** The bit at a position counted from the most significant bit of the first byte. */
  function MsbOf(buffer: seq<Byte>, p: nat): bool
    requires p < 8 * |buffer|
  {
    GetBit(buffer[p / 8], 7 - p % 8)
  }

  /** Bytes in the opposite order. */
  function Mirrored(buffer: seq<Byte>, at: nat, n: nat): (m: seq<Byte>)
    requires at + n <= |buffer|
    ensures |m| == n && forall j | 0 <= j < n :: m[j] == buffer[at + n - 1 - j]
  {
    seq(n, j requires 0 <= j < n => buffer[at + n - 1 - j])
  }

  /** Bit k of the mirrored bytes is the bit k from the end. */
  lemma {:induction false} MirroredBit(buffer: seq<Byte>, at: nat, n: nat, k: nat)
    requires at + n <= |buffer| && k < 8 * n
    ensures BitOf(Mirrored(buffer, at, n), 0, k) == MsbOf(buffer, 8 * at + (8 * n - 1 - k))
  {
    hide GetBit;
    var p := 8 * at + (8 * n - 1 - k);
    assert p / 8 == at + n - 1 - k / 8 && p % 8 == 7 - k % 8;
  }

  /** The word used inside the mirrored bytes does not reach beyond them. */
  predicate Mirrorable(span: nat) {
    span <= 16 || 25 <= span <= 32 || 57 <= span <= 64
  }

  /** Where the field starts in the mirrored bytes. */
  function MirroredOffset(offset: nat, length: nat): (o: nat)
    requires offset + length <= 64
    ensures o + offset + length == Width(offset + length)
  {
    Width(offset + length) - (offset + length)
  }

  /** The word used inside the mirrored bytes ends within them exactly for these spans, and never more than three bytes
      behind them. */
  lemma {:induction false} MirrorReach(offset: nat, length: nat)
    requires offset < 8 && 1 <= length && offset + length <= 64
    ensures var n, o := Width(offset + length) / 8, MirroredOffset(offset, length);
      && (o / 8 + Width(o % 8 + length) / 8 <= n <==> Mirrorable(offset + length))
      && o % 8 + length <= 64 && o / 8 + Width(o % 8 + length) / 8 <= n + 3
  {
  }

  /** A field of 20 bits is such a one, and one of 33 bits reaches all three bytes. */
  lemma {:induction false} ReachedBehind()
    ensures MirroredOffset(0, 20) / 8 + Width(MirroredOffset(0, 20) % 8 + 20) / 8 == Width(20) / 8 + 1
    ensures MirroredOffset(0, 33) / 8 + Width(MirroredOffset(0, 33) % 8 + 33) / 8 == Width(33) / 8 + 3
  {
  }

  /** What lies behind the mirrored bytes: the three bytes that the word may reach, unless it reaches none. */
  predicate Behind(behind: seq<Byte>, span: nat) {
    span <= 64 ==> Mirrorable(span) || |behind| >= 3
  }

  /** The bits of a field, least significant first; the last position is the least significant one. */
  function MsbField(buffer: seq<Byte>, start: nat, length: nat): (f: Bitstring)
    requires start + length <= 8 * |buffer|
    ensures |f| == length && forall k | 0 <= k < length :: f[k] == MsbOf(buffer, start + length - 1 - k)
  {
    seq(length, k requires 0 <= k < length => MsbOf(buffer, start + length - 1 - k))
  }

  /** The number that the bytes represent, most significant byte first. */
  function BigValue(b: seq<Byte>): nat {
    if b == [] then 0 else 0x100 * BigValue(b[..|b| - 1]) + b[|b| - 1] as nat
  }

  /** The bits from the last to the first are the bits of this number, least significant first. */
  lemma {:induction false} BigNumber(b: seq<Byte>)
    ensures BigValue(b) == Number(MsbField(b, 0, 8 * |b|))
  {
    if b == [] {
      assert MsbField(b, 0, 0) == [];
    } else {
      hide GetBit, Number;
      var rest, last := b[..|b| - 1], b[|b| - 1];
      LastByte(b);
      NumberAppend(ByteBits(last), MsbField(rest, 0, 8 * |rest|));
      ByteNumber(last);
      BigNumber(rest);
      assert TwoTo(8) == 2 * TwoTo(7) == 4 * TwoTo(6) == 8 * TwoTo(5) == 16 * TwoTo(4) == 32 * TwoTo(3) == 0x100;
    }
  }

  lemma {:induction false} LastByte(b: seq<Byte>)
    requires b != []
    ensures MsbField(b, 0, 8 * |b|) == ByteBits(b[|b| - 1]) + MsbField(b[..|b| - 1], 0, 8 * (|b| - 1))
  {
    hide GetBit;
    var rest, last := b[..|b| - 1], b[|b| - 1];
    var w, v := MsbField(b, 0, 8 * |b|), ByteBits(last) + MsbField(rest, 0, 8 * |rest|);
    forall k | 0 <= k < 8 * |b|
      ensures w[k] == v[k]
    {
      var p := 8 * |b| - 1 - k;
      if k < 8 {
        assert p / 8 == |b| - 1 && 7 - p % 8 == k;
      } else {
        assert p / 8 < |b| - 1;
      }
    }
  }

  lemma {:induction false} ReplacedBig(was: seq<Byte>, now: seq<Byte>, start: nat, length: nat, value: nat)
    requires |was| == |now| && start + length <= 8 * |was|
    requires forall p | 0 <= p < 8 * |now| ::
      MsbOf(now, p) == if start <= p < start + length then Bit(value, start + length - 1 - p) else MsbOf(was, p)
    ensures FieldReplaced(BigValue(was), BigValue(now), 8 * |was| - (start + length), length, value)
  {
    hide MsbOf, Bit, FieldReplaced, BigValue, Number;
    var n, o := 8 * |was|, 8 * |was| - (start + length);
    BigNumber(was);
    BigNumber(now);
    ReplacedNumber(MsbField(was, 0, n), MsbField(now, 0, n), o, length, value);
  }

  lemma {:induction false} FieldBig(buffer: seq<Byte>, start: nat, length: nat)
    requires start + length <= 8 * |buffer|
    ensures Number(MsbField(buffer, start, length)) ==
            BigValue(buffer) / TwoTo(8 * |buffer| - (start + length)) % TwoTo(length)
  {
    hide MsbOf, BigValue, Number, TwoTo;
    var w, o := MsbField(buffer, 0, 8 * |buffer|), 8 * |buffer| - (start + length);
    BigNumber(buffer);
    NumberSlices(w, o);
    NumberSlices(w[o..], length);
    assert MsbField(buffer, start, length) == w[o..][..length];
  }

  /** The reversed copy, with the memory that follows it. */
  method Mirror(buffer: seq<Byte>, at: nat, n: nat, behind: seq<Byte>) returns (m: array<Byte>)
    requires at + n <= |buffer|
    ensures fresh(m) && m.Length == n + |behind| && m[..n] == Mirrored(buffer, at, n) && m[n..] == behind
  {
    m := new Byte[n + |behind|](i requires 0 <= i < n + |behind| => if i < n then 0 else behind[i - n]);
    for j := 0 to n
      invariant forall i | 0 <= i < j :: m[i] == buffer[at + n - 1 - i]
      invariant forall i | n <= i < m.Length :: m[i] == behind[i - n]
    {
      m[j] := buffer[at + (n - 1) - j];
    }
  }

  method MirrorBack(buffer: array<Byte>, at: nat, m: array<Byte>, n: nat)
    requires at + n <= buffer.Length && n <= m.Length && buffer != m
    modifies buffer
    ensures Mirrored(buffer[..], at, n) == m[..n]
    ensures forall i | 0 <= i < buffer.Length && !(at <= i < at + n) :: buffer[i] == old(buffer[i])
  {
    for j := 0 to n
      invariant forall i | 0 <= i < j :: buffer[at + n - 1 - i] == m[i]
      invariant forall i | 0 <= i < buffer.Length && !(at + n - j <= i < at + n) :: buffer[i] == old(buffer[i])
    {
      buffer[at + (n - 1) - j] := m[j];
    }
  }

  /** Bytes that no bit of the field lies in are written back as they were read. */
  lemma {:induction false} SameTail(s: seq<Byte>, t: seq<Byte>, n: nat)
    requires n <= |s| == |t| && forall k | 8 * n <= k < 8 * |s| :: BitOf(s, 0, k) == BitOf(t, 0, k)
    ensures s[n..] == t[n..]
  {
    hide GetBit;
    forall i | n <= i < |s|
      ensures s[i] == t[i]
    {
      forall b | 0 <= b < 8
        ensures GetBit(s[i], b) == GetBit(t[i], b)
      {
        assert BitOf(s, 0, 8 * i + b) == BitOf(t, 0, 8 * i + b);
      }
      BitsDecide(s[i], t[i]);
    }
  }

  lemma {:induction false} PrefixBit(s: seq<Byte>, n: nat, k: nat)
    requires n <= |s| && k < 8 * n
    ensures BitOf(s[..n], 0, k) == BitOf(s, 0, k)
  {
  }

  /** The field in the reversed copy; a word that reaches beyond the copy leaves what is there unchanged. */
  method PackMirrored(m: array<Byte>, n: nat, value: nat, offset: nat, length: nat)
    requires offset < 8 && 1 <= length && offset + length <= 64 && n == Width(offset + length) / 8
    requires n <= m.Length && Behind(m[n..], offset + length)
    modifies m
    ensures m[n..] == old(m[n..])
    ensures var o := MirroredOffset(offset, length);
      forall k | 0 <= k < 8 * n ::
        BitOf(m[..n], 0, k) == if o <= k < o + length then Bit(value, k - o) else BitOf(old(m[..n]), 0, k)
  {
    hide BitOf, Bit, Behind, FieldReplaced, Value;
    MirrorFits(offset, length, m[n..]);
    hide Width;
    var newOffset := 8 * n - (offset + length);
    ghost var was := m[..];
    assert was[..n] == m[..n] && was[n..] == m[n..];
    var _ := PackBitsBE(m, value, 0, newOffset, length);
    assert m[..][..n] == m[..n] && m[..][n..] == m[n..];
    PackedWithin(was, m[..], n, value, newOffset, length);
  }

  lemma {:induction false} MirrorFits(offset: nat, length: nat, behind: seq<Byte>)
    requires offset < 8 && 1 <= length && offset + length <= 64 && Behind(behind, offset + length)
    ensures var n, o := Width(offset + length) / 8, MirroredOffset(offset, length);
      o == 8 * n - (offset + length) && o % 8 + length <= 64 && o / 8 + Width(o % 8 + length) / 8 <= n + |behind|
  {
    MirrorReach(offset, length);
  }

  /** A field within the first n bytes leaves the others alone. */
  lemma {:induction false} PackedWithin(was: seq<Byte>, now: seq<Byte>, n: nat, value: nat, o: nat, length: nat)
    requires |was| == |now| && n <= |was| && o + length <= 8 * n
    requires forall k | 0 <= k < 8 * |now| ::
      BitOf(now, 0, k) == if o <= k < o + length then Bit(value, k - o) else BitOf(was, 0, k)
    ensures now[n..] == was[n..]
    ensures forall k | 0 <= k < 8 * n ::
      BitOf(now[..n], 0, k) == if o <= k < o + length then Bit(value, k - o) else BitOf(was[..n], 0, k)
  {
    hide BitOf, Bit;
    SameTail(now, was, n);
    forall k | 0 <= k < 8 * n
      ensures BitOf(now[..n], 0, k) == if o <= k < o + length then Bit(value, k - o) else BitOf(was[..n], 0, k)
    {
      PrefixBit(now, n, k);
      PrefixBit(was, n, k);
    }
  }

  /** The field gets the low bits of the value, most significant bit first, and nothing else changes, whatever lies
      behind the reversed copy; a field that reaches beyond 64 bits from the start of its first byte is not written. */
  method PackBitsLE(target: array<Byte>, value: nat, byteOffset: nat, bitOffset: nat, length: nat, behind: seq<Byte>)
      returns (end: nat)
    requires 1 <= length <= 64 && Behind(behind, bitOffset % 8 + length)
    requires byteOffset + bitOffset / 8 + Width(bitOffset % 8 + length) / 8 <= target.Length
    modifies target
    ensures end == if bitOffset % 8 + length <= 64 then 8 * byteOffset + bitOffset + length else 0
    ensures bitOffset % 8 + length > 64 ==> target[..] == old(target[..])
    ensures bitOffset % 8 + length <= 64 ==> var start := 8 * byteOffset + bitOffset;
      forall p | 0 <= p < 8 * target.Length ::
        MsbOf(target[..], p) == if start <= p < end then Bit(value, end - 1 - p) else MsbOf(old(target[..]), p)
    ensures bitOffset % 8 + length <= 64 ==>
      end <= 8 * target.Length &&
      FieldReplaced(BigValue(old(target[..])), BigValue(target[..]), 8 * target.Length - end, length, value)
  {
    hide BitOf, Bit, MsbOf, Mirrorable, Width, FieldReplaced, BigValue, Value;
    var at := byteOffset + bitOffset / 8;
    var offset := bitOffset % 8;
    if offset + length > 64 {
      return 0;
    }
    var bytesNeeded := Width(offset + length) / 8;
    ghost var was := target[..];
    var mirror := Mirror(target[..], at, bytesNeeded, behind);
    PackMirrored(mirror, bytesNeeded, value, offset, length);
    MirrorBack(target, at, mirror, bytesNeeded);
    end := 8 * at + offset + length;
    FieldMirrored(was, target[..], at, bytesNeeded, value, MirroredOffset(offset, length), length);
    ReplacedBig(was, target[..], end - length, length, value);
  }

  /** A field in the reversed bytes is a field of the other numbering in the bytes themselves. */
  lemma {:induction false} FieldMirrored(was: seq<Byte>, now: seq<Byte>, at: nat, n: nat, value: nat, o: nat,
      length: nat)
    requires |was| == |now| && at + n <= |was| && o + length <= 8 * n
    requires forall i | 0 <= i < |was| && !(at <= i < at + n) :: now[i] == was[i]
    requires forall k | 0 <= k < 8 * n ::
      BitOf(Mirrored(now, at, n), 0, k) == if o <= k < o + length then Bit(value, k - o)
        else BitOf(Mirrored(was, at, n), 0, k)
    ensures var end := 8 * at + (8 * n - o);
      forall p | 0 <= p < 8 * |now| ::
        MsbOf(now, p) == if end - length <= p < end then Bit(value, end - 1 - p) else MsbOf(was, p)
  {
    hide BitOf, Bit, MsbOf;
    var end := 8 * at + (8 * n - o);
    forall p | 0 <= p < 8 * |now|
      ensures MsbOf(now, p) == if end - length <= p < end then Bit(value, end - 1 - p) else MsbOf(was, p)
    {
      if 8 * at <= p < 8 * at + 8 * n {
        var k := 8 * at + (8 * n - 1 - p);
        MirroredBit(was, at, n, k);
        MirroredBit(now, at, n, k);
      } else {
        SameByte(was, now, p);
      }
    }
  }

  lemma {:induction false} SameByte(s: seq<Byte>, t: seq<Byte>, p: nat)
    requires p < 8 * |s| && |s| == |t| && s[p / 8] == t[p / 8]
    ensures MsbOf(s, p) == MsbOf(t, p)
  {
  }

  method UnpackByte(byte: seq<Byte>, offset: nat, length: nat) returns (value: nat)
    requires |byte| == 1 && length >= 1 && offset + length <= 8
    ensures value == Number(Field(byte, 8 - (offset + length), length))
  {
    hide BitOf, Number;
    var bitmask := ShiftRight(Ones(8), offset);
    var word := ShiftRight(And(Load(byte, 0, 8), bitmask), 8 - (length + offset));
    NumberPrefix(word, length);
    assert word[..length] == Field(byte, 8 - (offset + length), length);
    value := Number(word);
  }

  /** The field's number, whatever lies behind the reversed copy, or 0 for a field that reaches too far. */
  method UnpackBitsLE(target: seq<Byte>, byteOffset: nat, bitOffset: nat, length: nat, behind: seq<Byte>)
      returns (value: nat)
    requires 1 <= length <= 64 && Behind(behind, bitOffset % 8 + length)
    requires byteOffset + bitOffset / 8 + Width(bitOffset % 8 + length) / 8 <= |target|
    ensures bitOffset % 8 + length <= 64 ==>
      8 * byteOffset + bitOffset + length <= 8 * |target| &&
        value == Number(MsbField(target, 8 * byteOffset + bitOffset, length)) &&
        value == BigValue(target) / TwoTo(8 * |target| - (8 * byteOffset + bitOffset + length)) % TwoTo(length)
    ensures bitOffset % 8 + length > 64 ==> value == 0
  {
    hide BitOf, MsbOf, Number, Value, BigValue, TwoTo;
    var at := byteOffset + bitOffset / 8;
    var offset := bitOffset % 8;
    if offset + length > 64 {
      return 0;
    }
    var bytesNeeded := Width(offset + length) / 8;
    var mirror := Mirror(target, at, bytesNeeded, behind);
    var newOffset := 8 * bytesNeeded - (offset + length);
    MirrorReach(offset, length);
    FieldBig(target, 8 * at + offset, length);
    hide Width, Mirrorable;
    if bytesNeeded == 1 {
      MirroredField(target, at, mirror[..1], 1, newOffset, length);
      value := UnpackByte(mirror[..1], offset, length);
    } else {
      MirroredField(target, at, mirror[..], bytesNeeded, newOffset, length);
      value := UnpackBitsBE(mirror[..], 0, newOffset, length);
    }
  }

  lemma {:induction false} MirroredField(buffer: seq<Byte>, at: nat, m: seq<Byte>, n: nat, o: nat, length: nat)
    requires at + n <= |buffer| && n <= |m| && m[..n] == Mirrored(buffer, at, n) && o + length <= 8 * n
    ensures Field(m, o, length) == MsbField(buffer, 8 * at + (8 * n - o - length), length)
  {
    hide BitOf, MsbOf;
    forall k | 0 <= k < length
      ensures Field(m, o, length)[k] == MsbField(buffer, 8 * at + (8 * n - o - length), length)[k]
    {
      MirroredBit(buffer, at, n, o + k);
      PrefixBit(m, n, o + k);
    }
  }

  /** Unpacking what was packed gives the value modulo 2^length in this numbering too, even if what lies behind the two
      reversed copies is not the same. */
  method RoundTripLE(target: array<Byte>, value: nat, byteOffset: nat, bitOffset: nat, length: nat, behind: seq<Byte>,
      later: seq<Byte>)
      returns (back: nat)
    requires 1 <= length && bitOffset % 8 + length <= 64
    requires Behind(behind, bitOffset % 8 + length) && Behind(later, bitOffset % 8 + length)
    requires byteOffset + bitOffset / 8 + Width(bitOffset % 8 + length) / 8 <= target.Length
    modifies target
    ensures back == value % TwoTo(length)
  {
    hide MsbOf, Bit, Number, TwoTo, Behind, Width, BigValue, FieldReplaced;
    var end := PackBitsLE(target, value, byteOffset, bitOffset, length, behind);
    back := UnpackBitsLE(target[..], byteOffset, bitOffset, length, later);
    assert MsbField(target[..], 8 * byteOffset + bitOffset, length) == Low(value, length);
    NumberLow(value, length);
  }
}
