/** Names on soul plates: seven bits per character, most significant bit first, in 14 bytes. */
module Soultrapper {
  import opened Arithmetic
  import opened Bits
  import opened BitFields

  const PACKED := 14

  // ----- what is packed

  predicate EightBit(name: string) {
    forall i | 0 <= i < |name| :: name[i] < 256 as char
  }

  predicate SevenBit(name: string) {
    forall i | 0 <= i < |name| :: name[i] < 128 as char
  }

  function Stripped(name: string): (r: string)
    ensures |r| <= |name|
    ensures (SevenBit(name) ==> SevenBit(r)) && (EightBit(name) ==> EightBit(r))
    ensures |r| == |name| <==> '_' !in name
    ensures '_' !in name ==> r == name
  {
    if name == [] then []
    else if name[0] == '_' then Stripped(name[1..])
    else [name[0]] + Stripped(name[1..])
  }

  /** Cut to 15 characters first, then without underscores. */
  function Kept(name: string): (r: string)
    ensures |r| <= 15 && (SevenBit(name) ==> SevenBit(r)) && (EightBit(name) ==> EightBit(r))
  {
    Stripped(if |name| > 15 then name[..15] else name)
  }

  function CodeAt(name: string, i: nat): nat {
    if i < |name| then name[i] as nat else 0
  }

  /** The seven bits that are packed for a character.  The highest bit of the next character is not masked out, and
      lands on the lowest one of this character, unless the next one starts a byte. */
  function MergedAt(name: string, q: nat): (v: nat)
    ensures v < 128
  {
    var c := CodeAt(name, q) % 128;
    if q % 8 != 7 && CodeAt(name, q + 1) >= 128 && c % 2 == 0 then c + 1 else c
  }

  function Merged(name: string): (r: string)
    ensures |r| == |name| && SevenBit(r) && forall q | 0 <= q < |name| :: r[q] as nat == MergedAt(name, q)
  {
    seq(|name|, q requires 0 <= q < |name| => MergedAt(name, q) as char)
  }

  /** Characters below 128 are packed as they are. */
  lemma {:induction false} MergedSevenBit(name: string)
    requires SevenBit(name)
    ensures Merged(name) == name
  {
    forall q | 0 <= q < |name|
      ensures Merged(name)[q] == name[q]
    {
      assert CodeAt(name, q + 1) < 128;
    }
  }

  lemma {:induction false} LowBit(v: nat, n: nat, k: nat)
    requires k < n
    ensures Bit(v % TwoTo(n), k) == Bit(v, k)
  {
    hide Bit;
    HalvedRemainder(v, TwoTo(n - 1));
    BitHalves(v, k);
    BitHalves(v % TwoTo(n), k);
    if k > 0 {
      LowBit(v / 2, n - 1, k - 1);
    }
  }

  lemma {:induction false} BitHalves(v: nat, k: nat)
    ensures Bit(v, k) == if k == 0 then v % 2 == 1 else Bit(v / 2, k - 1)
  {
  }

  lemma {:induction false} TopBit(v: nat, k: nat)
    requires v < TwoTo(k + 1)
    ensures Bit(v, k) <==> v >= TwoTo(k)
  {
    if k > 0 {
      TopBit(v / 2, k - 1);
    }
  }

  lemma {:induction false} MergedBit(name: string, q: nat, k: nat)
    requires EightBit(name) && k < 7
    ensures Bit(MergedAt(name, q), k) == (Bit(CodeAt(name, q), k) || (k == 0 && q % 8 != 7 &&
      Bit(CodeAt(name, q + 1), 7)))
  {
    hide TwoTo;
    Power7();
    LowBit(CodeAt(name, q), 7, k);
    TopBit(CodeAt(name, q + 1), 7);
  }

  /** The codes one after the other, and zeros behind them. */
  function Stream(name: string, p: nat): bool {
    Bit(MergedAt(name, p / 7), 6 - p % 7)
  }

  method RemoveUnderscores(name: string) returns (r: string)
    ensures r == Stripped(name)
  {
    hide Stripped;
    r := [];
    assert name[0..] == name;
    for i := 0 to |name|
      invariant r + Stripped(name[i..]) == Stripped(name)
    {
      StrippedStep(name, i);
      if name[i] != '_' {
        assert r + ([name[i]] + Stripped(name[i + 1..])) == (r + [name[i]]) + Stripped(name[i + 1..]);
        r := r + [name[i]];
      }
    }
    assert name[|name|..] == [];
  }

  lemma {:induction false} StrippedStep(name: string, i: nat)
    requires i < |name|
    ensures Stripped(name[i..]) == (if name[i] == '_' then [] else [name[i]]) + Stripped(name[i + 1..])
  {
    assert name[i..][0] == name[i] && name[i..][1..] == name[i + 1..];
  }

  /** Shifts one bit at a time, dropping what moves into the highest bit except at the last step. */
  method ShiftStepwise(code: Bitstring, shift: nat) returns (left: Bitstring)
    requires |code| == 8 && 1 <= shift <= 7
    ensures left == ShiftLeft(code, shift)
  {
    hide ShiftLeft;
    left := code;
    for j := 0 to shift
      invariant left == if j == 0 then code else if j == shift then ShiftLeft(code, j)
        else ShiftLeft(code, j)[7 := false]
    {
      left := ShiftLeft(left, 1);
      if j + 1 != shift && left[7] {
        left := left[7 := false];
      }
    }
  }

  method PackName(name: string, output: array<Byte>)
    requires EightBit(name) && output.Length >= PACKED
    modifies output
    ensures forall p | 0 <= p < 8 * PACKED :: MsbOf(output[..], p) == Stream(Kept(name), p)
    ensures forall j | PACKED <= j < output.Length :: output[j] == old(output[j])
  {
    hide MsbOf, Bit, Stripped;
    var kept := RemoveUnderscores(if |name| > 15 then name[..15] else name);
    assert kept == Kept(name);
    var shift, loops, i := 1, 0, 0;
    while i <= 15
      invariant loops <= 2 && i == 8 * loops + (shift - 1) && 1 <= shift <= 7 && (loops == 2 ==> shift == 1)
      invariant forall p | 0 <= p < 8 * (i - loops) :: MsbOf(output[..], p) == Stream(kept, p)
      invariant forall j | PACKED <= j < output.Length :: output[j] == old(output[j])
      decreases 16 - i
    {
      PackByte(kept, output, i, shift, i - loops);
      if shift == 7 {
        shift := 1;
        loops := loops + 1;
        i := i + 1;
      } else {
        shift := shift + 1;
      }
      i := i + 1;
    }
  }

  method MakeByte(w: Bitstring) returns (b: Byte)
    requires |w| == 8
    ensures forall s | 0 <= s < 8 :: GetBit(b, s) == w[s]
  {
    hide GetBit, SetBit;
    b := 0;
    for s := 0 to 8
      invariant forall t | 0 <= t < s :: GetBit(b, t) == w[t]
    {
      forall t | 0 <= t < 8
        ensures GetBit(SetBit(b, s, w[s]), t) == if t == s then w[s] else GetBit(b, t)
      {
        SetThenGet(b, s, w[s], t);
      }
      b := SetBit(b, s, w[s]);
    }
  }

  /** The low bits of one character and the high bits of the next. */
  method PackByte(name: string, output: array<Byte>, i: nat, shift: nat, at: nat)
    requires EightBit(name) && 1 <= shift <= 7 && at < output.Length && 8 * at == 7 * i + (shift - 1) &&
      i % 8 == shift - 1
    modifies output
    ensures forall p | 8 * at <= p < 8 * at + 8 :: MsbOf(output[..], p) == Stream(name, p)
    ensures forall j | 0 <= j < output.Length && j != at :: output[j] == old(output[j])
    ensures forall p | 0 <= p < 8 * output.Length && p / 8 != at :: MsbOf(output[..], p) == MsbOf(old(output[..]), p)
  {
    hide Bit, GetBit, MergedAt, CodeAt, Stream, Or, ShiftLeft, ShiftRight, Low;
    var current, next := CodeAt(name, i), CodeAt(name, i + 1);
    var left := ShiftStepwise(Low(current, 8), shift);
    var right := ShiftRight(Low(next, 8), 7 - shift);
    var word := Or(left, right);
    output[at] := MakeByte(word);
    forall p | 8 * at <= p < 8 * at + 8
      ensures MsbOf(output[..], p) == Stream(name, p)
    {
      PackedBit(name, i, shift, at, 7 - p % 8);
    }
  }

  lemma {:induction false} StreamAt(name: string, q: nat, k: nat)
    requires k < 7
    ensures Stream(name, 7 * q + (6 - k)) == Bit(MergedAt(name, q), k)
  {
    hide Bit, MergedAt;
    DivMod(7 * q + (6 - k), 7, q, 6 - k);
  }

  /** Bit s of the byte that is packed. */
  lemma {:induction false} PackedBit(name: string, i: nat, shift: nat, at: nat, s: nat)
    requires EightBit(name) && 1 <= shift <= 7 && 8 * at == 7 * i + (shift - 1) && i % 8 == shift - 1 && s < 8
    ensures Or(ShiftLeft(Low(CodeAt(name, i), 8), shift), ShiftRight(Low(CodeAt(name, i + 1), 8), 7 - shift))[s] ==
      Stream(name, 8 * at + (7 - s))
  {
    hide Bit, MergedAt, CodeAt, Low, Or, ShiftLeft, ShiftRight, Stream;
    var q, k := if s >= shift then i else i + 1, if s >= shift then s - shift else 7 - shift + s;
    assert 8 * at + (7 - s) == 7 * q + (6 - k);
    StreamAt(name, q, k);
    DivMod(i + 1, 8, i / 8, shift);
    MergedBit(name, q, k);
    EitherBit(Low(CodeAt(name, i), 8), Low(CodeAt(name, i + 1), 8), shift, s);
  }

  lemma {:induction false} EitherBit(v: Bitstring, w: Bitstring, shift: nat, s: nat)
    requires |v| == |w| == 8 && 1 <= shift <= 7 && s < 8
    ensures Or(ShiftLeft(v, shift), ShiftRight(w, 7 - shift))[s] ==
            if s > shift then v[s - shift] else if s == shift then v[0] || w[7] else w[7 - shift + s]
  {
  }

  lemma {:induction false} HighBit(v: nat, k: nat)
    requires v < TwoTo(k)
    ensures !Bit(v, k)
  {
    if k > 0 {
      HighBit(v / 2, k - 1);
    }
  }

  // ----- what is read

  function FieldAt(input: seq<Byte>, q: nat): (v: nat)
    requires 7 * q + 7 <= 8 * |input|
  {
    Number(MsbField(input, 7 * q, 7))
  }

  /** Only these characters are shown. */
  predicate Shown(v: nat) {
    '0' as nat <= v <= 'z' as nat
  }

  /** How many characters are read before one that is not shown, or before the bits run out. */
  function TextLength(input: seq<Byte>, q: nat): (n: nat)
    requires |input| == PACKED && q <= 16
    ensures q <= n <= 16 && (forall i | q <= i < n :: Shown(FieldAt(input, i))) &&
      (n < 16 ==> !Shown(FieldAt(input, n)))
    decreases 16 - q
  {
    if q == 16 || !Shown(FieldAt(input, q)) then q else TextLength(input, q + 1)
  }

  function Text(input: seq<Byte>): (text: string)
    requires |input| == PACKED
  {
    var n := TextLength(input, 0);
    seq(n, i requires 0 <= i < n => FieldAt(input, i) as char)
  }

  /** How far the bits have been taken: bytes read, bits left of the last one, and that byte, shifted as far. */
  datatype Cursor = Cursor(pos: nat, bitsLeft: nat, byte: Bitstring)

  /** The next bit to be taken is bit p. */
  ghost predicate At(c: Cursor, input: seq<Byte>, p: nat) {
    && |input| == PACKED && c.bitsLeft <= 8 && c.pos <= PACKED && p + c.bitsLeft == 8 * c.pos
    && (c.bitsLeft > 0 ==> c.byte == ShiftLeft(Load(input, c.pos - 1, 8), 8 - c.bitsLeft))
  }

  lemma {:induction false} Place(c: Cursor, input: seq<Byte>, p: nat)
    requires At(c, input, p)
    ensures |input| == PACKED && c.bitsLeft <= 8 && c.pos <= PACKED && p + c.bitsLeft == 8 * c.pos
  {
  }

  lemma {:induction false} NextByte(c: Cursor, input: seq<Byte>, p: nat)
    requires At(c, input, p) && c.bitsLeft == 0 && c.pos < PACKED
    ensures At(Cursor(c.pos + 1, 8, Load(input, c.pos, 8)), input, p)
  {
    hide Load;
    var w := Load(input, c.pos, 8);
    assert ShiftLeft(w, 0) == w;
  }

  lemma {:induction false} BitTaken(c: Cursor, input: seq<Byte>, p: nat)
    requires At(c, input, p) && c.bitsLeft > 0
    ensures p < 8 * PACKED && |c.byte| == 8 && |input| == PACKED && c.byte[7] == MsbOf(input, p)
  {
    hide MsbOf, ShiftLeft;
    HighestBit(input, c.pos - 1, 8 - c.bitsLeft);
    assert 8 * (c.pos - 1) + (8 - c.bitsLeft) == p;
  }

  lemma {:induction false} NextBit(c: Cursor, input: seq<Byte>, p: nat)
    requires At(c, input, p) && c.bitsLeft > 0
    ensures At(c.(byte := ShiftLeft(c.byte, 1), bitsLeft := c.bitsLeft - 1), input, p + 1)
  {
    hide Load, ShiftLeft;
    ShiftAgain(Load(input, c.pos - 1, 8), 8 - c.bitsLeft);
  }

  lemma {:induction false} ShiftAgain(w: Bitstring, n: nat)
    ensures ShiftLeft(ShiftLeft(w, n), 1) == ShiftLeft(w, n + 1)
  {
  }

  /** Nothing is taken when the bytes have run out. */
  method Take(input: seq<Byte>, c: Cursor, ghost p: nat) returns (more: bool, bit: bool, c': Cursor)
    requires At(c, input, p)
    ensures more <==> p < 8 * PACKED
    ensures more ==> At(c', input, p + 1) && bit == MsbOf(input, p)
  {
    hide MsbOf, ShiftLeft, Load, At;
    Place(c, input, p);
    c' := c;
    if c'.bitsLeft == 0 {
      if c'.pos >= PACKED {
        return false, false, c;
      }
      NextByte(c', input, p);
      c' := Cursor(c'.pos + 1, 8, Load(input, c'.pos, 8));
    }
    BitTaken(c', input, p);
    NextBit(c', input, p);
    more, bit := true, c'.byte[7];
    c' := c'.(byte := ShiftLeft(c'.byte, 1), bitsLeft := c'.bitsLeft - 1);
  }

  /** Seven bits make a character; an incomplete one is dropped. */
  method TakeChar(input: seq<Byte>, c: Cursor, ghost q: nat) returns (more: bool, code: nat, c': Cursor)
    requires At(c, input, 7 * q)
    ensures more <==> q < 16
    ensures more ==> At(c', input, 7 * q + 7) && code == FieldAt(input, q)
  {
    hide MsbOf, Number, At, Taken, MsbField, Low;
    var bits := Low(0, 7);
    Place(c, input, 7 * q);
    NoBits(input, 7 * q);
    c' := c;
    var bit := 6;
    while bit >= 0
      invariant -1 <= bit <= 6 && At(c', input, 7 * q + (6 - bit)) && Taken(bits, input, 7 * q, bit)
    {
      var one;
      more, one, c' := Take(input, c', 7 * q + (6 - bit));
      if !more {
        return false, 0, c';
      }
      TakenStep(bits, input, 7 * q, bit, one);
      if one {
        bits := bits[bit := true];
      }
      bit := bit - 1;
    }
    TakenAll(bits, input, 7 * q);
    more, code := true, Number(bits);
  }

  lemma {:induction false} HighestBit(input: seq<Byte>, at: nat, taken: nat)
    requires at < |input| && taken < 8
    ensures ShiftLeft(Load(input, at, 8), taken)[7] == MsbOf(input, 8 * at + taken)
  {
    hide GetBit;
  }

  /** The bits above `bit` have been taken. */
  ghost predicate Taken(bits: Bitstring, input: seq<Byte>, start: nat, bit: int) {
    && |bits| == 7 && -1 <= bit <= 6 && start + (6 - bit) <= 8 * |input|
    && forall k | 0 <= k < 7 :: bits[k] == (k > bit && MsbOf(input, start + (6 - k)))
  }

  lemma {:induction false} NoBits(input: seq<Byte>, start: nat)
    requires start <= 8 * |input|
    ensures Taken(Low(0, 7), input, start, 6)
  {
    forall k | 0 <= k < 7
      ensures !Bit(0, k)
    {
      HighBit(0, k);
    }
  }

  lemma {:induction false} TakenStep(bits: Bitstring, input: seq<Byte>, start: nat, bit: int, one: bool)
    requires Taken(bits, input, start, bit) && bit >= 0 && start + (6 - bit) < 8 * |input| &&
      one == MsbOf(input, start + (6 - bit))
    ensures |bits| == 7 && Taken(if one then bits[bit := true] else bits, input, start, bit - 1)
  {
    hide MsbOf;
  }

  lemma {:induction false} TakenAll(bits: Bitstring, input: seq<Byte>, start: nat)
    requires Taken(bits, input, start, -1)
    ensures start + 7 <= 8 * |input| && bits == MsbField(input, start, 7)
  {
    hide MsbOf;
  }

  lemma {:induction false} Begins(input: seq<Byte>)
    requires |input| == PACKED
    ensures At(Cursor(0, 0, []), input, 0)
  {
  }

  method UnpackName(input: seq<Byte>) returns (output: string)
    requires |input| == PACKED
    ensures output == Text(input)
  {
    hide FieldAt, At, TextLength;
    output := [];
    var c := Cursor(0, 0, []);
    Begins(input);
    var q := 0;
    while true
      invariant q <= TextLength(input, 0) && At(c, input, 7 * q)
      invariant |output| == q && forall i | 0 <= i < q :: output[i] == FieldAt(input, i) as char
      decreases 16 - q
    {
      var more, code;
      more, code, c := TakeChar(input, c, q);
      if !more {
        return;
      }
      if code == 0 || code < '0' as nat || code > 'z' as nat {
        break;
      }
      output := output + [code as char];
      q := q + 1;
    }
  }

  // ----- there and back

  /** The longest prefix whose characters are all shown. */
  function ShownPrefix(name: string): (r: string)
    ensures |r| <= |name| && r == name[..|r|] && (forall i | 0 <= i < |r| :: Shown(r[i] as nat))
    ensures |r| < |name| ==> !Shown(name[|r|] as nat)
  {
    if name == [] || !Shown(name[0] as nat) then []
    else [name[0]] + ShownPrefix(name[1..])
  }

  lemma {:induction false} FieldIsCode(input: seq<Byte>, name: string, q: nat)
    requires |input| == PACKED && q < 16
    requires forall p | 0 <= p < 8 * PACKED :: MsbOf(input, p) == Stream(name, p)
    ensures FieldAt(input, q) == MergedAt(name, q)
  {
    hide MsbOf, Bit, Number, TwoTo, MergedAt;
    var v := MergedAt(name, q);
    forall k | 0 <= k < 7
      ensures MsbField(input, 7 * q, 7)[k] == Low(v, 7)[k]
    {
      var p := 7 * q + 6 - k;
      assert p / 7 == q && p % 7 == 6 - k;
    }
    assert MsbField(input, 7 * q, 7) == Low(v, 7);
    NumberLow(v, 7);
    Power7();
  }

  lemma {:induction false} Power7()
    ensures TwoTo(7) == 128 && TwoTo(8) == 256
  {
    assert TwoTo(7) == 2 * TwoTo(6) == 4 * TwoTo(5) == 8 * TwoTo(4) == 16 * TwoTo(3) == 32 * TwoTo(2) == 128;
  }

  /** The shown prefix of a name is undisturbed: it is the whole name, or what follows it is a character below 128, or
      that character is still not shown without its highest bit, and this bit does not land on a character of the prefix
      or lands where a bit is set anyway. */
  predicate Undisturbed(name: string) {
    var n := |ShownPrefix(name)|;
    n == |name| || name[n] < 128 as char ||
    (!Shown(MergedAt(name, n)) && (n % 8 == 0 || name[n - 1] as nat % 2 == 1))
  }

  lemma {:induction false} PrefixIs(name: string, n: nat)
    requires n <= |name| && (forall i | 0 <= i < n :: Shown(name[i] as nat)) && (n < |name| ==> !Shown(name[n] as nat))
    ensures ShownPrefix(name) == name[..n]
  {
    hide ShownPrefix, Shown;
    var r := ShownPrefix(name);
    assert forall i | 0 <= i < |r| :: r[i] == name[i];
    assert |r| == n;
  }

  /** Before the last character of the prefix, packing changes nothing. */
  lemma {:induction false} MergedPrefix(name: string, i: nat)
    requires i < |ShownPrefix(name)|
    requires i + 1 == |ShownPrefix(name)| ==>
      i + 1 == |name| || name[i + 1] < 128 as char || i % 8 == 7 || name[i] as nat % 2 == 1
    ensures Merged(name)[i] == name[i]
  {
    hide ShownPrefix;
    var r := ShownPrefix(name);
    assert Shown(r[i] as nat);
    assert i + 1 < |r| ==> Shown(r[i + 1] as nat);
  }

  /** The highest bit of a character cannot turn a character that is not shown into one that is. */
  lemma {:induction false} StillHidden(name: string, n: nat)
    requires n < |name| && name[n] < 128 as char && !Shown(name[n] as nat)
    ensures !Shown(MergedAt(name, n))
  {
  }

  /** The same prefix is shown of what was packed exactly when it is undisturbed. */
  lemma {:induction false} SamePrefix(name: string)
    ensures ShownPrefix(Merged(name)) == ShownPrefix(name) <==> Undisturbed(name)
  {
    hide ShownPrefix, Merged, MergedAt, Shown;
    var r, m := ShownPrefix(name), Merged(name);
    var n := |r|;
    if Undisturbed(name) {
      forall i | 0 <= i < n
        ensures m[i] == r[i] && Shown(m[i] as nat)
      {
        MergedPrefix(name, i);
      }
      if n < |name| && name[n] < 128 as char {
        StillHidden(name, n);
      }
      PrefixIs(m, n);
      assert m[..n] == r;
    } else if !Shown(m[n] as nat) {
      assert Shown(r[n - 1] as nat);
      OneMore(name, n - 1);
      assert m[n - 1] != r[n - 1];
    }
  }

  lemma {:induction false} OneMore(name: string, i: nat)
    requires i + 1 < |name| && Shown(name[i] as nat) && name[i] as nat % 2 == 0 && name[i + 1] >= 128 as char &&
      i % 8 != 7
    ensures Merged(name)[i] as nat == name[i] as nat + 1
  {
  }

  /** What is unpacked is the longest prefix that is shown of what was packed.  It is that of the kept name exactly when
      this is undisturbed, as it always is without characters above 127; and it is the whole name exactly when all
      characters are shown, none is removed and none is cut off. */
  method ThereAndBack(name: string) returns (back: string)
    requires EightBit(name)
    ensures back == ShownPrefix(Merged(Kept(name)))
    ensures back == ShownPrefix(Kept(name)) <==> Undisturbed(Kept(name))
    ensures SevenBit(name) ==> Undisturbed(Kept(name))
    ensures back == name <==> |name| <= 15 && '_' !in name && forall i | 0 <= i < |name| :: Shown(name[i] as nat)
  {
    hide MsbOf, Stripped, ShownPrefix, TextLength, Stream, Merged, Shown, MergedAt;
    var output := new Byte[PACKED](_ => 0);
    PackName(name, output);
    assert output[..PACKED] == output[..];
    back := UnpackName(output[..]);
    TextIsPrefix(output[..], Kept(name));
    WholeName(name);
    SamePrefix(Kept(name));
  }

  lemma {:induction false} WholeName(name: string)
    ensures ShownPrefix(Merged(Kept(name))) == name <==>
            |name| <= 15 && '_' !in name && forall i | 0 <= i < |name| :: Shown(name[i] as nat)
  {
    hide Stripped, ShownPrefix, Merged, MergedAt;
    var r := ShownPrefix(Merged(Kept(name)));
    if |name| <= 15 && '_' !in name && forall i | 0 <= i < |name| :: Shown(name[i] as nat) {
      assert SevenBit(name);
      MergedSevenBit(name);
      assert |r| == |name|;
    }
  }

  /** With a character above 127 the character before it may change, and the reading does not stop where it should. */
  lemma {:induction false} HighCharacter()
    ensures var name := ['b', 0xe9 as char]; ShownPrefix(Kept(name)) == "b" && ShownPrefix(Merged(Kept(name))) == "ci"
  {
    var name := ['b', 0xe9 as char];
    assert Kept(name) == name;
    assert Merged(name) == ['c', 'i'];
    assert ShownPrefix(['c', 'i']) == ['c', 'i'];
    assert |ShownPrefix(name)| == 1;
  }

  lemma {:induction false} TextIsPrefix(input: seq<Byte>, name: string)
    requires |input| == PACKED && |name| <= 15
    requires forall p | 0 <= p < 8 * PACKED :: MsbOf(input, p) == Stream(name, p)
    ensures Text(input) == ShownPrefix(Merged(name))
  {
    hide MsbOf, Stream, FieldAt, ShownPrefix, TextLength, Shown, MergedAt;
    forall q | 0 <= q < 16
      ensures FieldAt(input, q) == MergedAt(name, q)
    {
      FieldIsCode(input, name, q);
    }
    var r := ShownPrefix(Merged(name));
    assert forall i | 0 <= i < |r| :: Merged(name)[i] == r[i];
    NotShown(name);
    assert !Shown(MergedAt(name, |r|));
    assert TextLength(input, 0) == |r|;
  }

  lemma {:induction false} NotShown(name: string)
    ensures !Shown(MergedAt(name, |name|))
  {
  }
}
