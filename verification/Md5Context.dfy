/** The streaming MD5 of the login code: a context of a byte counter, the registers, and a buffer for a part of a
    block. */
module Md5Context {
  import opened Arithmetic
  import opened Bits
  import opened Rfc1321

  /** F with one operation less. */
  function FastF(x: Word, y: Word, z: Word): Word {
    z ^ (x & (y ^ z))
  }

  /** G with one operation less. */
  function FastG(x: Word, y: Word, z: Word): Word {
    y ^ (z & (x ^ y))
  }

  lemma {:induction false} XorOr(x: Word, y: Word)
    requires x & y == 0
    ensures x ^ y == x | y
  {
  }

  lemma {:induction false} FastFIsF(x: Word, y: Word, z: Word)
    ensures FastF(x, y, z) == F(x, y, z)
  {
    XorOr(x & y, !x & z);
  }

  function Fast(round: nat, x: Word, y: Word, z: Word): Word {
    if round == 0 then FastF(x, y, z)
    else if round == 1 then FastG(x, y, z)
    else if round == 2 then H(x, y, z)
    else I(x, y, z)
  }

  /** G selects with its third argument what F selects with its first. */
  lemma {:induction false} FastMix(round: nat, x: Word, y: Word, z: Word)
    ensures Fast(round, x, y, z) == Mix(round, x, y, z)
  {
    if round == 0 {
      FastFIsF(x, y, z);
    } else if round == 1 {
      FastFIsF(z, x, y);
    }
  }

  function RotateMasked(x: Word, s: nat): Word
    requires 0 < s < 32
  {
    (x << s) | ((x & 0xffff_ffff) >> (32 - s))
  }

  lemma {:induction false} Masked(x: Word)
    ensures x & 0xffff_ffff == x
  {
  }

  lemma {:induction false} RotateSame(x: Word, s: nat)
    requires 0 < s < 32
    ensures RotateMasked(x, s) == Rotate(x, s)
  {
    Masked(x);
  }

  lemma {:induction false} AddCommutes(x: Word, y: Word)
    ensures Add(x, y) == Add(y, x)
  {
    assert x + y == y + x;
  }

  lemma {:induction false} SameOperation(round: nat, a: Word, b: Word, c: Word, d: Word, xk: Word, s: nat, t: Word)
    requires 0 < s < 32
    ensures Add(RotateMasked(Add(a, Add(Add(Fast(round, b, c, d), xk), t)), s), b) ==
      Operation(round, a, b, c, d, xk, s, t)
  {
    hide Fast, Mix, Rotate, RotateMasked, Add;
    var sum := Add(a, Add(Add(Mix(round, b, c, d), xk), t));
    FastMix(round, b, c, d);
    RotateSame(sum, s);
    AddCommutes(Rotate(sum, s), b);
  }

  /** One operation on the register `a`. */
  function Step(round: nat, a: Word, b: Word, c: Word, d: Word, xk: Word, s: nat, t: Word): (r: Word)
    requires 0 < s < 32
    ensures r == Operation(round, a, b, c, d, xk, s, t)
  {
    SameOperation(round, a, b, c, d, xk, s, t);
    Add(RotateMasked(Add(a, Add(Add(Fast(round, b, c, d), xk), t)), s), b)
  }

  /** The four lines of a round. */
  function FourLines(r: Registers, x: seq<Word>, n: nat): Registers
    requires |x| == 16 && n <= 12
  {
    Line(Line(Line(Line(r, x, n), x, n + 1), x, n + 2), x, n + 3)
  }

  /** Four operations in turn with the constants of a line are that line. */
  lemma {:induction false} LineSteps(r: Registers, x: seq<Word>, line: nat, s: Registers)
    requires |x| == 16 && line < 16
    requires s.a == Step(line / 4, r.a, r.b, r.c, r.d, x[Indices(line).0], Shifts(line / 4).0, T(line).0)
    requires s.d == Step(line / 4, r.d, s.a, r.b, r.c, x[Indices(line).1], Shifts(line / 4).1, T(line).1)
    requires s.c == Step(line / 4, r.c, s.d, s.a, r.b, x[Indices(line).2], Shifts(line / 4).2, T(line).2)
    requires s.b == Step(line / 4, r.b, s.c, s.d, s.a, x[Indices(line).3], Shifts(line / 4).3, T(line).3)
    ensures s == Line(r, x, line)
  {
    hide Operation, Indices, T, Shifts, Step;
  }

  method Round1(x: seq<Word>, r: Registers) returns (r': Registers)
    requires |x| == 16
    ensures r' == FourLines(r, x, 0)
  {
    hide Step, Operation, Line;
    var Registers(a, b, c, d) := r;
    a := Step(0, a, b, c, d, x[0], 7, 0xd76a_a478);
    d := Step(0, d, a, b, c, x[1], 12, 0xe8c7_b756);
    c := Step(0, c, d, a, b, x[2], 17, 0x2420_70db);
    b := Step(0, b, c, d, a, x[3], 22, 0xc1bd_ceee);
    ghost var line1 := Registers(a, b, c, d);
    LineSteps(r, x, 0, line1);
    a := Step(0, a, b, c, d, x[4], 7, 0xf57c_0faf);
    d := Step(0, d, a, b, c, x[5], 12, 0x4787_c62a);
    c := Step(0, c, d, a, b, x[6], 17, 0xa830_4613);
    b := Step(0, b, c, d, a, x[7], 22, 0xfd46_9501);
    ghost var line2 := Registers(a, b, c, d);
    LineSteps(line1, x, 1, line2);
    a := Step(0, a, b, c, d, x[8], 7, 0x6980_98d8);
    d := Step(0, d, a, b, c, x[9], 12, 0x8b44_f7af);
    c := Step(0, c, d, a, b, x[10], 17, 0xffff_5bb1);
    b := Step(0, b, c, d, a, x[11], 22, 0x895c_d7be);
    ghost var line3 := Registers(a, b, c, d);
    LineSteps(line2, x, 2, line3);
    a := Step(0, a, b, c, d, x[12], 7, 0x6b90_1122);
    d := Step(0, d, a, b, c, x[13], 12, 0xfd98_7193);
    c := Step(0, c, d, a, b, x[14], 17, 0xa679_438e);
    b := Step(0, b, c, d, a, x[15], 22, 0x49b4_0821);
    ghost var line4 := Registers(a, b, c, d);
    LineSteps(line3, x, 3, line4);
    r' := Registers(a, b, c, d);
  }

  method Round2(x: seq<Word>, r: Registers) returns (r': Registers)
    requires |x| == 16
    ensures r' == FourLines(r, x, 4)
  {
    hide Step, Operation, Line;
    var Registers(a, b, c, d) := r;
    a := Step(1, a, b, c, d, x[1], 5, 0xf61e_2562);
    d := Step(1, d, a, b, c, x[6], 9, 0xc040_b340);
    c := Step(1, c, d, a, b, x[11], 14, 0x265e_5a51);
    b := Step(1, b, c, d, a, x[0], 20, 0xe9b6_c7aa);
    ghost var line5 := Registers(a, b, c, d);
    LineSteps(r, x, 4, line5);
    a := Step(1, a, b, c, d, x[5], 5, 0xd62f_105d);
    d := Step(1, d, a, b, c, x[10], 9, 0x0244_1453);
    c := Step(1, c, d, a, b, x[15], 14, 0xd8a1_e681);
    b := Step(1, b, c, d, a, x[4], 20, 0xe7d3_fbc8);
    ghost var line6 := Registers(a, b, c, d);
    LineSteps(line5, x, 5, line6);
    a := Step(1, a, b, c, d, x[9], 5, 0x21e1_cde6);
    d := Step(1, d, a, b, c, x[14], 9, 0xc337_07d6);
    c := Step(1, c, d, a, b, x[3], 14, 0xf4d5_0d87);
    b := Step(1, b, c, d, a, x[8], 20, 0x455a_14ed);
    ghost var line7 := Registers(a, b, c, d);
    LineSteps(line6, x, 6, line7);
    a := Step(1, a, b, c, d, x[13], 5, 0xa9e3_e905);
    d := Step(1, d, a, b, c, x[2], 9, 0xfcef_a3f8);
    c := Step(1, c, d, a, b, x[7], 14, 0x676f_02d9);
    b := Step(1, b, c, d, a, x[12], 20, 0x8d2a_4c8a);
    ghost var line8 := Registers(a, b, c, d);
    LineSteps(line7, x, 7, line8);
    r' := Registers(a, b, c, d);
  }

  method Round3(x: seq<Word>, r: Registers) returns (r': Registers)
    requires |x| == 16
    ensures r' == FourLines(r, x, 8)
  {
    hide Step, Operation, Line;
    var Registers(a, b, c, d) := r;
    a := Step(2, a, b, c, d, x[5], 4, 0xfffa_3942);
    d := Step(2, d, a, b, c, x[8], 11, 0x8771_f681);
    c := Step(2, c, d, a, b, x[11], 16, 0x6d9d_6122);
    b := Step(2, b, c, d, a, x[14], 23, 0xfde5_380c);
    ghost var line9 := Registers(a, b, c, d);
    LineSteps(r, x, 8, line9);
    a := Step(2, a, b, c, d, x[1], 4, 0xa4be_ea44);
    d := Step(2, d, a, b, c, x[4], 11, 0x4bde_cfa9);
    c := Step(2, c, d, a, b, x[7], 16, 0xf6bb_4b60);
    b := Step(2, b, c, d, a, x[10], 23, 0xbebf_bc70);
    ghost var line10 := Registers(a, b, c, d);
    LineSteps(line9, x, 9, line10);
    a := Step(2, a, b, c, d, x[13], 4, 0x289b_7ec6);
    d := Step(2, d, a, b, c, x[0], 11, 0xeaa1_27fa);
    c := Step(2, c, d, a, b, x[3], 16, 0xd4ef_3085);
    b := Step(2, b, c, d, a, x[6], 23, 0x0488_1d05);
    ghost var line11 := Registers(a, b, c, d);
    LineSteps(line10, x, 10, line11);
    a := Step(2, a, b, c, d, x[9], 4, 0xd9d4_d039);
    d := Step(2, d, a, b, c, x[12], 11, 0xe6db_99e5);
    c := Step(2, c, d, a, b, x[15], 16, 0x1fa2_7cf8);
    b := Step(2, b, c, d, a, x[2], 23, 0xc4ac_5665);
    ghost var line12 := Registers(a, b, c, d);
    LineSteps(line11, x, 11, line12);
    r' := Registers(a, b, c, d);
  }

  method Round4(x: seq<Word>, r: Registers) returns (r': Registers)
    requires |x| == 16
    ensures r' == FourLines(r, x, 12)
  {
    hide Step, Operation, Line;
    var Registers(a, b, c, d) := r;
    a := Step(3, a, b, c, d, x[0], 6, 0xf429_2244);
    d := Step(3, d, a, b, c, x[7], 10, 0x432a_ff97);
    c := Step(3, c, d, a, b, x[14], 15, 0xab94_23a7);
    b := Step(3, b, c, d, a, x[5], 21, 0xfc93_a039);
    ghost var line13 := Registers(a, b, c, d);
    LineSteps(r, x, 12, line13);
    a := Step(3, a, b, c, d, x[12], 6, 0x655b_59c3);
    d := Step(3, d, a, b, c, x[3], 10, 0x8f0c_cc92);
    c := Step(3, c, d, a, b, x[10], 15, 0xffef_f47d);
    b := Step(3, b, c, d, a, x[1], 21, 0x8584_5dd1);
    ghost var line14 := Registers(a, b, c, d);
    LineSteps(line13, x, 13, line14);
    a := Step(3, a, b, c, d, x[8], 6, 0x6fa8_7e4f);
    d := Step(3, d, a, b, c, x[15], 10, 0xfe2c_e6e0);
    c := Step(3, c, d, a, b, x[6], 15, 0xa301_4314);
    b := Step(3, b, c, d, a, x[13], 21, 0x4e08_11a1);
    ghost var line15 := Registers(a, b, c, d);
    LineSteps(line14, x, 14, line15);
    a := Step(3, a, b, c, d, x[4], 6, 0xf753_7e82);
    d := Step(3, d, a, b, c, x[11], 10, 0xbd3a_f235);
    c := Step(3, c, d, a, b, x[2], 15, 0x2ad7_d2bb);
    b := Step(3, b, c, d, a, x[9], 21, 0xeb86_d391);
    ghost var line16 := Registers(a, b, c, d);
    LineSteps(line15, x, 15, line16);
    r' := Registers(a, b, c, d);
  }

  lemma {:induction false} LinesByFour(s: Registers, x: seq<Word>, n: nat)
    requires |x| == 16 && n <= 12
    ensures Lines(s, x, n + 4) == FourLines(Lines(s, x, n), x, n)
  {
    hide Line;
    assert Lines(s, x, n + 3) == Line(Lines(s, x, n + 2), x, n + 2);
    assert Lines(s, x, n + 2) == Line(Lines(s, x, n + 1), x, n + 1);
  }

  /** Four rounds over the words of one block. */
  method Process(state: Registers, data: seq<Byte>) returns (state': Registers)
    requires |data| == 64
    ensures state' == Block(state, data)
  {
    hide Line, WordAt, FourLines;
    var x := Words(data);
    var r := Round1(x, state);
    r := Round2(x, r);
    r := Round3(x, r);
    r := Round4(x, r);
    LinesByFour(state, x, 0);
    LinesByFour(state, x, 4);
    LinesByFour(state, x, 8);
    LinesByFour(state, x, 12);
    state' := Registers(Add(state.a, r.a), Add(state.b, r.b), Add(state.c, r.c), Add(state.d, r.d));
  }

  // ----- blocks of a growing message

  /** The part of a message that fills whole blocks. */
  function Whole(message: seq<Byte>): seq<Byte> {
    message[..|message| - |message| % 64]
  }

  /** The part of a message that is left for the buffer. */
  function Tail(message: seq<Byte>): seq<Byte> {
    message[|message| - |message| % 64..]
  }

  lemma {:induction false} BlocksAppend(s: Registers, bytes: seq<Byte>, more: seq<Byte>)
    requires |bytes| % 64 == 0
    ensures Blocks(s, bytes + more) == Blocks(Blocks(s, bytes), more)
    decreases |bytes|
  {
    hide Block;
    if bytes == [] {
      assert bytes + more == more;
    } else {
      assert (bytes + more)[..64] == bytes[..64] && (bytes + more)[64..] == bytes[64..] + more;
      BlocksAppend(Block(s, bytes[..64]), bytes[64..], more);
    }
  }

  lemma {:induction false} BlocksOne(s: Registers, bytes: seq<Byte>, block: seq<Byte>)
    requires |bytes| % 64 == 0 && |block| == 64
    ensures Blocks(s, bytes + block) == Block(Blocks(s, bytes), block)
  {
    hide Block;
    BlocksAppend(s, bytes, block);
    assert block[..64] == block && block[64..] == [];
  }

  /** A part that fills the buffer completes a block. */
  lemma {:induction false} BlockFilled(m: seq<Byte>, part: seq<Byte>)
    requires |m| % 64 + |part| == 64
    ensures |Tail(m) + part| == 64 && |m + part| % 64 == 0 && Tail(m + part) == []
    ensures Blocks(INITIAL, Whole(m + part)) == Block(Blocks(INITIAL, Whole(m)), Tail(m) + part)
  {
    hide Blocks, Block;
    assert Whole(m + part) == Whole(m) + (Tail(m) + part);
    BlocksOne(INITIAL, Whole(m), Tail(m) + part);
  }

  /** A part that does not fill it is kept for later. */
  lemma {:induction false} BlockUnfilled(m: seq<Byte>, part: seq<Byte>)
    requires |m| % 64 + |part| < 64
    ensures Whole(m + part) == Whole(m) && Tail(m + part) == Tail(m) + part && |m + part| % 64 == |m| % 64 + |part|
  {
    DivMod(|m + part|, 64, |m| / 64, |m| % 64 + |part|);
  }

  lemma {:induction false} Moved(done: seq<Byte>, rest: seq<Byte>, n: nat)
    requires n <= |rest|
    ensures (done + rest[..n]) + rest[n..] == done + rest
  {
    assert rest == rest[..n] + rest[n..];
  }

  const WORD := 0x1_0000_0000

  const LONG := 0x1_0000_0000_0000_0000

  lemma {:induction false} LowBits(n: nat, t0: nat, t1: nat)
    requires t1 * WORD + t0 == n % LONG && t0 < WORD && t1 < WORD
    ensures t0 % 64 == n % 64 && t0 == n % WORD && t1 == n / WORD % WORD
  {
    var k := WORD * (n / LONG) + t1;
    assert n == WORD * k + t0;
    DivMod(n, WORD, k, t0);
    DivMod(k, WORD, n / LONG, t1);
    DivMod(n, 64, 0x400_0000 * k + t0 / 64, t0 % 64);
  }

  lemma {:induction false} CountSum(n: nat, t: nat, length: nat)
    requires t == n % LONG
    ensures (t + length) % LONG == (n + length) % LONG
  {
    assert n + length == LONG * (n / LONG) + (t + length);
  }

  /** The sum wrapped around exactly when it is less than what was added. */
  lemma {:induction false} Carried(t0: nat, t1: nat, length: nat)
    requires t0 < WORD && t1 < WORD && length < WORD
    ensures var low := (t0 + length) % WORD;
            var high := if low < length then (t1 + 1) % WORD else t1;
            high < WORD && high * WORD + low == (t1 * WORD + t0 + length) % LONG
  {
    if t0 + length >= WORD {
      DivMod(t0 + length, WORD, 1, t0 + length - WORD);
      if t1 + 1 == WORD {
        DivMod(t1 * WORD + t0 + length, LONG, 1, t0 + length - WORD);
      }
    }
  }

  class Context {
    var total0: nat
    var total1: nat
    var state: Registers
    var buffer: array<Byte>
    ghost var message: seq<Byte>

    /** Two words count the bytes modulo 2^64. */
    ghost predicate CountsTo(n: nat)
      reads this`total0, this`total1
    {
      total0 < WORD && total1 < WORD && total1 * WORD + total0 == n % LONG
    }

    /** The registers have taken in the whole blocks of `m`, and the buffer holds the rest of it. */
    ghost predicate Absorbed(m: seq<Byte>)
      reads this`state, this`buffer, buffer
    {
      buffer.Length == 64 && state == Blocks(INITIAL, Whole(m)) && buffer[..|m| % 64] == Tail(m)
    }

    ghost predicate Valid()
      reads this, buffer
    {
      CountsTo(|message|) && Absorbed(message)
    }

    constructor ()
      ensures Valid() && message == [] && fresh(buffer)
    {
      buffer := new Byte[64];
      total0, total1 := 0, 0;
      state := INITIAL;
      message := [];
    }

    method Count(length: nat, ghost n: nat)
      requires 0 < length < WORD && CountsTo(n)
      modifies this`total0, this`total1
      ensures CountsTo(n + length)
    {
      CountSum(n, total1 * WORD + total0, length);
      Carried(total0, total1, length);
      total0 := (total0 + length) % WORD;
      if total0 < length {
        total1 := (total1 + 1) % WORD;
      }
    }

    /** How much of the buffer is in use. */
    method Left(ghost n: nat) returns (left: nat)
      requires CountsTo(n)
      ensures left == n % 64
    {
      LowBits(n, total0, total1);
      left := total0 % 64;
    }

    method Copy(at: nat, data: seq<Byte>)
      requires at + |data| <= buffer.Length
      modifies buffer
      ensures buffer[..at + |data|] == old(buffer[..at]) + data
    {
      forall i | 0 <= i < |data| {
        buffer[at + i] := data[i];
      }
    }

    /** Completes the buffer and takes it in. */
    method Fill(left: nat, part: seq<Byte>, ghost done: seq<Byte>)
      requires Absorbed(done) && left == |done| % 64 && left + |part| == 64
      modifies this`state, buffer
      ensures Absorbed(done + part) && |done + part| % 64 == 0
    {
      hide Blocks, Block, Whole;
      BlockFilled(done, part);
      Copy(left, part);
      assert buffer[..] == buffer[..64] == Tail(done) + part;
      state := Process(state, buffer[..]);
    }

    /** Takes in a block straight from the input. */
    method Take(part: seq<Byte>, ghost done: seq<Byte>)
      requires Absorbed(done) && |done| % 64 == 0 && |part| == 64
      modifies this`state
      ensures Absorbed(done + part) && |done + part| % 64 == 0
    {
      hide Blocks, Block, Whole;
      BlockFilled(done, part);
      assert Tail(done) + part == part;
      state := Process(state, part);
    }

    /** Keeps what does not fill a block. */
    method Keep(left: nat, part: seq<Byte>, ghost done: seq<Byte>)
      requires Absorbed(done) && left == |done| % 64 && left + |part| < 64
      modifies buffer
      ensures Absorbed(done + part)
    {
      hide Blocks, Block, Whole;
      BlockUnfilled(done, part);
      if |part| > 0 {
        Copy(left, part);
      } else {
        assert done + part == done;
      }
    }

    method Update(input: seq<Byte>)
      requires Valid() && |input| < WORD
      modifies this, buffer
      ensures Valid() && message == old(message) + input && buffer == old(buffer)
    {
      hide Blocks, Block, Whole, Tail, CountsTo;
      if |input| == 0 {
        assert message + input == message;
        return;
      }
      var left := Left(|message|);
      var fill := 64 - left;
      Count(|input|, |message|);
      var rest := input;
      ghost var done := message;
      if left != 0 && |rest| >= fill {
        Moved(done, rest, fill);
        Fill(left, rest[..fill], done);
        done := done + rest[..fill];
        rest := rest[fill..];
        left := 0;
      }
      while |rest| >= 64
        invariant Absorbed(done) && left == |done| % 64 && done + rest == message + input
        invariant left != 0 ==> left + |rest| < 64
        modifies this`state
      {
        Moved(done, rest, 64);
        Take(rest[..64], done);
        done := done + rest[..64];
        rest := rest[64..];
      }
      Keep(left, rest, done);
      message := message + input;
    }

    method Finish() returns (digest: seq<Byte>)
      requires Valid()
      modifies this, buffer
      ensures digest == Md5(old(message))
    {
      hide Blocks, Block, Padded, LengthBytes, Output, Tail, ZeroCount, CountsTo;
      var length := MessageLength(|message|);
      var last := Left(|message|);
      var padn := if last < 56 then 56 - last else 120 - last;
      ghost var m := message;
      PaddedParts(m, padn);
      Update(PADDING[..padn]);
      Update(length);
      digest := Output(state);
    }

    /** Eight times the counter, as two words. */
    method MessageLength(ghost n: nat) returns (bytes: seq<Byte>)
      requires CountsTo(n)
      ensures bytes == LengthBytes(n)
    {
      var high := total0 / 0x2000_0000 + total1 * 8 % WORD;
      var low := total0 * 8 % WORD;
      TimesEight(n, total0, total1);
      TwoWords(8 * n % LONG, low, high);
      bytes := Bytes4(low) + Bytes4(high);
    }
  }

  const PADDING := [0x80 as Byte] + Zeros(63)

  function Bytes4(w: nat): (bytes: seq<Byte>)
    ensures |bytes| == 4
  {
    [ByteOf(w, 0), ByteOf(w, 1), ByteOf(w, 2), ByteOf(w, 3)]
  }

  lemma {:induction false} TimesEight(n: nat, t0: nat, t1: nat)
    requires t1 * WORD + t0 == n % LONG && t0 < WORD && t1 < WORD
    ensures var high, low := t0 / 0x2000_0000 + t1 * 8 % WORD, t0 * 8 % WORD;
            low < WORD && high < WORD && high * WORD + low == 8 * n % LONG
  {
    var u, v := t0 / 0x2000_0000, t0 % 0x2000_0000;
    DivMod(t0 * 8, WORD, u, 8 * v);
    var w, h := t1 / 0x2000_0000, t1 % 0x2000_0000;
    DivMod(t1 * 8, WORD, w, 8 * h);
    DivMod(8 * n, LONG, 8 * (n / LONG) + w, (8 * h + u) * WORD + 8 * v);
  }

  function Power(k: nat): nat {
    if k == 0 then 1 else 256 * Power(k - 1)
  }

  lemma {:induction false} Regroup(high: nat, p: nat)
    ensures high * (256 * p) == 256 * (high * p)
  {
  }

  lemma {:induction false} LowestByte(rest: nat, low: nat)
    ensures (256 * rest + low) % 256 == low % 256 && (256 * rest + low) / 256 == rest + low / 256
  {
  }

  lemma {:induction false} HighLow(low: nat, high: nat, k: nat, i: nat)
    requires low < Power(k)
    ensures ByteOf(high * Power(k) + low, i) == if i < k then ByteOf(low, i) else ByteOf(high, i - k)
  {
    if k > 0 {
      Regroup(high, Power(k - 1));
      LowestByte(high * Power(k - 1), low);
      if i > 0 {
        HighLow(low / 256, high, k - 1, i - 1);
      }
    }
  }

  /** The bytes of a long word are those of its two halves. */
  lemma {:induction false} TwoWords(v: nat, low: nat, high: nat)
    requires v == high * WORD + low && low < WORD && high < WORD
    ensures Bytes4(low) + Bytes4(high) == seq(8, i requires 0 <= i < 8 => ByteOf(v, i))
  {
    hide ByteOf;
    assert Power(4) == 256 * Power(3) == 256 * (256 * Power(2)) == WORD;
    forall i | 0 <= i < 8
      ensures (Bytes4(low) + Bytes4(high))[i] == ByteOf(v, i)
    {
      HighLow(low, high, 4, i);
    }
  }

  lemma {:induction false} PaddedParts(m: seq<Byte>, padn: nat)
    requires padn == if |m| % 64 < 56 then 56 - |m| % 64 else 120 - |m| % 64
    ensures 0 < padn <= 64
    ensures Padded(m) == (m + PADDING[..padn]) + LengthBytes(|m|)
    ensures Whole(Padded(m)) == Padded(m)
  {
    hide LengthBytes;
    assert PADDING[..padn] == [0x80] + Zeros(ZeroCount(|m|));
  }

  /** However a message is cut into pieces, empty ones included, its digest is that of RFC 1321. */
  method Digest(pieces: seq<seq<Byte>>) returns (digest: seq<Byte>)
    requires forall p | p in pieces :: |p| < WORD
    ensures digest == Md5(Concat(pieces))
  {
    hide Concat, Md5, Context.Valid;
    var context := new Context();
    ConcatNone();
    for i := 0 to |pieces|
      invariant context.Valid() && fresh(context) && fresh(context.buffer) && context.message == Concat(pieces[..i])
    {
      assert pieces[i] in pieces;
      context.Update(pieces[i]);
      ConcatSnoc(pieces[..i], pieces[i]);
      assert pieces[..i + 1] == pieces[..i] + [pieces[i]];
    }
    assert pieces[..|pieces|] == pieces;
    digest := context.Finish();
  }

  function Concat(pieces: seq<seq<Byte>>): seq<Byte> {
    if pieces == [] then [] else pieces[0] + Concat(pieces[1..])
  }

  lemma {:induction false} ConcatNone()
    ensures Concat([]) == []
  {
  }

  lemma {:induction false} ConcatSnoc(pieces: seq<seq<Byte>>, piece: seq<Byte>)
    ensures Concat(pieces + [piece]) == Concat(pieces) + piece
  {
    if pieces == [] {
      assert pieces + [piece] == [piece] && [piece][1..] == [];
    } else {
      assert (pieces + [piece])[1..] == pieces[1..] + [piece];
      ConcatSnoc(pieces[1..], piece);
    }
  }
}
