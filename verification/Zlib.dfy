/** The packet compressor: every byte is replaced by a code of up to 32 bits, and decoded by walking a table of
    jumps. */
module Zlib {
  import opened Bits
  import opened Sequences

  const WORD := 0x1_0000_0000

  // ----- the code table

  function Signed(b: Byte): int {
    if b as int < 0x80 then b as int else b as int - 0x100
  }

  /** The first half of the table holds the codes, the second half their lengths; both are indexed by signed bytes. */
  ghost predicate Complete(enc: seq<Word>) {
    |enc| >= 0x200 && forall b: Byte :: 1 <= enc[Signed(b) + 0x180] as nat <= 32
  }

  function Length(enc: seq<Word>, b: Byte): nat
    requires Complete(enc)
  {
    enc[Signed(b) + 0x180] as nat
  }

  /** The four bytes of a code, least significant first. */
  function Pattern(enc: seq<Word>, b: Byte): (code: seq<Byte>)
    requires Complete(enc)
    ensures |code| == 4
  {
    var v := enc[Signed(b) + 0x80];
    [(v & 0xff) as Byte, ((v >> 8) & 0xff) as Byte, ((v >> 16) & 0xff) as Byte, ((v >> 24) & 0xff) as Byte]
  }

  function Code(enc: seq<Word>, b: Byte): (code: seq<bool>)
    requires Complete(enc)
    ensures |code| == Length(enc, b)
  {
    seq(Length(enc, b), i requires 0 <= i < Length(enc, b) => BitOf(Pattern(enc, b), 0, i))
  }

  function Encoded(enc: seq<Word>, input: seq<Byte>): seq<bool>
    requires Complete(enc)
  {
    if input == [] then [] else Code(enc, input[0]) + Encoded(enc, input[1..])
  }

  lemma {:induction false} CodeBits(enc: seq<Word>, b: Byte)
    requires Complete(enc)
    ensures 1 <= Length(enc, b) <= 32
    ensures forall k | 0 <= k < Length(enc, b) :: Code(enc, b)[k] == BitOf(Pattern(enc, b), 0, k)
  {
    hide BitOf, Pattern, Signed;
  }

  lemma {:induction false} EncodedAppend(enc: seq<Word>, input: seq<Byte>, b: Byte)
    requires Complete(enc)
    ensures Encoded(enc, input + [b]) == Encoded(enc, input) + Code(enc, b)
  {
    hide Complete, Code, Length;
    if input == [] {
      assert input + [b] == [b] && [b][1..] == [];
      assert Encoded(enc, [b]) == Code(enc, b) + [];
    } else {
      EncodedAppend(enc, input[1..], b);
      assert (input + [b])[0] == input[0] && (input + [b])[1..] == input[1..] + [b];
      assert Code(enc, input[0]) + (Encoded(enc, input[1..]) + Code(enc, b)) ==
        (Code(enc, input[0]) + Encoded(enc, input[1..])) + Code(enc, b);
    }
  }

  lemma {:induction false} EncodedGrows(enc: seq<Word>, input: seq<Byte>, i: nat)
    requires Complete(enc) && i <= |input|
    ensures |Encoded(enc, input[..i])| <= |Encoded(enc, input)|
    decreases |input| - i
  {
    hide Complete, Code;
    if i < |input| {
      EncodedAppend(enc, input[..i], input[i]);
      assert input[..i + 1] == input[..i] + [input[i]];
      EncodedGrows(enc, input, i + 1);
    } else {
      assert input[..i] == input;
    }
  }

  lemma {:induction false} EncodedStep(enc: seq<Word>, input: seq<Byte>, i: nat)
    requires Complete(enc) && i < |input|
    ensures Encoded(enc, input[..i + 1]) == Encoded(enc, input[..i]) + Code(enc, input[i])
    ensures |Encoded(enc, input[..i + 1])| <= |Encoded(enc, input)|
  {
    hide Complete, Code, Encoded;
    assert input[..i + 1] == input[..i] + [input[i]];
    EncodedAppend(enc, input[..i], input[i]);
    EncodedGrows(enc, input, i + 1);
  }

  function JoinBytes(p: Byte, q: Byte, r: Byte, s: Byte): Word {
    (p as Word) | ((q as Word) << 8) | ((r as Word) << 16) | ((s as Word) << 24)
  }

  /** The bytes of a code are those of its word, least significant first; in unsigned terms, both halves of the table
      start with the bytes from 0x80 on. */
  lemma {:induction false} CodeEntry(enc: seq<Word>, b: Byte)
    requires Complete(enc)
    ensures var i, p := (b as nat + 0x80) % 0x100, Pattern(enc, b);
      && Length(enc, b) == enc[0x100 + i] as nat
      && JoinBytes(p[0], p[1], p[2], p[3]) == enc[i]
  {
    var i := (b as nat + 0x80) % 0x100;
    assert Signed(b) + 0x80 == i && Signed(b) + 0x180 == 0x100 + i;
    hide JoinBytes;
    FourBytes(enc[i]);
  }

  lemma {:induction false} FourBytes(v: Word)
    ensures JoinBytes((v & 0xff) as Byte, ((v >> 8) & 0xff) as Byte, ((v >> 16) & 0xff) as Byte,
                      ((v >> 24) & 0xff) as Byte) == v
  {
  }

  // ----- compressing

  /** Rounds bits up to bytes. */
  function CompressedSize(bits: nat): nat {
    (bits + 7) / 8
  }

  /** Writes the first `elem` bits of `code` at bit `read` of the part of `out` that starts at `from`. */
  method CompressSub(code: seq<Byte>, read: nat, elem: nat, out: array<Byte>, from: nat, outSz: nat) returns (ok: bool)
    requires |code| == 4 && from + outSz <= out.Length && read + elem < WORD
    modifies out
    ensures ok <==> elem <= 32 && read + elem <= 8 * outSz
    ensures !ok ==> out[..] == old(out[..])
    ensures forall j | 0 <= j < out.Length && !(from <= j < from + outSz) :: out[j] == old(out[j])
    ensures forall k | 0 <= k < 8 * outSz ::
      BitOf(out[..], from, k) == if ok &&
        read <= k < read + elem then BitOf(code, 0, k - read) else BitOf(old(out[..]), from, k)
  {
    hide BitOf, SetBit;
    if CompressedSize(elem) > 4 {
      return false;
    }
    if CompressedSize(read + elem) > outSz {
      return false;
    }
    for i := 0 to elem
      invariant forall j | 0 <= j < out.Length && !(from <= j < from + outSz) :: out[j] == old(out[j])
      invariant forall k | 0 <= k < 8 * outSz ::
        BitOf(out[..], from, k) == if read <= k < read + i then BitOf(code, 0, k - read)
          else BitOf(old(out[..]), from, k)
    {
      var v := (read + i) / 8;
      var shift := (read + i) % 8;
      ghost var was := out[..];
      out[from + v] := SetBit(out[from + v], shift, BitOf(code, 0, i));
      assert out[..] == was[from + v := SetBit(was[from + v], shift, BitOf(code, 0, i))];
      forall k | 0 <= k < 8 * outSz
        ensures BitOf(out[..], from, k) == if k == read + i then BitOf(code, 0, i) else BitOf(was, from, k)
      {
        SetBitOf(was, from, read + i, BitOf(code, 0, i), k);
      }
    }
    ok := true;
  }

  /** An input that does not fit is refused, or replaced by a filler under the guise of a success; `Overrun` is a filler
      that would reach beyond the buffer. */
  datatype Compression = Compressed(bits: nat) | OutOfSpace | Filler(size: nat) | Overrun

  /** Whether the code of the whole input fits. */
  ghost predicate Fits(enc: seq<Word>, input: seq<Byte>, outSz: nat)
    requires Complete(enc)
  {
    input == [] || |Encoded(enc, input)| < 8 * (outSz - 1)
  }

  ghost predicate Holds(buffer: seq<Byte>, from: nat, bits: seq<bool>) {
    from + CompressedSize(|bits|) <= |buffer| && forall k | 0 <= k < |bits| :: BitOf(buffer, from, k) == bits[k]
  }

  /** From the bit `first` behind the first byte on, the buffers agree. */
  ghost predicate SameBehind(was: seq<Byte>, now: seq<Byte>, first: nat) {
    |was| == |now| > 0 && forall k | first <= k < 8 * (|was| - 1) :: BitOf(now, 1, k) == BitOf(was, 1, k)
  }

  lemma {:induction false} SameTransitive(s: seq<Byte>, t: seq<Byte>, u: seq<Byte>, j: nat, k: nat)
    requires SameBehind(s, t, j) && SameBehind(t, u, k)
    ensures SameBehind(s, u, if j < k then k else j)
  {
    hide BitOf;
  }

  lemma {:induction false} NothingYet(enc: seq<Word>, input: seq<Byte>, buffer: seq<Byte>)
    requires Complete(enc) && |buffer| > 0
    ensures Encoded(enc, input[..0]) == [] && Encoded(enc, []) == [] && Holds(buffer, 1, []) &&
      SameBehind(buffer, buffer, 0)
  {
  }

  /** What was written stays, and the new code follows it. */
  lemma {:induction false} Extended(was: seq<Byte>, now: seq<Byte>, done: seq<bool>, code: seq<bool>,
      pattern: seq<Byte>, size: nat)
    requires |was| == size + 1 == |now| && |pattern| == 4 && |code| <= 32 && |done| + |code| <= 8 * size
    requires Holds(was, 1, done) && forall k | 0 <= k < |code| :: code[k] == BitOf(pattern, 0, k)
    requires forall k | 0 <= k < 8 * size ::
      BitOf(now, 1, k) == if |done| <= k < |done| + |code| then BitOf(pattern, 0, k - |done|) else BitOf(was, 1, k)
    ensures Holds(now, 1, done + code)
    ensures SameBehind(was, now, |done + code|)
  {
    hide BitOf;
  }

  /** Setting the first byte does not touch the bits behind it. */
  lemma {:induction false} FirstByte(was: seq<Byte>, now: seq<Byte>, bits: seq<bool>)
    requires |was| == |now| > 0 && now == was[0 := now[0]]
    ensures SameBehind(was, now, 0)
    ensures Holds(was, 1, bits) ==> Holds(now, 1, bits)
  {
    hide GetBit;
  }

  /** Appends the code of one byte to the bits already written. */
  method CompressByte(enc: seq<Word>, b: Byte, read: nat, elem: nat, out: array<Byte>, ghost done: seq<bool>)
    requires Complete(enc) && 1 <= out.Length <= 0x1000_0000 && elem == Length(enc, b) &&
      read + elem <= 8 * (out.Length - 1)
    requires read == |done| && Holds(out[..], 1, done)
    modifies out
    ensures Holds(out[..], 1, done + Code(enc, b))
    ensures SameBehind(old(out[..]), out[..], read + elem) && out[0] == old(out[0])
  {
    hide Complete, Code, BitOf, Signed, Holds, Length, Pattern, CompressedSize;
    CodeBits(enc, b);
    var ok := CompressSub(Pattern(enc, b), read, elem, out, 1, out.Length - 1);
    assert ok;
    Extended(old(out[..]), out[..], done, Code(enc, b), Pattern(enc, b), out.Length - 1);
  }

  method MarkCompressed(out: array<Byte>, ghost bits: seq<bool>)
    requires out.Length > 0 && Holds(out[..], 1, bits)
    modifies out
    ensures out[0] == 1 && Holds(out[..], 1, bits) && SameBehind(old(out[..]), out[..], 0)
  {
    hide Holds, SameBehind;
    out[0] := 1;
    FirstByte(old(out[..]), out[..], bits);
  }

  /** The codes of the first i bytes have been written, and there is no room for the next one. */
  ghost predicate Stuck(enc: seq<Word>, input: seq<Byte>, i: nat, was: seq<Byte>, now: seq<Byte>)
    requires Complete(enc) && |was| > 0
  {
    && i < |input| && |now| == |was| && now[0] == was[0]
    && (i > 0 ==> |Encoded(enc, input[..i])| < 8 * (|was| - 1)) && |Encoded(enc, input[..i + 1])| >= 8 * (|was| - 1)
    && Holds(now, 1, Encoded(enc, input[..i])) && SameBehind(was, now, |Encoded(enc, input[..i])|)
  }

  /** The three runs of the filler end inside the buffer. */
  predicate FillerFits(inSz: nat, outSz: nat) {
    outSz / 4 + inSz % 4 <= outSz && 1 + inSz / 4 + inSz % 4 <= outSz
  }

  /** Each later run overwrites the earlier ones. */
  function FillerAt(was: seq<Byte>, inSz: nat, k: nat): Byte
    requires k < |was|
  {
    if 1 + inSz / 4 <= k < 1 + inSz / 4 + inSz % 4 then ((inSz + 1) * 8 % 0x100) as Byte
    else if 1 <= k < 1 + inSz / 4 then (inSz % 0x100) as Byte
    else if k < |was| / 4 + inSz % 4 then 0
    else was[k]
  }

  function Filled(was: seq<Byte>, inSz: nat): (now: seq<Byte>)
    ensures |now| == |was| && forall k | 0 <= k < |was| :: now[k] == FillerAt(was, inSz, k)
  {
    seq(|was|, k requires 0 <= k < |was| => FillerAt(was, inSz, k))
  }

  /** memset */
  method Fill(out: array<Byte>, from: nat, n: nat, b: Byte)
    requires from + n <= out.Length
    modifies out
    ensures forall k | 0 <= k < out.Length :: out[k] == if from <= k < from + n then b else old(out[k])
  {
    for i := 0 to n
      invariant forall k | 0 <= k < out.Length :: out[k] == if from <= k < from + i then b else old(out[k])
    {
      out[from + i] := b;
    }
  }

  method WriteFiller(out: array<Byte>, inSz: nat)
    requires FillerFits(inSz, out.Length)
    modifies out
    ensures out[..] == Filled(old(out[..]), inSz)
  {
    Fill(out, 0, out.Length / 4 + inSz % 4, 0);
    Fill(out, 1, inSz / 4, (inSz % 0x100) as Byte);
    Fill(out, 1 + inSz / 4, inSz % 4, ((inSz + 1) * 8 % 0x100) as Byte);
  }

  method RefuseInput(out: array<Byte>, inSz: nat) returns (r: Compression)
    modifies out
    ensures r == if inSz + 1 < out.Length then OutOfSpace else if FillerFits(inSz, out.Length) then Filler(inSz)
      else Overrun
    ensures out[..] == if r.Filler? then Filled(old(out[..]), inSz) else old(out[..])
  {
    hide Filled;
    if inSz + 1 >= out.Length {
      if !FillerFits(inSz, out.Length) {
        return Overrun;
      }
      WriteFiller(out, inSz);
      r := Filler(inSz);
    } else {
      r := OutOfSpace;
    }
  }

  /** Compresses `input`; the size limit is that the number of bits is returned as a signed 32-bit integer. */
  method Compress(enc: seq<Word>, input: seq<Byte>, out: array<Byte>) returns (r: Compression)
    requires Complete(enc) && 1 <= out.Length <= 0x1000_0000
    modifies out
    ensures r.Compressed? <==> Fits(enc, input, out.Length)
    ensures r.Compressed? ==>
      r.bits == |Encoded(enc, input)| + 8 < 0x8000_0000 && out[0] == 1 && Holds(out[..], 1, Encoded(enc, input))
    ensures r.Compressed? ==> SameBehind(old(out[..]), out[..], r.bits - 8)
    ensures !r.Compressed? ==>
      r == if |input| + 1 < out.Length then OutOfSpace else if FillerFits(|input|, out.Length) then Filler(|input|)
        else Overrun
    ensures r.OutOfSpace? ==> exists i :: Stuck(enc, input, i, old(out[..]), out[..])
    ensures r.Filler? ==> exists i, now :: Stuck(enc, input, i, old(out[..]), now) && out[..] == Filled(now, |input|)
  {
    hide Complete, Code, Encoded, BitOf, Signed, Holds, Length, Pattern, CompressedSize, SameBehind, FillerFits, Filled;
    var read := 0;
    var maxSz := (out.Length - 1) * 8;
    ghost var start := out[..];
    NothingYet(enc, input, start);
    for i := 0 to |input|
      invariant read == |Encoded(enc, input[..i])| && (i == 0 || read < maxSz)
      invariant Holds(out[..], 1, Encoded(enc, input[..i]))
      invariant SameBehind(start, out[..], read) && out[0] == start[0]
    {
      ghost var done, was := Encoded(enc, input[..i]), out[..];
      EncodedStep(enc, input, i);
      var elem := Length(enc, input[i]);
      if elem + read < maxSz {
        CompressByte(enc, input[i], read, elem, out, done);
        SameTransitive(start, was, out[..], read, read + elem);
        read := read + elem;
      } else {
        assert Stuck(enc, input, i, start, out[..]);
        r := RefuseInput(out, |input|);
        return;
      }
    }
    assert input[..|input|] == input;
    ghost var was := out[..];
    MarkCompressed(out, Encoded(enc, input));
    SameTransitive(start, was, out[..], read, 0);
    r := Compressed(read + 8);
  }

  /** The filler is reached: four bytes whose code has eight bits, in a buffer of five bytes. */
  lemma {:induction false} FillerReached(enc: seq<Word>, b: Byte)
    requires Complete(enc) && Length(enc, b) >= 8
    ensures !Fits(enc, [b, b, b, b], 5) && FillerFits(4, 5)
  {
    hide Complete, Code, Encoded, Length;
    EncodedNone(enc);
    EncodedAppend(enc, [], b);
    EncodedAppend(enc, [b], b);
    EncodedAppend(enc, [b, b], b);
    EncodedAppend(enc, [b, b, b], b);
    assert [] + [b] == [b] && [b] + [b] == [b, b] && [b, b] + [b] == [b, b, b] && [b, b, b] + [b] == [b, b, b, b];
  }

  lemma {:induction false} EncodedNone(enc: seq<Word>)
    requires Complete(enc)
    ensures Encoded(enc, []) == []
  {
  }

  /** Any input overruns a buffer of one byte, which is too small for the filler too. */
  lemma {:induction false} OverrunReached(enc: seq<Word>, input: seq<Byte>)
    requires Complete(enc) && input != []
    ensures !Fits(enc, input, 1) && !FillerFits(|input|, 1)
  {
  }

  // ----- the jump table

  /** An entry is a pointer to another entry, or a byte of data; the null pointer is the zero byte. */
  datatype Jump = Pointer(index: nat) | Data(value: Byte)

  const NULL := Data(0)

  /** Entries above 0xff are addresses; the first entry of the table would lie 4 before the first address. */
  function Entry(dec: seq<Word>, i: nat): Jump
    requires i < |dec|
  {
    if dec[i] > 0xff then Pointer(((dec[i] - (dec[0] - 4)) / 4) as nat) else Data((dec[i] & 0xff) as Byte)
  }

  /** A byte other than zero has null pointers two and three entries before it. */
  ghost predicate DataAtLeaf(jump: seq<Jump>, i: nat)
    requires i < |jump|
  {
    jump[i].Data? && jump[i] != NULL ==> i >= 3 && jump[i - 2] == NULL && jump[i - 3] == NULL
  }

  /** Turns the table of addresses into jumps; stops where the assertion about data entries fails. */
  method PopulateJumpTable(dec: seq<Word>) returns (jump: array<Jump>, ok: bool)
    requires |dec| > 0
    ensures fresh(jump) && jump.Length == |dec|
    ensures ok ==> forall i | 0 <= i < |dec| :: jump[i] == Entry(dec, i)
    ensures ok <==> forall i | 0 <= i < |dec| :: DataAtLeaf(Table(dec), i)
  {
    hide Entry;
    jump := new Jump[|dec|](_ => NULL);
    for i := 0 to |dec|
      invariant forall j | 0 <= j < i :: jump[j] == Entry(dec, j)
      invariant forall j | 0 <= j < i :: DataAtLeaf(Table(dec), j)
    {
      jump[i] := Entry(dec, i);
      if jump[i].Data? && jump[i] != NULL && !(i >= 3 && jump[i - 2] == NULL && jump[i - 3] == NULL) {
        assert !DataAtLeaf(Table(dec), i);
        return jump, false;
      }
    }
    ok := true;
  }

  function Table(dec: seq<Word>): (jump: seq<Jump>)
    ensures |jump| == |dec| && forall i | 0 <= i < |dec| :: jump[i] == Entry(dec, i)
  {
    seq(|dec|, i requires 0 <= i < |dec| => Entry(dec, i))
  }

  // ----- decompressing

  /** Where a bit leads from an entry. */
  function Follow(jump: seq<Jump>, at: nat, bit: bool): Option<nat> {
    var i := if bit then at + 1 else at;
    if i < |jump| && jump[i].Pointer? && jump[i].index <= |jump| then Some(jump[i].index) else None
  }

  /** There is somewhere to go from here. */
  predicate Inner(jump: seq<Jump>, at: nat) {
    at < |jump| && (jump[at] != NULL || (at + 1 < |jump| && jump[at + 1] != NULL))
  }

  /** There is nowhere to go from here, and a byte is stored behind. */
  predicate Leaf(jump: seq<Jump>, at: nat) {
    at + 3 < |jump| && jump[at] == NULL && jump[at + 1] == NULL && jump[at + 3].Data?
  }

  function DataAt(jump: seq<Jump>, at: nat): Byte
    requires Leaf(jump, at)
  {
    jump[at + 3].value
  }

  function Root(jump: seq<Jump>): Option<nat> {
    if |jump| > 0 && jump[0].Pointer? && jump[0].index <= |jump| then Some(jump[0].index) else None
  }

  /** `Broken` stands for a failing assertion or a read outside the table. */
  datatype Ending = Done | NoRoom | Broken

  /** The bytes that are written when `bits` are read starting at the entry `at`, with `room` bytes left. */
  function Decoded(jump: seq<Jump>, at: nat, bits: seq<bool>, room: nat): (seq<Byte>, Ending)
    decreases |bits|
  {
    if bits == [] || room == 0 then ([], Done)
    else
      var next := Follow(jump, at, bits[0]);
      if next.None? || Root(jump).None? then ([], Broken)
      else if Inner(jump, next.value) then Decoded(jump, next.value, bits[1..], room)
      else if !Leaf(jump, next.value) then ([], Broken)
      else
        var b := DataAt(jump, next.value);
        if room == 1 then ([b], NoRoom)
        else
          var (rest, ending) := Decoded(jump, Root(jump).value, bits[1..], room - 1);
          ([b] + rest, ending)
  }

  /** One bit read. */
  lemma {:induction false} DecodedStep(jump: seq<Jump>, at: nat, input: seq<Byte>, inSz: nat, i: nat, room: nat)
    requires 1 + CompressedSize(inSz) <= |input| && i < inSz && room > 0 && Root(jump).Some?
    ensures 1 + i / 8 < |input|
    ensures var bits, next := BitsOf(input, 1, inSz), Follow(jump, at, BitOf(input, 1, i));
      Decoded(jump, at, bits[i..], room) ==
      if next.None? then ([], Broken)
      else if Inner(jump, next.value) then Decoded(jump, next.value, bits[i + 1..], room)
      else if !Leaf(jump, next.value) then ([], Broken)
      else
        var b := DataAt(jump, next.value);
        if room == 1 then ([b], NoRoom)
        else var (rest, ending) := Decoded(jump, Root(jump).value, bits[i + 1..], room - 1); ([b] + rest, ending)
  {
    hide Follow, Inner, Leaf, DataAt, Root, BitOf;
    assert 1 + i / 8 < |input|;
    var bits := BitsOf(input, 1, inSz);
    assert bits[i] == BitOf(input, 1, i) && bits[i..][1..] == bits[i + 1..];
  }

  datatype Decompression = Written(count: nat) | Invalid | OutputFull | TableBroken

  function BitsOf(buffer: seq<Byte>, from: nat, n: nat): (bits: seq<bool>)
    requires from + CompressedSize(n) <= |buffer|
    ensures |bits| == n
  {
    seq(n, k requires 0 <= k < n => BitOf(buffer, from, k))
  }

  method Decompress(jump: seq<Jump>, input: seq<Byte>, inSz: nat, out: array<Byte>) returns (r: Decompression)
    requires 1 + CompressedSize(inSz) <= |input| && |jump| > 0
    modifies out
    ensures r.Invalid? <==> Root(jump).Some? && input[0] != 1
    ensures Root(jump).None? ==> r == TableBroken
    ensures Root(jump).Some? && input[0] == 1 ==>
      var (bytes, ending) := Decoded(jump, Root(jump).value, BitsOf(input, 1, inSz), out.Length);
      && |bytes| <= out.Length && out[..|bytes|] == bytes &&
         (forall k | |bytes| <= k < out.Length :: out[k] == old(out[k]))
      && r == match ending { case Done => Written(|bytes|) case NoRoom => OutputFull case Broken => TableBroken }
    ensures r.Invalid? || Root(jump).None? ==> out[..] == old(out[..])
  {
    hide Follow, Inner, Leaf, DataAt, Root, BitOf, CompressedSize, Decoded, BitsOf;
    if Root(jump).None? {
      return TableBroken;
    }
    var at := Root(jump).value;
    if input[0] != 1 {
      return Invalid;
    }
    ghost var bits := BitsOf(input, 1, inSz);
    ghost var whole := Decoded(jump, at, bits, out.Length);
    var w := 0;
    var i := 0;
    assert bits[0..] == bits;
    while i < inSz && w < out.Length
      invariant i <= inSz && w <= out.Length && (w == out.Length ==> w == 0)
      invariant whole.0 == out[..w] + Decoded(jump, at, bits[i..], out.Length - w).0
      invariant whole.1 == Decoded(jump, at, bits[i..], out.Length - w).1
      invariant forall k | w <= k < out.Length :: out[k] == old(out[k])
    {
      DecodedStep(jump, at, input, inSz, i, out.Length - w);
      var next := Follow(jump, at, BitOf(input, 1, i));
      if next.None? {
        return TableBroken;
      }
      at := next.value;
      i := i + 1;
      if !Inner(jump, at) {
        if !Leaf(jump, at) {
          return TableBroken;
        }
        ghost var done := out[..w];
        out[w] := DataAt(jump, at);
        w := w + 1;
        assert out[..w] == done + [DataAt(jump, at)];
        at := Root(jump).value;
        if w >= out.Length {
          return OutputFull;
        }
      }
    }
    DecodedStop(jump, at, bits[i..], out.Length - w);
    r := Written(w);
  }

  lemma {:induction false} DecodedStop(jump: seq<Jump>, at: nat, bits: seq<bool>, room: nat)
    requires bits == [] || room == 0
    ensures Decoded(jump, at, bits, room) == ([], Done)
  {
  }

  /** A table of addresses from 0x1000 on: the code of 0x61 is a 0, and that of 0x62 are two 1s. */
  const SMALL: seq<Word> := [0x1004, 0x100c, 0x101c, 0, 0, 0, 0x61, 0, 0x1024, 0, 0, 0, 0x62]

  const SMALL_JUMPS :=
    [Pointer(1), Pointer(3), Pointer(7), NULL, NULL, NULL, Data(0x61), NULL, Pointer(9), NULL, NULL, NULL, Data(0x62)]

  lemma {:induction false} SmallEntries()
    ensures |SMALL| == 13 && Table(SMALL) == SMALL_JUMPS
  {
  }

  lemma {:induction false} SmallSteps()
    ensures var jump := SMALL_JUMPS;
      && Root(jump) == Some(1)
      && Follow(jump, 1, false) == Some(3) && !Inner(jump, 3) && Leaf(jump, 3) && DataAt(jump, 3) == 0x61
      && Follow(jump, 1, true) == Some(7) && Inner(jump, 7)
      && Follow(jump, 7, true) == Some(9) && !Inner(jump, 9) && Leaf(jump, 9) && DataAt(jump, 9) == 0x62
      && Follow(jump, 7, false) == None
  {
  }

  lemma {:induction false} SmallDecoded(more: seq<bool>, room: nat)
    requires room > 1
    ensures var jump := SMALL_JUMPS; var (bytes, ending) := Decoded(jump, 1, more, room - 1);
      && Decoded(jump, 1, [false] + more, room) == ([0x61] + bytes, ending)
      && Decoded(jump, 1, [true, true] + more, room) == ([0x62] + bytes, ending)
      && Decoded(jump, 1, [true, false] + more, room) == ([], Broken)
  {
    hide Follow, Leaf, Inner, DataAt, Root;
    SmallSteps();
    assert ([false] + more)[1..] == more && ([true] + more)[1..] == more && ([false] + more)[0] == false;
    assert ([true, true] + more)[1..] == [true] + more && ([true, false] + more)[1..] == [false] + more;
    assert Decoded(SMALL_JUMPS, 7, [true] + more, room).1 == Decoded(SMALL_JUMPS, 1, more, room - 1).1;
    assert Decoded(SMALL_JUMPS, 7, [false] + more, room) == ([], Broken);
  }

  /** The first address leads to the entry behind it; from there the bits are followed to the bytes, three entries
      behind two null pointers. */
  lemma {:induction false} SmallTable(more: seq<bool>, room: nat)
    requires room > 1
    ensures var jump := Table(SMALL);
      && Root(jump) == Some(1) && (forall i | 0 <= i < |SMALL| :: DataAtLeaf(jump, i))
      && var (bytes, ending) := Decoded(jump, 1, more, room - 1);
         && Decoded(jump, 1, [false] + more, room) == ([0x61] + bytes, ending)
         && Decoded(jump, 1, [true, true] + more, room) == ([0x62] + bytes, ending)
         && Decoded(jump, 1, [true, false] + more, room) == ([], Broken)
  {
    hide Entry, Table, Decoded, Follow, Leaf, Inner;
    SmallEntries();
    SmallSteps();
    SmallDecoded(more, room);
  }

  // ----- tables that agree

  /** Reading `code` from the entry `at` leads to the leaf that holds `b`, and to no leaf before. */
  ghost predicate Walks(jump: seq<Jump>, at: nat, code: seq<bool>, b: Byte)
    decreases |code|
  {
    code != [] &&
    var next := Follow(jump, at, code[0]);
    next.Some? &&
    if |code| == 1 then Leaf(jump, next.value) && DataAt(jump, next.value) == b
    else Inner(jump, next.value) && Walks(jump, next.value, code[1..], b)
  }

  ghost predicate Agree(enc: seq<Word>, jump: seq<Jump>) {
    && Complete(enc) && Root(jump).Some?
    && forall b: Byte :: Walks(jump, Root(jump).value, Code(enc, b), b)
  }

  lemma {:induction false} DecodedWalk(jump: seq<Jump>, at: nat, code: seq<bool>, b: Byte, rest: seq<bool>, room: nat)
    requires Root(jump).Some? && Walks(jump, at, code, b) && room > 0
    ensures Decoded(jump, at, code + rest, room) ==
            if room == 1 then ([b], NoRoom)
            else var (bytes, ending) := Decoded(jump, Root(jump).value, rest, room - 1); ([b] + bytes, ending)
    decreases |code|
  {
    assert (code + rest)[1..] == code[1..] + rest;
    if |code| == 1 {
      assert code[1..] + rest == rest;
    } else {
      DecodedWalk(jump, Follow(jump, at, code[0]).value, code[1..], b, rest, room);
    }
  }

  /** Decoding an encoding gives back the input, as far as there is room. */
  lemma {:induction false} DecodedEncoded(enc: seq<Word>, jump: seq<Jump>, input: seq<Byte>, room: nat)
    requires Agree(enc, jump)
    ensures Decoded(jump, Root(jump).value, Encoded(enc, input), room) ==
            if |input| < room then (input, Done) else (input[..room], if room == 0 || input == [] then Done else NoRoom)
  {
    hide Walks, Code, Complete, Follow;
    if input != [] && room > 0 {
      assert Walks(jump, Root(jump).value, Code(enc, input[0]), input[0]);
      DecodedWalk(jump, Root(jump).value, Code(enc, input[0]), input[0], Encoded(enc, input[1..]), room);
      DecodedEncoded(enc, jump, input[1..], room - 1);
      assert [input[0]] + input[1..] == input;
      assert room <= |input| ==> [input[0]] + input[1..][..room - 1] == input[..room];
    }
  }

  lemma {:induction false} HeldBits(buffer: seq<Byte>, bits: seq<bool>)
    requires Holds(buffer, 1, bits)
    ensures BitsOf(buffer, 1, |bits|) == bits
  {
    hide BitOf;
  }

  /** No two inputs have the same code. */
  lemma {:induction false} Injective(enc: seq<Word>, jump: seq<Jump>, s: seq<Byte>, t: seq<Byte>)
    requires Agree(enc, jump) && Encoded(enc, s) == Encoded(enc, t)
    ensures s == t
  {
    hide Agree, Encoded, Decoded;
    DecodedEncoded(enc, jump, s, |s| + |t| + 1);
    DecodedEncoded(enc, jump, t, |s| + |t| + 1);
  }

  /** What was compressed and fitted is decompressed to what it was, given the payload bits and a buffer with at least
      one byte to spare; without that byte the bytes still come out, but the buffer is reported to be full.  An empty
      buffer is never reported to be full: nothing is written, and that is called a success even if the input was not
      empty. */
  method RoundTrip(enc: seq<Word>, jump: seq<Jump>, input: seq<Byte>, packed: array<Byte>, out: array<Byte>)
    returns (c: Compression, d: Decompression)
    requires Agree(enc, jump) && packed != out && 1 <= packed.Length <= 0x1000_0000
    modifies packed, out
    ensures c.Compressed? <==> Fits(enc, input, packed.Length)
    ensures c.Compressed? && |input| < out.Length ==> d == Written(|input|) && out[..|input|] == input
    ensures c.Compressed? && 0 < out.Length <= |input| ==> d == OutputFull && out[..] == input[..out.Length]
    ensures c.Compressed? && out.Length == 0 ==> d == Written(0)
    ensures c.Compressed? ==> ((exists n :: d == Written(n)) <==> |input| < out.Length || out.Length == 0)
    ensures c.Compressed? ==> (d == Written(|input|) <==> |input| < out.Length || (input == [] && out.Length == 0))
  {
    hide Complete, Encoded, Decoded, BitsOf, CompressedSize, Fits;
    c := Compress(enc, input, packed);
    d := Invalid;
    if c.Compressed? {
      HeldBits(packed[..], Encoded(enc, input));
      DecodedEncoded(enc, jump, input, out.Length);
      d := Decompress(jump, packed[..], c.bits - 8, out);
    }
  }
}
