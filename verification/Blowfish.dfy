/** The Feistel cipher of the packet encryption: 16 rounds, each keyed by one word of P, around the function TT of S. */
module Blowfish {
  import opened Bits

  const N := 16

  /** Two halves of a block. */
  datatype Block = Block(left: Word, right: Word)

  function Xor(x: Word, y: Word): Word {
    x ^ y
  }

  predicate Tables(p: seq<Word>, s: seq<Word>) {
    |p| == 18 && |s| == 1024
  }

  function TT(working: Word, s: seq<Word>): Word
    requires |s| == 1024
  {
    Mixed(s[256 + ((working >> 8) & 0xff) as int], s[768 + (working >> 24) as int],
          s[512 + ((working >> 16) & 0xff) as int], s[(working & 0xff) as int])
  }

  function Mixed(x: Word, y: Word, z: Word, u: Word): Word {
    Flipped(x) + Flipped(y) + z + u
  }

  function Flipped(x: Word): Word {
    (x & 1) ^ 32
  }

  /** The lowest byte and the second highest select a word each, the other two one bit each. */
  lemma {:induction false} TTBytes(a: Word, b: Word, c: Word, d: Word, s: seq<Word>)
    requires a <= 0xff && b <= 0xff && c <= 0xff && d <= 0xff && |s| == 1024
    ensures TT((a << 24) | (b << 16) | (c << 8) | d, s) ==
            Mixed(s[256 + c as int], s[768 + a as int], s[512 + b as int], s[d as int])
  {
    hide Mixed;
    ByteParts(a, b, c, d);
  }

  lemma {:induction false} ByteParts(a: Word, b: Word, c: Word, d: Word)
    requires a <= 0xff && b <= 0xff && c <= 0xff && d <= 0xff
    ensures var w := (a << 24) | (b << 16) | (c << 8) | d;
      (w >> 8) & 0xff == c && w >> 24 == a && (w >> 16) & 0xff == b && w & 0xff == d
  {
  }

  /** Of two of the words only the lowest bit counts, with 32 added; the other two count as they are. */
  lemma {:induction false} FlippedBit(x: Word)
    ensures Flipped(x) == 32 + if x & 1 != 0 then 1 else 0
  {
  }

  lemma {:induction false} MixedExample()
    ensures Mixed(0x8000_0003, 0x8000_0004, 5, 0x7000_0000) == 0x7000_0046
  {
  }

  // ----- one round, and all of them

  /** A key word goes into the left half, the left half through TT into the right half, and the halves change places. */
  function Round(b: Block, key: Word, s: seq<Word>): Block
    requires |s| == 1024
  {
    var left := Xor(b.left, key);
    Block(Xor(TT(left, s), b.right), left)
  }

  /** After n rounds with the keys p[0], p[1], ... */
  function Rounds(b: Block, p: seq<Word>, s: seq<Word>, n: nat): Block
    requires |s| == 1024 && n <= |p|
  {
    if n == 0 then b else Round(Rounds(b, p, s, n - 1), p[n - 1], s)
  }

  /** The halves change back, and the last two key words go in. */
  function Whiten(b: Block, last: Word, first: Word): Block {
    Block(Xor(b.right, first), Xor(b.left, last))
  }

  function Enciphered(b: Block, p: seq<Word>, s: seq<Word>): Block
    requires Tables(p, s)
  {
    Whiten(Rounds(b, p, s, N), p[N], p[N + 1])
  }

  function Reversed(p: seq<Word>): (r: seq<Word>)
    ensures |r| == |p| && forall i | 0 <= i < |p| :: r[i] == p[|p| - 1 - i]
  {
    seq(|p|, i requires 0 <= i < |p| => p[|p| - 1 - i])
  }

  function Deciphered(b: Block, p: seq<Word>, s: seq<Word>): Block
    requires Tables(p, s)
  {
    Enciphered(b, Reversed(p), s)
  }

  // ----- the loops

  method Encipher(xl: Word, xr: Word, p: array<Word>, s: array<Word>) returns (yl: Word, yr: Word)
    requires p.Length == 18 && s.Length == 1024
    ensures Block(yl, yr) == Enciphered(Block(xl, xr), p[..], s[..])
  {
    hide TT, Xor;
    yl, yr := xl, xr;
    for i := 0 to N
      invariant Block(yl, yr) == Rounds(Block(xl, xr), p[..], s[..], i)
    {
      yl := Xor(yl, p[i]);
      yr := Xor(TT(yl, s[..]), yr);
      var temp := yl;
      yl := yr;
      yr := temp;
    }
    var temp := yl;
    yl := yr;
    yr := temp;
    yr := Xor(yr, p[N]);
    yl := Xor(yl, p[N + 1]);
  }

  /** The same rounds with the key words from last to first. */
  method Decipher(xl: Word, xr: Word, p: array<Word>, s: array<Word>) returns (yl: Word, yr: Word)
    requires p.Length == 18 && s.Length == 1024
    ensures Block(yl, yr) == Deciphered(Block(xl, xr), p[..], s[..])
  {
    hide TT, Xor;
    yl, yr := xl, xr;
    ghost var r := Reversed(p[..]);
    var i := N + 1;
    while i > 1
      invariant 1 <= i <= N + 1
      invariant Block(yl, yr) == Rounds(Block(xl, xr), r, s[..], N + 1 - i)
    {
      assert r[N + 1 - i] == p[i];
      yl := Xor(yl, p[i]);
      yr := Xor(TT(yl, s[..]), yr);
      var temp := yl;
      yl := yr;
      yr := temp;
      i := i - 1;
    }
    var temp := yl;
    yl := yr;
    yr := temp;
    assert r[N] == p[1] && r[N + 1] == p[0];
    yr := Xor(yr, p[1]);
    yl := Xor(yl, p[0]);
  }

  // ----- deciphering undoes enciphering

  lemma {:induction false} XorTwice(x: Word, k: Word)
    ensures Xor(Xor(x, k), k) == x
  {
  }

  lemma {:induction false} XorAssociates(x: Word, y: Word, z: Word)
    ensures Xor(x, Xor(y, z)) == Xor(Xor(x, y), z)
  {
  }

  lemma {:induction false} XorCommutes(x: Word, y: Word)
    ensures Xor(x, y) == Xor(y, x)
  {
  }

  /** After j rounds backwards from the end, the state of round 16 - j has come back, its right half hidden by a key
      word. */
  lemma {:induction false} Backwards(b: Block, p: seq<Word>, s: seq<Word>, j: nat)
    requires Tables(p, s) && j <= N
    ensures var c := Enciphered(b, p, s);
            Rounds(c, Reversed(p), s, j) ==
            Block(Xor(Rounds(b, p, s, N - j).right, p[N + 1 - j]),
                  if j == 0 then c.right else Rounds(b, p, s, N + 1 - j).right)
  {
    hide TT, Xor;
    var c := Enciphered(b, p, s);
    if j > 0 {
      Backwards(b, p, s, j - 1);
      var last, before := Rounds(b, p, s, N + 1 - j), Rounds(b, p, s, N - j);
      assert last == Round(before, p[N - j], s);
      assert Reversed(p)[j - 1] == p[N + 2 - j];
      XorTwice(last.right, p[N + 2 - j]);
      var t, r, k := TT(last.right, s), before.right, p[N + 1 - j];
      XorTwice(r, t);
      XorCommutes(r, t);
      XorCommutes(Xor(t, r), t);
      XorAssociates(t, Xor(t, r), k);
    }
  }

  /** For all tables, whatever key they were made from, deciphering undoes enciphering and the other way round. */
  lemma {:induction false} Inverse(b: Block, p: seq<Word>, s: seq<Word>)
    requires Tables(p, s)
    ensures Deciphered(Enciphered(b, p, s), p, s) == b
    ensures Enciphered(Deciphered(b, p, s), p, s) == b
  {
    hide TT, Xor, Rounds, Enciphered;
    Undone(b, p, s);
    Undone(b, Reversed(p), s);
    assert Reversed(Reversed(p)) == p;
  }

  lemma {:induction false} Undone(b: Block, p: seq<Word>, s: seq<Word>)
    requires Tables(p, s)
    ensures Enciphered(Enciphered(b, p, s), Reversed(p), s) == b
  {
    hide TT, Xor;
    Backwards(b, p, s, N);
    XorTwice(b.right, p[1]);
    XorTwice(b.left, p[0]);
    assert Rounds(b, p, s, 1) == Round(Rounds(b, p, s, 0), p[0], s);
  }
}
