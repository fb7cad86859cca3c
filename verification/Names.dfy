/** Six bits per character: the names of linkshells and the signatures of crafted items. */
module Names {
  import opened Arithmetic
  import opened Bits
  import opened BitFields

  // ----- C strings

  function StrLen(b: seq<Byte>): (n: nat)
    ensures n <= |b| && (forall j | 0 <= j < n :: b[j] != 0) && (n < |b| ==> b[n] == 0)
  {
    if b == [] || b[0] == 0 then 0 else 1 + StrLen(b[1..])
  }

  /** Copies up to the first zero byte and fills the rest with zeros. */
  function StrNCpy(b: seq<Byte>): (r: seq<Byte>)
    ensures |r| == |b| && forall j | 0 <= j < |b| :: r[j] == if j < StrLen(b) then b[j] else 0
  {
    seq(|b|, j requires 0 <= j < |b| => if j < StrLen(b) then b[j] else 0)
  }

  /** The characters before the first null character, which are all of them when there is none. */
  function CString(b: seq<char>): (s: string)
    ensures |s| <= |b| && s == b[..|s|] && (forall j | 0 <= j < |s| :: s[j] != '\0') && (|s| < |b| ==> b[|s|] == '\0')
  {
    if b == [] || b[0] == '\0' then [] else [b[0]] + CString(b[1..])
  }

  /** A string and null characters behind it. */
  function Padded(s: string, size: nat): (b: seq<char>)
    requires |s| <= size
    ensures |b| == size && forall j | 0 <= j < size :: b[j] == if j < |s| then s[j] else '\0'
  {
    seq(size, j requires 0 <= j < size => if j < |s| then s[j] else '\0')
  }

  predicate Terminated(b: seq<char>) {
    exists j | 0 <= j < |b| :: b[j] == '\0'
  }

  lemma {:induction false} StringOf(b: seq<char>, n: nat)
    requires n <= |b| && (forall j | 0 <= j < n :: b[j] != '\0') && (n < |b| ==> b[n] == '\0')
    ensures CString(b) == b[..n]
  {
    hide CString;
    assert |CString(b)| == n;
  }

  lemma {:induction false} PaddedString(s: string, size: nat)
    requires |s| <= size && forall j | 0 <= j < |s| :: s[j] != '\0'
    ensures CString(Padded(s, size)) == s && (Terminated(Padded(s, size)) <==> |s| < size)
  {
    hide CString;
    var b := Padded(s, size);
    StringOf(b, |s|);
    assert b[..|s|] == s;
    assert |s| < size ==> b[|s|] == '\0';
  }

  /** strncpy with the size of the target */
  method CopyChars(source: array<char>, target: array<char>)
    requires source != target && target.Length <= source.Length
    modifies target
    ensures target[..] == Padded(CString(source[..target.Length]), target.Length)
  {
    hide CString;
    var n := target.Length;
    var i := 0;
    while i < n && source[i] != '\0'
      invariant i <= n && forall j | 0 <= j < i :: source[j] != '\0' && target[j] == source[j]
    {
      target[i] := source[i];
      i := i + 1;
    }
    StringOf(source[..n], i);
    for k := i to n
      invariant forall j | 0 <= j < k :: target[j] == if j < i then source[j] else '\0'
    {
      target[k] := '\0';
    }
  }

  // ----- a stream of codes

  /** Codes of characters that can be told from the end of a name. */
  predicate Codes(cs: seq<nat>) {
    forall i | 0 <= i < |cs| :: 0 < cs[i] < 63
  }

  /** The codes, six bits each with the most significant bit first, then some ones, then zeros. */
  function Stream(cs: seq<nat>, ones: nat, p: nat): bool {
    if p < 6 * |cs| then Bit(cs[p / 6], 5 - p % 6) else p < 6 * |cs| + ones
  }

  ghost predicate Holds(b: seq<Byte>, cs: seq<nat>, ones: nat) {
    forall p | 0 <= p < 8 * |b| :: MsbOf(b, p) == Stream(cs, ones, p)
  }

  /** Appends the code of one character. */
  method PackCode(target: array<Byte>, ghost cs: seq<nat>, i: nat, code: nat)
    requires i == |cs| && 6 * i + 16 <= 8 * target.Length && Holds(target[..], cs, 0)
    modifies target
    ensures Holds(target[..], cs + [code], 0)
  {
    hide MsbOf, Bit, BigValue, FieldReplaced;
    var _ := PackBitsLE(target, code, 0, 6 * i, 6, []);
  }

  // ----- six bits and eight bits

  lemma {:induction false} SixBits(v: nat)
    requires v < 64
    ensures Number(Low(v, 6)) == v
    ensures v == 0 <==> !Bit(v, 0) && !Bit(v, 1) && !Bit(v, 2) && !Bit(v, 3) && !Bit(v, 4) && !Bit(v, 5)
    ensures v % 16 == 0 <==> !Bit(v, 0) && !Bit(v, 1) && !Bit(v, 2) && !Bit(v, 3)
    ensures v < 4 <==> !Bit(v, 2) && !Bit(v, 3) && !Bit(v, 4) && !Bit(v, 5)
  {
    hide Bit, Clear, Low, Number, TwoTo;
    Powers();
    NumberLow(v, 6);
    ZeroBelow(v, 6);
    ZeroBelow(v, 4);
    ZeroBelow(v / 4, 4);
    FirstBits(v);
    FirstBits(v / 4);
    Quarter(v);
  }

  lemma {:induction false} FirstBits(v: nat)
    ensures Clear(v, 4) <==> !Bit(v, 0) && !Bit(v, 1) && !Bit(v, 2) && !Bit(v, 3)
    ensures Clear(v, 6) <==> !Bit(v, 0) && !Bit(v, 1) && !Bit(v, 2) && !Bit(v, 3) && !Bit(v, 4) && !Bit(v, 5)
  {
    hide Bit;
  }

  lemma {:induction false} Quarter(v: nat)
    ensures Bit(v, 2) == Bit(v / 4, 0) && Bit(v, 3) == Bit(v / 4, 1) && Bit(v, 4) == Bit(v / 4, 2) &&
      Bit(v, 5) == Bit(v / 4, 3)
  {
    assert v / 2 / 2 == v / 4;
  }

  lemma {:induction false} Powers()
    ensures TwoTo(4) == 16 && TwoTo(6) == 64
  {
    assert TwoTo(6) == 2 * TwoTo(5) == 4 * TwoTo(4) == 8 * TwoTo(3) == 16 * TwoTo(2) == 64;
  }

  predicate Clear(v: nat, n: nat) {
    forall k | 0 <= k < n :: !Bit(v, k)
  }

  /** A number is a multiple of 2^n exactly when its n lowest bits are clear. */
  lemma {:induction false} ZeroBelow(v: nat, n: nat)
    ensures v % TwoTo(n) == 0 <==> Clear(v, n)
  {
    hide Clear, Bit;
    if n > 0 {
      ZeroBelow(v / 2, n - 1);
      Halves(v, TwoTo(n - 1));
      ClearHalved(v, n);
    } else {
      ClearNone(v);
    }
  }

  lemma {:induction false} ClearNone(v: nat)
    ensures Clear(v, 0)
  {
  }

  lemma {:induction false} ClearHalved(v: nat, n: nat)
    requires n > 0
    ensures Clear(v, n) <==> v % 2 == 0 && Clear(v / 2, n - 1)
  {
    if Clear(v, n) {
      assert !Bit(v, 0);
      forall k | 0 <= k < n - 1
        ensures !Bit(v / 2, k)
      {
        assert !Bit(v, k + 1);
      }
    }
    if v % 2 == 0 && Clear(v / 2, n - 1) {
      forall k | 0 <= k < n
        ensures !Bit(v, k)
      {
        if k > 0 {
          assert !Bit(v / 2, k - 1);
        }
      }
    }
  }

  lemma {:induction false} ZeroBits(x: Byte, s: nat)
    requires s < 8
    ensures x == 0 ==> !GetBit(x, s)
  {
    assert (0 as Byte) & Mask(s) == 0;
  }

  lemma {:induction false} ClearByte(b: seq<Byte>, j: nat)
    requires j < |b| && forall p | 8 * j <= p < 8 * j + 8 :: !MsbOf(b, p)
    ensures b[j] == 0
  {
    forall s | 0 <= s < 8
      ensures !GetBit(b[j], s)
    {
      assert !MsbOf(b, 8 * j + (7 - s));
    }
    assert !GetBit(b[j], 0) && !GetBit(b[j], 1) && !GetBit(b[j], 2) && !GetBit(b[j], 3);
    assert !GetBit(b[j], 4) && !GetBit(b[j], 5) && !GetBit(b[j], 6) && !GetBit(b[j], 7);
  }

  /** A byte is zero exactly when none of its bits is set. */
  lemma {:induction false} ZeroByte(b: seq<Byte>, j: nat)
    requires j < |b|
    ensures b[j] == 0 <==> forall p | 8 * j <= p < 8 * j + 8 :: !MsbOf(b, p)
  {
    hide MsbOf;
    if b[j] == 0 {
      forall p | 8 * j <= p < 8 * j + 8
        ensures !MsbOf(b, p)
      {
        ZeroBits(b[j], 7 - p % 8);
        BitInByte(b, p);
      }
    } else if forall p | 8 * j <= p < 8 * j + 8 :: !MsbOf(b, p) {
      ClearByte(b, j);
    }
  }

  lemma {:induction false} BitInByte(b: seq<Byte>, p: nat)
    requires p < 8 * |b|
    ensures MsbOf(b, p) == GetBit(b[p / 8], 7 - p % 8)
  {
  }

  // ----- where a packed name is cut

  /** The second and third character of a group of four share a byte; it is zero for these two codes. */
  predicate Bad(cs: seq<nat>, i: nat)
    requires i < |cs|
  {
    i % 4 == 1 && i + 1 < |cs| && cs[i] % 16 == 0 && cs[i + 1] < 4
  }

  function FirstBad(cs: seq<nat>, i: nat): (k: nat)
    requires i <= |cs|
    ensures i <= k <= |cs| && (k < |cs| ==> Bad(cs, k)) && forall j | i <= j < k :: !Bad(cs, j)
    decreases |cs| - i
  {
    if i == |cs| || Bad(cs, i) then i else FirstBad(cs, i + 1)
  }

  predicate WithoutBad(cs: seq<nat>) {
    forall i | 0 <= i < |cs| :: !Bad(cs, i)
  }

  /** How many ones end a linkshell name. */
  function Leftover(n: nat): nat {
    var leftover := 8 - n * 6 % 8;
    if leftover == 8 || leftover == 2 then 6 else leftover
  }

  function BytesUsed(n: nat): nat {
    (6 * n + Leftover(n) + 7) / 8
  }

  /** The sizes by the number of characters in the last group of four. */
  lemma {:induction false} Sizes(n: nat)
    ensures n % 4 == 0 ==> Leftover(n) == 6 && BytesUsed(n) == 3 * (n / 4) + 1
    ensures n % 4 == 1 ==> Leftover(n) == 6 && BytesUsed(n) == 3 * (n / 4) + 2
    ensures n % 4 == 2 ==> Leftover(n) == 4 && BytesUsed(n) == 3 * (n / 4) + 2
    ensures n % 4 == 3 ==> Leftover(n) == 6 && BytesUsed(n) == 3 * (n / 4) + 3
  {
    var g := n / 4;
    assert n == 4 * g + n % 4;
    DivMod(6 * n, 8, 3 * g + 6 * (n % 4) / 8, 6 * (n % 4) % 8);
  }

  /** Some bit of the code of character i, from bit `low` up to bit `high`, lies in byte j. */
  lemma {:induction false} SetBitIn(b: seq<Byte>, cs: seq<nat>, ones: nat, i: nat, k: nat, j: nat)
    requires Holds(b, cs, ones) && i < |cs| && k < 6 && j < |b| && Bit(cs[i], k)
    requires 8 * j <= 6 * i + 5 - k < 8 * j + 8
    ensures b[j] != 0
  {
    hide MsbOf, Bit;
    var p := 6 * i + 5 - k;
    assert p / 6 == i && p % 6 == 5 - k;
    assert MsbOf(b, p);
    ZeroByte(b, j);
  }

  lemma {:induction false} OneIn(b: seq<Byte>, cs: seq<nat>, ones: nat, p: nat, j: nat)
    requires Holds(b, cs, ones) && 6 * |cs| <= p < 6 * |cs| + ones && 8 * j <= p < 8 * j + 8 && j < |b|
    ensures b[j] != 0
  {
    hide MsbOf, Bit;
    assert MsbOf(b, p);
    ZeroByte(b, j);
  }

  lemma {:induction false} CodeIn(b: seq<Byte>, cs: seq<nat>, ones: nat, i: nat, j: nat)
    requires Holds(b, cs, ones) && Codes(cs) && i < |cs| && j < |b| && 8 * j <= 6 * i && 6 * i + 5 < 8 * j + 8
    ensures b[j] != 0
  {
    hide MsbOf, Bit, Holds;
    SixBits(cs[i]);
    var k := if Bit(cs[i], 0) then 0 else if Bit(cs[i], 1) then 1 else if Bit(cs[i], 2) then 2
             else if Bit(cs[i], 3) then 3 else if Bit(cs[i], 4) then 4 else 5;
    SetBitIn(b, cs, ones, i, k, j);
  }

  lemma {:induction false} PairIn(b: seq<Byte>, cs: seq<nat>, ones: nat, g: nat)
    requires Holds(b, cs, ones) && Codes(cs) && 4 * g + 2 < |cs| && !Bad(cs, 4 * g + 1) && 3 * g + 1 < |b|
    ensures b[3 * g + 1] != 0
  {
    hide MsbOf, Bit, Holds;
    var i := 4 * g + 1;
    SixBits(cs[i]);
    SixBits(cs[i + 1]);
    if cs[i] % 16 != 0 {
      var k := if Bit(cs[i], 0) then 0 else if Bit(cs[i], 1) then 1 else if Bit(cs[i], 2) then 2 else 3;
      SetBitIn(b, cs, ones, i, k, 3 * g + 1);
    } else {
      var k := if Bit(cs[i + 1], 2) then 2 else if Bit(cs[i + 1], 3) then 3 else if Bit(cs[i + 1], 4) then 4 else 5;
      SetBitIn(b, cs, ones, i + 1, k, 3 * g + 1);
    }
  }

  lemma {:induction false} NonzeroByte(b: seq<Byte>, cs: seq<nat>, j: nat)
    requires Holds(b, cs, Leftover(|cs|)) && Codes(cs) && BytesUsed(|cs|) <= |b| && j < BytesUsed(|cs|)
    requires j % 3 == 1 && 4 * (j / 3) + 1 < |cs| ==> !Bad(cs, 4 * (j / 3) + 1)
    ensures b[j] != 0
  {
    hide MsbOf, Bit, Holds, Leftover, BytesUsed, Codes, Bad;
    var g, n := j / 3, |cs|;
    Sizes(n);
    assert j == 3 * g + j % 3 && n == 4 * (n / 4) + n % 4;
    if j % 3 == 0 {
      if 4 * g < n {
        CodeIn(b, cs, Leftover(n), 4 * g, j);
      } else {
        OneIn(b, cs, Leftover(n), 6 * n, j);
      }
    } else if j % 3 == 2 {
      if 4 * g + 3 < n {
        CodeIn(b, cs, Leftover(n), 4 * g + 3, j);
      } else {
        OneIn(b, cs, Leftover(n), 6 * n, j);
      }
    } else if 4 * g + 2 < n {
      PairIn(b, cs, Leftover(n), g);
    } else {
      OneIn(b, cs, Leftover(n), 8 * j + (if n == 4 * g + 2 then 4 else 0), j);
    }
  }

  lemma {:induction false} ZeroPair(b: seq<Byte>, cs: seq<nat>, ones: nat, i: nat)
    requires Holds(b, cs, ones) && Codes(cs) && i < |cs| && Bad(cs, i) && 3 * (i / 4) + 1 < |b|
    ensures b[3 * (i / 4) + 1] == 0
  {
    hide MsbOf;
    SixBits(cs[i]);
    SixBits(cs[i + 1]);
    hide Bit;
    var j := 3 * (i / 4) + 1;
    forall p | 8 * j <= p < 8 * j + 8
      ensures !MsbOf(b, p)
    {
      assert p / 6 == (if p < 8 * j + 4 then i else i + 1);
    }
    ZeroByte(b, j);
  }

  /** The zero byte of a pair of codes cuts the name; without one it ends where the ones end. */
  lemma {:induction false} CutAt(b: seq<Byte>, cs: seq<nat>)
    requires Holds(b, cs, Leftover(|cs|)) && Codes(cs) && BytesUsed(|cs|) < |b|
    ensures var k := FirstBad(cs, 0);
            StrLen(b) == if k < |cs| then 3 * (k / 4) + 1 else BytesUsed(|cs|)
  {
    hide Holds, Bit, MsbOf;
    var k, n := FirstBad(cs, 0), |cs|;
    var m := if k < n then 3 * (k / 4) + 1 else BytesUsed(n);
    assert m <= BytesUsed(n);
    forall j | 0 <= j < m
      ensures b[j] != 0
    {
      NonzeroByte(b, cs, j);
    }
    if k < n {
      ZeroPair(b, cs, Leftover(n), k);
    } else {
      EndZero(b, cs);
    }
  }

  lemma {:induction false} EndZero(b: seq<Byte>, cs: seq<nat>)
    requires Holds(b, cs, Leftover(|cs|)) && BytesUsed(|cs|) < |b|
    ensures b[BytesUsed(|cs|)] == 0
  {
    hide Bit, MsbOf;
    var m := BytesUsed(|cs|);
    forall p | 8 * m <= p < 8 * m + 8
      ensures !MsbOf(b, p)
    {
    }
    ZeroByte(b, m);
  }

  // ----- characters of a linkshell name

  predicate IsAlphanumeric(c: char) {
    '0' <= c <= '9' || 'A' <= c <= 'Z' || 'a' <= c <= 'z'
  }

  predicate Alphanumeric(name: string) {
    forall i | 0 <= i < |name| :: IsAlphanumeric(name[i])
  }

  function LinkshellCode(c: char): (code: nat)
    ensures code < 63
  {
    if '0' <= c <= '9' then c as nat - '0' as nat + 53
    else if 'A' <= c <= 'Z' then c as nat - 'A' as nat + 27
    else if 'a' <= c <= 'z' then c as nat - 'a' as nat + 1
    else 0
  }

  function LinkshellChar(code: nat): char
    requires code < 64
  {
    if 1 <= code <= 26 then ('a' as nat - 1 + code) as char
    else if 27 <= code <= 52 then ('A' as nat - 27 + code) as char
    else if 53 <= code <= 62 then ('0' as nat - 53 + code) as char
    else code as char
  }

  function LinkshellCodes(name: string): (cs: seq<nat>)
    ensures |cs| == |name| && forall i | 0 <= i < |name| :: cs[i] == LinkshellCode(name[i])
  {
    seq(|name|, i requires 0 <= i < |name| => LinkshellCode(name[i]))
  }

  lemma {:induction false} LinkshellLower()
    ensures LinkshellCodes("abcdefghijklmnopqrstuvwxyz") ==
      [1, 2, 3, 4, 5, 6, 7, 8, 9, 10, 11, 12, 13, 14, 15, 16, 17, 18, 19, 20, 21, 22, 23, 24, 25, 26]
  {
  }

  lemma {:induction false} LinkshellUpper()
    ensures LinkshellCodes("ABCDEFGHIJKLMNOPQRSTUVWXYZ") ==
      [27, 28, 29, 30, 31, 32, 33, 34, 35, 36, 37, 38, 39, 40, 41, 42, 43, 44, 45, 46, 47, 48, 49, 50, 51, 52]
  {
  }

  lemma {:induction false} LinkshellDigits()
    ensures LinkshellCodes("0123456789") ==
      [53, 54, 55, 56, 57, 58, 59, 60, 61, 62]
  {
  }

  /** The codes count the characters in this order from 1 on. */
  lemma {:induction false} LinkshellAlphabet()
    ensures LinkshellCodes("abcdefghijklmnopqrstuvwxyz") ==
      [1, 2, 3, 4, 5, 6, 7, 8, 9, 10, 11, 12, 13, 14, 15, 16, 17, 18, 19, 20, 21, 22, 23, 24, 25, 26]
    ensures LinkshellCodes("ABCDEFGHIJKLMNOPQRSTUVWXYZ") ==
      [27, 28, 29, 30, 31, 32, 33, 34, 35, 36, 37, 38, 39, 40, 41, 42, 43, 44, 45, 46, 47, 48, 49, 50, 51, 52]
    ensures LinkshellCodes("0123456789") ==
      [53, 54, 55, 56, 57, 58, 59, 60, 61, 62]
  {
    hide LinkshellCodes;
    LinkshellLower();
    LinkshellUpper();
    LinkshellDigits();
  }

  const NAME_LENGTH := 20

  /** At most 20 characters are packed. */
  function Shortened(name: string, n: nat): string {
    if |name| < n then name else name[..n]
  }

  /** What comes back of a name: at most 20 characters, and those before the first bad pair. */
  function LinkshellShown(name: string): (r: string)
    ensures |r| <= 20
  {
    var kept := Shortened(name, 20);
    kept[..FirstBad(LinkshellCodes(kept), 0)]
  }

  /** The packed bytes, and the bytes that are copied to the target: those before the first zero byte. */
  method EncodeStringLinkshell(name: string, target: array<Byte>) returns (ghost packed: seq<Byte>)
    requires target.Length == NAME_LENGTH
    modifies target
    ensures |packed| == NAME_LENGTH
    ensures Holds(packed, LinkshellCodes(Shortened(name, 20)), Leftover(|Shortened(name, 20)|))
    ensures target[..] == StrNCpy(packed)
  {
    hide MsbOf, Bit, StrLen, StrNCpy, LinkshellCode;
    var length := if |name| < 20 then |name| else 20;
    ghost var cs := LinkshellCodes(Shortened(name, 20));
    var encoded := new Byte[NAME_LENGTH](_ => 0);
    NothingHeld(encoded[..]);
    for i := 0 to length
      invariant Holds(encoded[..], cs[..i], 0)
    {
      PackCode(encoded, cs[..i], i, LinkshellCode(name[i]));
      assert cs[..i + 1] == cs[..i] + [LinkshellCode(name[i])];
    }
    assert cs[..length] == cs;
    var leftover := length * 6 % 8;
    leftover := 8 - leftover;
    leftover := if leftover == 8 || leftover == 2 then 6 else leftover;
    PackOnes(encoded, cs, length, leftover);
    packed := encoded[..];
    CopyString(encoded, target);
  }

  lemma {:induction false} NothingHeld(b: seq<Byte>)
    requires forall j | 0 <= j < |b| :: b[j] == 0
    ensures Holds(b, [], 0)
  {
    forall p | 0 <= p < 8 * |b|
      ensures !MsbOf(b, p)
    {
      ZeroByte(b, p / 8);
    }
  }

  method PackOnes(target: array<Byte>, ghost cs: seq<nat>, n: nat, ones: nat)
    requires n == |cs| && ones == Leftover(n) && 6 * n + 16 <= 8 * target.Length && Holds(target[..], cs, 0)
    modifies target
    ensures Holds(target[..], cs, ones)
  {
    hide MsbOf, Bit, BigValue, FieldReplaced;
    var _ := PackBitsLE(target, 0xff, 0, 6 * n, ones, []);
    AllOnes();
  }

  lemma {:induction false} AllOnes()
    ensures forall k | 0 <= k < 8 :: Bit(0xff, k)
  {
    assert Bit(0xff, 0) && Bit(0xff, 1) && Bit(0xff, 2) && Bit(0xff, 3);
    assert Bit(0xff, 4) == Bit(0x7f, 3) == Bit(0x3f, 2) == Bit(0x1f, 1) == Bit(0xf, 0);
    assert Bit(0xff, 5) == Bit(0x7f, 4) == Bit(0x3f, 3) == Bit(0x1f, 2) == Bit(0xf, 1);
    assert Bit(0xff, 6) == Bit(0x7f, 5) == Bit(0x3f, 4) == Bit(0x1f, 3) == Bit(0xf, 2) == Bit(0x7, 1);
    assert Bit(0xff, 7) == Bit(0x7f, 6) == Bit(0x3f, 5) == Bit(0x1f, 4) == Bit(0xf, 3) == Bit(0x7, 2) == Bit(0x3, 1);
  }

  /** strncpy */
  method CopyString(source: array<Byte>, target: array<Byte>)
    requires source != target && source.Length == target.Length
    modifies target
    ensures target[..] == StrNCpy(source[..])
  {
    var i := 0;
    while i < source.Length && source[i] != 0
      invariant i <= StrLen(source[..]) && i <= source.Length
      invariant forall j | 0 <= j < i :: target[j] == source[j]
    {
      assert source[..][i] != 0;
      target[i] := source[i];
      i := i + 1;
    }
    assert i == StrLen(source[..]);
    for k := i to source.Length
      invariant forall j | 0 <= j < k :: target[j] == if j < i then source[j] else 0
    {
      target[k] := 0;
    }
  }

  // ----- reading a linkshell name

  function FieldAt(s: seq<Byte>, i: nat): (f: nat)
    requires 6 * i + 6 <= 8 * |s|
    ensures f < 64
  {
    NumberBelow(MsbField(s, 6 * i, 6));
    Number(MsbField(s, 6 * i, 6))
  }

  lemma {:induction false} NumberBelow(w: Bitstring)
    ensures Number(w) < TwoTo(|w|)
    ensures |w| == 6 ==> TwoTo(|w|) == 64
  {
    if w != [] {
      NumberBelow(w[1..]);
    }
    assert TwoTo(6) == 2 * TwoTo(5) == 4 * TwoTo(4) == 8 * TwoTo(3) == 16 * TwoTo(2) == 64;
  }

  function FieldCount(size: nat): nat {
    if size * 8 / 6 < 20 then size * 8 / 6 else 20
  }

  /** The first field that is 0 or 63, if there is one. */
  function Stop(s: seq<Byte>, i: nat): (k: nat)
    requires i <= FieldCount(|s|)
    ensures i <= k <= FieldCount(|s|)
    ensures forall j | i <= j < k :: FieldAt(s, j) != 0 && FieldAt(s, j) != 63
    ensures k < FieldCount(|s|) ==> FieldAt(s, k) == 0 || FieldAt(s, k) == 63
    decreases FieldCount(|s|) - i
  {
    if i == FieldCount(|s|) || FieldAt(s, i) == 0 || FieldAt(s, i) == 63 then i else Stop(s, i + 1)
  }

  /** A field of 63 ends the name, and so does a field of 0, which also takes away the character before it. */
  function LinkshellText(s: seq<Byte>): (text: string)
    ensures |text| <= 20
  {
    var k := Stop(s, 0);
    var n := if k < FieldCount(|s|) && FieldAt(s, k) == 0 && k > 0 then k - 1 else k;
    seq(n, i requires 0 <= i < n => LinkshellChar(FieldAt(s, i)))
  }

  /** The text in the 20 bytes of the target, with null characters behind it as far as there is room. */
  method DecodeStringLinkshell(s: seq<Byte>, target: array<char>)
    requires target.Length == NAME_LENGTH
    modifies target
    ensures target[..] == Padded(LinkshellText(s), NAME_LENGTH)
  {
    hide LinkshellText, CString;
    var decoded := new char[21](_ => '\0');
    DecodeFields(s, decoded);
    StringOf(decoded[..NAME_LENGTH], |LinkshellText(s)|);
    CopyChars(decoded, target);
  }

  method DecodeFields(s: seq<Byte>, decoded: array<char>)
    requires decoded.Length == 21 && forall i | 0 <= i < 21 :: decoded[i] == '\0'
    modifies decoded
    ensures decoded[..|LinkshellText(s)|] == LinkshellText(s)
    ensures decoded[|LinkshellText(s)|] == '\0'
    ensures forall i | 0 <= i < |LinkshellText(s)| :: decoded[i] != '\0'
  {
    hide Number, MsbField, BigValue, TwoTo;
    var length := FieldCount(|s|);
    var currChar := 0;
    while currChar < length
      invariant currChar <= Stop(s, 0) && currChar <= length
      invariant forall i | 0 <= i < currChar :: decoded[i] == LinkshellChar(FieldAt(s, i)) && decoded[i] != '\0'
      invariant forall i | currChar <= i < 21 :: decoded[i] == '\0'
    {
      var tempChar := UnpackBitsLE(s, 0, currChar * 6, 6, []);
      assert tempChar == FieldAt(s, currChar);
      if tempChar == 0 {
        decoded[if currChar == 0 then currChar else currChar - 1] := '\0';
        return;
      }
      if tempChar == 63 {
        decoded[currChar] := '\0';
        return;
      }
      decoded[currChar] := LinkshellChar(tempChar);
      currChar := currChar + 1;
    }
  }

  // ----- there and back

  lemma {:induction false} CharBack(c: char)
    requires IsAlphanumeric(c)
    ensures 0 < LinkshellCode(c) && LinkshellChar(LinkshellCode(c)) == c
  {
  }

  lemma {:induction false} SameBits(b: seq<Byte>, m: nat, p: nat)
    requires m <= |b| && p < 8 * m
    ensures MsbOf(b[..m], p) == MsbOf(b, p)
  {
  }

  lemma {:induction false} FieldFrom(s: seq<Byte>, i: nat, v: nat)
    requires 6 * i + 6 <= 8 * |s| && v < 64 && forall k | 0 <= k < 6 :: MsbOf(s, 6 * i + 5 - k) == Bit(v, k)
    ensures FieldAt(s, i) == v
  {
    hide MsbOf, Bit, Number;
    forall k | 0 <= k < 6
      ensures MsbField(s, 6 * i, 6)[k] == Low(v, 6)[k]
    {
      assert MsbField(s, 6 * i, 6)[k] == MsbOf(s, 6 * i + 5 - k);
    }
    assert MsbField(s, 6 * i, 6) == Low(v, 6);
    SixBits(v);
  }

  /** A field that was not cut is the code that was packed. */
  lemma {:induction false} FieldIsCode(b: seq<Byte>, cs: seq<nat>, ones: nat, m: nat, i: nat)
    requires Holds(b, cs, ones) && i < |cs| && cs[i] < 64 && m <= |b| && 6 * i + 6 <= 8 * m
    ensures FieldAt(b[..m], i) == cs[i]
  {
    hide MsbOf, Bit, FieldAt;
    forall k | 0 <= k < 6
      ensures MsbOf(b[..m], 6 * i + 5 - k) == Bit(cs[i], k)
    {
      var p := 6 * i + 5 - k;
      SameBits(b, m, p);
      assert p / 6 == i && p % 6 == 5 - k;
    }
    FieldFrom(b[..m], i, cs[i]);
  }

  lemma {:induction false} FieldIsEnd(b: seq<Byte>, cs: seq<nat>, m: nat)
    requires Holds(b, cs, 6) && m <= |b| && 6 * |cs| + 6 <= 8 * m
    ensures FieldAt(b[..m], |cs|) == 63
  {
    hide MsbOf, Bit, FieldAt;
    forall k | 0 <= k < 6
      ensures MsbOf(b[..m], 6 * |cs| + 5 - k) == Bit(63, k)
    {
      SameBits(b, m, 6 * |cs| + 5 - k);
      SixtyThree(k);
    }
    FieldFrom(b[..m], |cs|, 63);
  }

  lemma {:induction false} SixtyThree(k: nat)
    requires k < 6
    ensures Bit(63, k) && Bit(60, k) == (k >= 2) && !Bit(0, k)
  {
    assert Bit(63, 0) && Bit(63, 1) && Bit(63, 2) && Bit(63, 3);
    assert Bit(63, 4) == Bit(31, 3) == Bit(15, 2);
    assert Bit(63, 5) == Bit(31, 4) == Bit(15, 3) == Bit(7, 2);
    assert !Bit(60, 0) && !Bit(60, 1) && Bit(60, 2) && Bit(60, 3);
    assert Bit(60, 4) == Bit(30, 3) == Bit(15, 2);
    assert Bit(60, 5) == Bit(30, 4) == Bit(15, 3) == Bit(7, 2);
    assert !Bit(0, 0) && !Bit(0, 1) && !Bit(0, 2) && !Bit(0, 3);
    assert Bit(0, 4) == Bit(0, 3) && Bit(0, 5) == Bit(0, 4);
  }

  /** What is read from the packed bytes before the first zero byte. */
  lemma {:induction false} TextBack(name: string, packed: seq<Byte>)
    requires Alphanumeric(name) && |name| <= 20 && |packed| == NAME_LENGTH
    requires Holds(packed, LinkshellCodes(name), Leftover(|name|))
    ensures LinkshellText(packed[..StrLen(packed)]) == name[..FirstBad(LinkshellCodes(name), 0)]
  {
    hide Holds, StrLen, LinkshellCode, LinkshellChar, FieldAt, FieldCount, FirstBad, Leftover, BytesUsed, Bit, MsbOf;
    var cs, n := LinkshellCodes(name), |name|;
    forall i | 0 <= i < n
      ensures 0 < cs[i] && LinkshellChar(cs[i]) == name[i]
    {
      CharBack(name[i]);
    }
    CountCut(n, FirstBad(cs, 0));
    CutAt(packed, cs);
    var k, m := FirstBad(cs, 0), StrLen(packed);
    FieldsBack(packed, cs, k, m);
    assert Stop(packed[..m], 0) == k;
  }

  /** How many fields are read from what was not cut. */
  lemma {:induction false} CountCut(n: nat, k: nat)
    requires n <= 20 && k <= n && (k < n ==> k % 4 == 1)
    ensures 6 * n + Leftover(n) <= 8 * BytesUsed(n) < 8 * NAME_LENGTH
    ensures k < n ==> FieldCount(3 * (k / 4) + 1) == k
    ensures FieldCount(BytesUsed(n)) == n || (FieldCount(BytesUsed(n)) == n + 1 && Leftover(n) == 6)
  {
    hide Leftover, BytesUsed;
    Sizes(n);
    assert n == 4 * (n / 4) + n % 4;
    if k < n {
      assert k == 4 * (k / 4) + 1;
    }
  }

  lemma {:induction false} FieldsBack(packed: seq<Byte>, cs: seq<nat>, k: nat, m: nat)
    requires Codes(cs) && |cs| <= 20 && m < |packed| == NAME_LENGTH && Holds(packed, cs, Leftover(|cs|))
    requires k == FirstBad(cs, 0) && m == if k < |cs| then 3 * (k / 4) + 1 else BytesUsed(|cs|)
    ensures k <= FieldCount(m) && forall i | 0 <= i < k :: FieldAt(packed[..m], i) == cs[i]
    ensures k < FieldCount(m) ==> FieldAt(packed[..m], k) == 63
  {
    hide Holds, FieldAt, Leftover, BytesUsed, Bit, MsbOf;
    CountCut(|cs|, k);
    forall i | 0 <= i < k
      ensures FieldAt(packed[..m], i) == cs[i]
    {
      FieldIsCode(packed, cs, Leftover(|cs|), m, i);
    }
    if k < FieldCount(m) {
      FieldIsEnd(packed, cs, m);
    }
  }

  /** No other characters are ever read. */
  lemma {:induction false} TextAlphanumeric(s: seq<Byte>)
    ensures Alphanumeric(LinkshellText(s))
  {
    hide FieldAt, LinkshellChar;
    var text := LinkshellText(s);
    forall i | 0 <= i < |text|
      ensures IsAlphanumeric(text[i])
    {
      CharIsAlphanumeric(FieldAt(s, i));
    }
  }

  lemma {:induction false} CharIsAlphanumeric(code: nat)
    requires 0 < code < 63
    ensures IsAlphanumeric(LinkshellChar(code))
  {
  }

  // ----- which names fill the target

  /** The first 20 characters are alphanumeric and have no bad pair. */
  predicate Fills(name: string) {
    |name| >= 20 && Alphanumeric(name[..20]) && WithoutBad(LinkshellCodes(name[..20]))
  }

  lemma {:induction false} FillsExactly(name: string, text: string)
    requires if Alphanumeric(Shortened(name, 20)) then text == LinkshellShown(name) else |text| < 20
    ensures |text| == 20 <==> Fills(name)
  {
    hide Alphanumeric, Bad, LinkshellCode;
    var kept := Shortened(name, 20);
    assert |name| >= 20 ==> kept == name[..20];
  }

  /** The text ends at a field of 0 at the latest. */
  lemma {:induction false} ZeroEnds(s: seq<Byte>, i: nat)
    requires i < 20 && (i < FieldCount(|s|) ==> FieldAt(s, i) == 0)
    ensures |LinkshellText(s)| <= i
  {
    hide FieldAt, LinkshellChar, Stop;
  }

  lemma {:induction false} ForeignCode(name: string) returns (i: nat)
    requires !Alphanumeric(name)
    ensures i < |name| && LinkshellCodes(name)[i] == 0
  {
    var j :| 0 <= j < |name| && !IsAlphanumeric(name[j]);
    i := j;
  }

  /** The bytes before the first zero byte give 20 characters exactly for the names that fill the target. */
  lemma {:induction false} TextFills(name: string, packed: seq<Byte>)
    requires |packed| == NAME_LENGTH
    requires Holds(packed, LinkshellCodes(Shortened(name, 20)), Leftover(|Shortened(name, 20)|))
    ensures |LinkshellText(packed[..StrLen(packed)])| == 20 <==> Fills(name)
  {
    hide Holds, LinkshellText, StrLen, Leftover, FieldAt, Fills, Alphanumeric, LinkshellCodes;
    var kept, m := Shortened(name, 20), StrLen(packed);
    if Alphanumeric(kept) {
      TextBack(kept, packed);
    } else {
      var i := ForeignCode(kept);
      if i < FieldCount(m) {
        FieldIsCode(packed, LinkshellCodes(kept), Leftover(|kept|), m, i);
      }
      ZeroEnds(packed[..m], i);
    }
    FillsExactly(name, LinkshellText(packed[..m]));
  }

  /** The target holds a name as a string exactly when the name is alphanumeric, has at most 19 characters and no bad
      pair.  An alphanumeric name comes back up to its first bad pair; a name that fills the target is not terminated
      there. */
  method ThereAndBack(name: string) returns (back: array<char>)
    ensures back.Length == NAME_LENGTH
    ensures Alphanumeric(name) ==> back[..] == Padded(LinkshellShown(name), NAME_LENGTH)
    ensures (Terminated(back[..]) && CString(back[..]) == name) <==>
            Alphanumeric(name) && |name| <= 19 && WithoutBad(LinkshellCodes(name))
    ensures Terminated(back[..]) <==> !Fills(name)
  {
    hide Holds, LinkshellText, Bad, CString, Terminated, StrLen, StrNCpy, LinkshellCode, Alphanumeric, Fills;
    var encoded := new Byte[NAME_LENGTH](_ => 0);
    ghost var packed := EncodeStringLinkshell(name, encoded);
    var length := StringLength(encoded);
    SamePrefix(packed);
    back := new char[NAME_LENGTH](_ => '\0');
    DecodeStringLinkshell(encoded[..length], back);
    ghost var text := LinkshellText(packed[..StrLen(packed)]);
    assert back[..] == Padded(text, NAME_LENGTH);
    TextAlphanumeric(packed[..StrLen(packed)]);
    NoNull(text);
    PaddedString(text, NAME_LENGTH);
    TextFills(name, packed);
    if Alphanumeric(name) {
      ShortenedAlphanumeric(name, 20);
      TextBack(Shortened(name, 20), packed);
    }
  }

  lemma {:induction false} NoNull(text: string)
    requires Alphanumeric(text)
    ensures forall i | 0 <= i < |text| :: text[i] != '\0'
  {
  }

  lemma {:induction false} ShortenedAlphanumeric(name: string, n: nat)
    requires Alphanumeric(name)
    ensures Alphanumeric(Shortened(name, n))
  {
  }

  method StringLength(b: array<Byte>) returns (n: nat)
    ensures n == StrLen(b[..])
  {
    n := 0;
    while n < b.Length && b[n] != 0
      invariant n <= StrLen(b[..])
    {
      assert b[..][n] != 0;
      n := n + 1;
    }
  }

  lemma {:induction false} SamePrefix(b: seq<Byte>)
    ensures StrLen(StrNCpy(b)) == StrLen(b) && StrNCpy(b)[..StrLen(b)] == b[..StrLen(b)]
  {
  }

  /** A name that does not survive: the second and third of these characters share a zero byte. */
  lemma {:induction false} CutShort()
    ensures Alphanumeric("Spam") && LinkshellShown("Spam") == "S" && !WithoutBad(LinkshellCodes("Spam"))
  {
    assert Bad(LinkshellCodes("Spam"), 1);
  }

  /** Names that fill the target, so that nothing ends them there. */
  lemma {:induction false} Unended()
    ensures var name := seq(20, _ => 'a'); Fills(name) && Fills(name + "_") && !Alphanumeric(name + "_")
  {
    var name := seq(20, _ => 'a');
    assert (name + "_")[..20] == name && name[..20] == name;
    assert !IsAlphanumeric((name + "_")[20]);
  }

  // ----- a field of fixed size, filled with zeros

  lemma {:induction false} PaddedBit(b: seq<Byte>, size: nat, p: nat)
    requires size <= |b| && p < 8 * size
    ensures MsbOf(StrNCpy(b)[..size], p) == (p / 8 < StrLen(b) && MsbOf(b, p))
  {
    hide GetBit;
    if p / 8 >= StrLen(b) {
      assert StrNCpy(b)[..size][p / 8] == 0;
      ZeroBits(0, 7 - p % 8);
    }
  }

  /** The bits of a padded name: what the zero byte cuts off reads as zeros. */
  ghost predicate Cut(s: seq<Byte>, cs: seq<nat>, ones: nat, m: nat) {
    forall p | 0 <= p < 8 * |s| :: MsbOf(s, p) == (p / 8 < m && Stream(cs, ones, p))
  }

  lemma {:induction false} PaddedCut(b: seq<Byte>, cs: seq<nat>, ones: nat, size: nat)
    requires Holds(b, cs, ones) && size <= |b|
    ensures Cut(StrNCpy(b)[..size], cs, ones, StrLen(b))
  {
    hide MsbOf, Stream, StrLen;
    forall p | 0 <= p < 8 * size
      ensures MsbOf(StrNCpy(b)[..size], p) == (p / 8 < StrLen(b) && Stream(cs, ones, p))
    {
      PaddedBit(b, size, p);
    }
  }

  /** A code survives if its byte is not cut off, or if what is cut off is zero anyway. */
  lemma {:induction false} CutCode(s: seq<Byte>, cs: seq<nat>, ones: nat, m: nat, i: nat)
    requires Cut(s, cs, ones, m) && Codes(cs) && i < |cs| && 6 * i + 6 <= 8 * |s|
    requires 6 * i + 6 <= 8 * m || (8 * m == 6 * i + 2 && cs[i] % 16 == 0)
    ensures FieldAt(s, i) == cs[i]
  {
    hide MsbOf, FieldAt;
    SixBits(cs[i]);
    hide Bit;
    forall k | 0 <= k < 6
      ensures MsbOf(s, 6 * i + 5 - k) == Bit(cs[i], k)
    {
      var p := 6 * i + 5 - k;
      assert p / 6 == i && p % 6 == 5 - k;
    }
    FieldFrom(s, i, cs[i]);
  }

  /** What is cut off reads as 0, and so does what follows the ones. */
  lemma {:induction false} CutZero(s: seq<Byte>, cs: seq<nat>, ones: nat, m: nat, i: nat)
    requires Cut(s, cs, ones, m) && 6 * i + 6 <= 8 * |s| && (8 * m <= 6 * i || 6 * |cs| + ones <= 6 * i)
    ensures FieldAt(s, i) == 0
  {
    hide MsbOf, FieldAt, Bit;
    forall k | 0 <= k < 6
      ensures MsbOf(s, 6 * i + 5 - k) == Bit(0, k)
    {
      SixtyThree(k);
    }
    FieldFrom(s, i, 0);
  }

  /** So does a code of 0. */
  lemma {:induction false} CutZeroCode(s: seq<Byte>, cs: seq<nat>, ones: nat, m: nat, i: nat)
    requires Cut(s, cs, ones, m) && i < |cs| && cs[i] == 0 && 6 * i + 6 <= 8 * |s|
    ensures FieldAt(s, i) == 0
  {
    hide MsbOf, FieldAt, Bit;
    forall k | 0 <= k < 6
      ensures MsbOf(s, 6 * i + 5 - k) == Bit(0, k)
    {
      var p := 6 * i + 5 - k;
      assert p / 6 == i && p % 6 == 5 - k;
      SixtyThree(k);
    }
    FieldFrom(s, i, 0);
  }

  /** The ones behind the last code. */
  lemma {:induction false} CutEnd(s: seq<Byte>, cs: seq<nat>, m: nat)
    requires Cut(s, cs, Leftover(|cs|), m) && 6 * |cs| + 6 <= 8 * |s| && 6 * |cs| + Leftover(|cs|) <= 8 * m
    ensures FieldAt(s, |cs|) == if Leftover(|cs|) == 6 then 63 else 60
  {
    hide MsbOf, FieldAt, Bit, Leftover, Cut;
    var n := |cs|;
    Sizes(n);
    var v := if Leftover(n) == 6 then 63 else 60;
    forall k | 0 <= k < 6
      ensures MsbOf(s, 6 * n + 5 - k) == Bit(v, k)
    {
      CutOne(s, cs, Leftover(n), m, 6 * n + 5 - k);
      SixtyThree(k);
    }
    FieldFrom(s, n, v);
  }

  lemma {:induction false} CutOne(s: seq<Byte>, cs: seq<nat>, ones: nat, m: nat, p: nat)
    requires Cut(s, cs, ones, m) && 6 * |cs| <= p < 8 * |s| && 6 * |cs| + ones <= 8 * m
    ensures MsbOf(s, p) == (p < 6 * |cs| + ones)
  {
    hide MsbOf, Bit;
  }

  const NAME_FIELD := 15

  /** In an item the name is kept in 15 bytes.  A name that leaves four ones reads as one more character followed by a
      field of 0, which is why a field of 0 takes away the character before it. */
  lemma {:induction false} PaddedTextBack(name: string, packed: seq<Byte>)
    requires Alphanumeric(name) && |name| <= 20 && |packed| == NAME_LENGTH
    requires Holds(packed, LinkshellCodes(name), Leftover(|name|))
    ensures LinkshellText(StrNCpy(packed)[..NAME_FIELD]) == name[..FirstBad(LinkshellCodes(name), 0)]
  {
    hide Holds, StrLen, StrNCpy, LinkshellCode, LinkshellChar, FieldAt, FirstBad, Leftover, BytesUsed, Bit, MsbOf, Cut;
    var cs, n := LinkshellCodes(name), |name|;
    forall i | 0 <= i < n
      ensures 0 < cs[i] && LinkshellChar(cs[i]) == name[i]
    {
      CharBack(name[i]);
    }
    var s, k := StrNCpy(packed)[..NAME_FIELD], FirstBad(cs, 0);
    PaddedFields(packed, cs);
    assert FieldCount(NAME_FIELD) == 20;
    assert Stop(s, 0) == if k < 20 && FieldAt(s, k) != 63 then k + 1 else k;
  }

  lemma {:induction false} PaddedFills(name: string, packed: seq<Byte>)
    requires |packed| == NAME_LENGTH
    requires Holds(packed, LinkshellCodes(Shortened(name, 20)), Leftover(|Shortened(name, 20)|))
    ensures |LinkshellText(StrNCpy(packed)[..NAME_FIELD])| == 20 <==> Fills(name)
  {
    hide Holds, LinkshellText, StrLen, StrNCpy, Leftover, FieldAt, Fills, Alphanumeric, LinkshellCodes, Cut;
    var kept, s := Shortened(name, 20), StrNCpy(packed)[..NAME_FIELD];
    if Alphanumeric(kept) {
      PaddedTextBack(kept, packed);
    } else {
      var i := ForeignCode(kept);
      PaddedCut(packed, LinkshellCodes(kept), Leftover(|kept|), NAME_FIELD);
      CutZeroCode(s, LinkshellCodes(kept), Leftover(|kept|), StrLen(packed), i);
      ZeroEnds(s, i);
    }
    FillsExactly(name, LinkshellText(s));
  }

  /** Kept in an item and read from there: the same names survive, and the same names fill the target. */
  method StoredAndRead(name: string) returns (back: array<char>)
    ensures back.Length == NAME_LENGTH
    ensures Alphanumeric(name) ==> back[..] == Padded(LinkshellShown(name), NAME_LENGTH)
    ensures (Terminated(back[..]) && CString(back[..]) == name) <==>
            Alphanumeric(name) && |name| <= 19 && WithoutBad(LinkshellCodes(name))
    ensures Terminated(back[..]) <==> !Fills(name)
  {
    hide Holds, LinkshellText, Bad, CString, Terminated, StrLen, StrNCpy, LinkshellCode, Alphanumeric, Fills;
    var encoded := new Byte[NAME_LENGTH](_ => 0);
    ghost var packed := EncodeStringLinkshell(name, encoded);
    back := new char[NAME_LENGTH](_ => '\0');
    DecodeStringLinkshell(encoded[..NAME_FIELD], back);
    ghost var text := LinkshellText(StrNCpy(packed)[..NAME_FIELD]);
    assert back[..] == Padded(text, NAME_LENGTH);
    TextAlphanumeric(StrNCpy(packed)[..NAME_FIELD]);
    NoNull(text);
    PaddedString(text, NAME_LENGTH);
    PaddedFills(name, packed);
    if Alphanumeric(name) {
      ShortenedAlphanumeric(name, 20);
      PaddedTextBack(Shortened(name, 20), packed);
    }
  }

  lemma {:induction false} PaddedFields(packed: seq<Byte>, cs: seq<nat>)
    requires Codes(cs) && |cs| <= 20 && |packed| == NAME_LENGTH && Holds(packed, cs, Leftover(|cs|))
    ensures var s, k := StrNCpy(packed)[..NAME_FIELD], FirstBad(cs, 0);
      && (forall i | 0 <= i < k :: FieldAt(s, i) == cs[i])
      && (k < 20 ==> FieldAt(s, k) == 63 || (0 < FieldAt(s, k) < 63 && k + 1 < 20 && FieldAt(s, k + 1) == 0))
  {
    hide Holds, StrLen, StrNCpy, FieldAt, Leftover, BytesUsed, Bit, MsbOf, Cut;
    var s, k, n := StrNCpy(packed)[..NAME_FIELD], FirstBad(cs, 0), |cs|;
    CountCut(n, k);
    CutAt(packed, cs);
    PaddedCut(packed, cs, Leftover(n), NAME_FIELD);
    var m := StrLen(packed);
    forall i | 0 <= i < k
      ensures FieldAt(s, i) == cs[i]
    {
      CutCode(s, cs, Leftover(n), m, i);
    }
    if k < n {
      CutCode(s, cs, Leftover(n), m, k);
      CutZero(s, cs, Leftover(n), m, k + 1);
    } else if k < 20 {
      CutEnd(s, cs, m);
      FourOnes(n);
      if Leftover(n) == 4 {
        CutZero(s, cs, Leftover(n), m, k + 1);
      }
    }
  }

  lemma {:induction false} FourOnes(n: nat)
    requires n < 20
    ensures Leftover(n) == 6 || (Leftover(n) == 4 && n <= 18)
  {
  }

  // ----- signatures: another alphabet, and nothing behind the last code

  const SIGNATURE_LENGTH := 16
  const SIGNATURE_FIELD := 12

  function SignatureCode(c: char): (code: nat)
    ensures code < 63
  {
    if '0' <= c <= '9' then c as nat - '0' as nat + 1
    else if 'A' <= c <= 'Z' then c as nat - 'A' as nat + 11
    else if 'a' <= c <= 'z' then c as nat - 'a' as nat + 37
    else 0
  }

  function SignatureChar(code: nat): char
    requires code < 64
  {
    if 1 <= code <= 10 then ('0' as nat - 1 + code) as char
    else if 11 <= code <= 36 then ('A' as nat - 11 + code) as char
    else if 37 <= code <= 62 then ('a' as nat - 37 + code) as char
    else code as char
  }

  function SignatureCodes(name: string): (cs: seq<nat>)
    ensures |cs| == |name| && forall i | 0 <= i < |name| :: cs[i] == SignatureCode(name[i])
  {
    seq(|name|, i requires 0 <= i < |name| => SignatureCode(name[i]))
  }

  lemma {:induction false} SignatureDigits()
    ensures SignatureCodes("0123456789") ==
      [1, 2, 3, 4, 5, 6, 7, 8, 9, 10]
  {
  }

  lemma {:induction false} SignatureUpper()
    ensures SignatureCodes("ABCDEFGHIJKLMNOPQRSTUVWXYZ") ==
      [11, 12, 13, 14, 15, 16, 17, 18, 19, 20, 21, 22, 23, 24, 25, 26, 27, 28, 29, 30, 31, 32, 33, 34, 35, 36]
  {
  }

  lemma {:induction false} SignatureLower()
    ensures SignatureCodes("abcdefghijklmnopqrstuvwxyz") ==
      [37, 38, 39, 40, 41, 42, 43, 44, 45, 46, 47, 48, 49, 50, 51, 52, 53, 54, 55, 56, 57, 58, 59, 60, 61, 62]
  {
  }

  /** The codes count the characters in this order from 1 on. */
  lemma {:induction false} SignatureAlphabet()
    ensures SignatureCodes("0123456789") ==
      [1, 2, 3, 4, 5, 6, 7, 8, 9, 10]
    ensures SignatureCodes("ABCDEFGHIJKLMNOPQRSTUVWXYZ") ==
      [11, 12, 13, 14, 15, 16, 17, 18, 19, 20, 21, 22, 23, 24, 25, 26, 27, 28, 29, 30, 31, 32, 33, 34, 35, 36]
    ensures SignatureCodes("abcdefghijklmnopqrstuvwxyz") ==
      [37, 38, 39, 40, 41, 42, 43, 44, 45, 46, 47, 48, 49, 50, 51, 52, 53, 54, 55, 56, 57, 58, 59, 60, 61, 62]
  {
    hide SignatureCodes;
    SignatureDigits();
    SignatureUpper();
    SignatureLower();
  }

  method EncodeStringSignature(name: string, target: array<Byte>) returns (ghost packed: seq<Byte>)
    requires target.Length == SIGNATURE_LENGTH
    modifies target
    ensures |packed| == SIGNATURE_LENGTH && Holds(packed, SignatureCodes(Shortened(name, 15)), 0)
    ensures target[..] == StrNCpy(packed)
  {
    hide MsbOf, Bit, StrLen, StrNCpy, SignatureCode;
    var length := if |name| < 15 then |name| else 15;
    ghost var cs := SignatureCodes(Shortened(name, 15));
    var encoded := new Byte[SIGNATURE_LENGTH](_ => 0);
    NothingHeld(encoded[..]);
    for i := 0 to length
      invariant Holds(encoded[..], cs[..i], 0)
    {
      PackCode(encoded, cs[..i], i, SignatureCode(name[i]));
      assert cs[..i + 1] == cs[..i] + [SignatureCode(name[i])];
    }
    assert cs[..length] == cs;
    packed := encoded[..];
    CopyString(encoded, target);
  }

  /** The characters of the 16 fields before the first field of 0. */
  function SignatureText(s: seq<Byte>): (text: string)
    requires |s| >= SIGNATURE_FIELD
    ensures |text| <= 16
  {
    CString(seq(16, i requires 0 <= i < 16 => SignatureChar(FieldAt(s, i))))
  }

  /** All 16 fields are read, whatever they hold, and the string ends at the first zero. */
  method DecodeStringSignature(s: seq<Byte>, target: array<char>)
    requires |s| >= SIGNATURE_FIELD && target.Length == SIGNATURE_LENGTH
    modifies target
    ensures target[..] == Padded(SignatureText(s), SIGNATURE_LENGTH)
  {
    hide Number, MsbField, SignatureChar, CString, BigValue, TwoTo;
    var decoded := new char[17](_ => '\0');
    for currChar := 0 to 16
      invariant forall i | 0 <= i < currChar :: decoded[i] == SignatureChar(FieldAt(s, i))
    {
      var tempChar := UnpackBitsLE(s, 0, currChar * 6, 6, []);
      assert tempChar == FieldAt(s, currChar);
      decoded[currChar] := SignatureChar(tempChar);
    }
    assert decoded[..16] == seq(16, i requires 0 <= i < 16 => SignatureChar(FieldAt(s, i)));
    CopyChars(decoded, target);
  }

  lemma {:induction false} SignatureCharBack(c: char)
    requires IsAlphanumeric(c)
    ensures 0 < SignatureCode(c) && SignatureChar(SignatureCode(c)) == c
  {
  }

  /** Without a bad pair the bytes before the last code are not zero. */
  lemma {:induction false} ZeroTail(b: seq<Byte>, cs: seq<nat>, k: nat, j: nat)
    requires Holds(b, cs, 0) && Codes(cs) && k <= |cs| && (forall i | 0 <= i < k :: !Bad(cs, i)) && j < |b|
    requires if k < |cs| then k % 4 == 1 && j < 3 * (k / 4) + 1 else 8 * j + 8 < 6 * |cs|
    ensures b[j] != 0
  {
    hide Holds;
    var g := j / 3;
    if j % 3 == 0 {
      CodeIn(b, cs, 0, 4 * g, j);
    } else if j % 3 == 1 {
      PairIn(b, cs, 0, g);
    } else {
      CodeIn(b, cs, 0, 4 * g + 3, j);
    }
  }

  lemma {:induction false} NothingBehind(b: seq<Byte>, cs: seq<nat>, p: nat)
    requires Holds(b, cs, 0) && Codes(cs) && FirstBad(cs, 0) == |cs| && 8 * StrLen(b) <= p < 8 * |b|
    ensures !Stream(cs, 0, p)
  {
    hide MsbOf, Bit;
    var m := StrLen(b);
    if p < 8 * m + 8 {
      ZeroByte(b, m);
      assert !MsbOf(b, p);
    } else if 8 * m + 8 < 6 * |cs| {
      ZeroTail(b, cs, |cs|, m);
      assert false;
    }
  }

  lemma {:induction false} SignatureFields(packed: seq<Byte>, cs: seq<nat>)
    requires Codes(cs) && |cs| <= 15 && |packed| == SIGNATURE_LENGTH && Holds(packed, cs, 0)
    ensures var s, k := StrNCpy(packed)[..SIGNATURE_FIELD], FirstBad(cs, 0);
            var n := if k < |cs| then k + 1 else k;
            (forall i | 0 <= i < n :: FieldAt(s, i) == cs[i]) && FieldAt(s, n) == 0
  {
    hide Holds, StrLen, StrNCpy, FieldAt, Bit, MsbOf, Cut;
    var s, k, m := StrNCpy(packed)[..SIGNATURE_FIELD], FirstBad(cs, 0), StrLen(packed);
    PaddedCut(packed, cs, 0, SIGNATURE_FIELD);
    if k < |cs| {
      forall j | 0 <= j < 3 * (k / 4) + 1
        ensures packed[j] != 0
      {
        ZeroTail(packed, cs, k, j);
      }
      ZeroPair(packed, cs, 0, k);
      assert m == 3 * (k / 4) + 1;
      forall i | 0 <= i < k + 1
        ensures FieldAt(s, i) == cs[i]
      {
        CutCode(s, cs, 0, m, i);
      }
      CutZero(s, cs, 0, m, k + 1);
    } else {
      forall i | 0 <= i < k
        ensures FieldAt(s, i) == cs[i]
      {
        WholeCode(packed, s, cs, i);
      }
      CutZero(s, cs, 0, m, k);
    }
  }

  lemma {:induction false} WholeCode(b: seq<Byte>, s: seq<Byte>, cs: seq<nat>, i: nat)
    requires Holds(b, cs, 0) && Codes(cs) && FirstBad(cs, 0) == |cs| && |s| <= |b|
    requires Cut(s, cs, 0, StrLen(b)) && i < |cs| && 6 * i + 6 <= 8 * |s|
    ensures FieldAt(s, i) == cs[i]
  {
    hide Holds, FieldAt, Bit, MsbOf, StrLen;
    forall k | 0 <= k < 6
      ensures MsbOf(s, 6 * i + 5 - k) == Bit(cs[i], k)
    {
      var p := 6 * i + 5 - k;
      assert p / 6 == i && p % 6 == 5 - k;
      if p / 8 >= StrLen(b) {
        NothingBehind(b, cs, p);
      }
    }
    FieldFrom(s, i, cs[i]);
  }

  /** What comes back of a signature: at most 15 characters, up to the first one of a bad pair. */
  function SignatureShown(name: string): (r: string)
    ensures |r| <= 15
  {
    var kept := Shortened(name, 15);
    var k := FirstBad(SignatureCodes(kept), 0);
    kept[..if k < |kept| then k + 1 else k]
  }

  lemma {:induction false} WholeSignature(name: string)
    ensures SignatureShown(name) == name <==> |name| <= 15 && WithoutBad(SignatureCodes(name))
  {
    hide SignatureCode;
    if |name| <= 15 {
      var k := FirstBad(SignatureCodes(name), 0);
      assert Shortened(name, 15) == name;
      assert k < |name| ==> Bad(SignatureCodes(name), k) && k + 1 < |name|;
    }
  }

  lemma {:induction false} SignatureBack(name: string, packed: seq<Byte>)
    requires Alphanumeric(name) && |packed| == SIGNATURE_LENGTH
    requires Holds(packed, SignatureCodes(Shortened(name, 15)), 0)
    ensures SignatureText(StrNCpy(packed)[..SIGNATURE_FIELD]) == SignatureShown(name)
    ensures forall i | 0 <= i < |SignatureShown(name)| :: SignatureShown(name)[i] != '\0'
  {
    hide Holds, SignatureCode, SignatureChar, FieldAt, StrNCpy, CString, Bad;
    var s, kept := StrNCpy(packed)[..SIGNATURE_FIELD], Shortened(name, 15);
    var cs, r := SignatureCodes(kept), SignatureShown(name);
    forall i | 0 <= i < |kept|
      ensures 0 < cs[i] && SignatureChar(cs[i]) == kept[i] != '\0'
    {
      SignatureCharBack(kept[i]);
    }
    SignatureFields(packed, cs);
    SignatureZero();
    var b := seq(16, i requires 0 <= i < 16 => SignatureChar(FieldAt(s, i)));
    StringOf(b, |r|);
    assert b[..|r|] == r;
  }

  /** A field of 0 is read for a character that is not alphanumeric, and behind the last one. */
  lemma {:induction false} ZeroField(packed: seq<Byte>, cs: seq<nat>, i: nat)
    requires |packed| == SIGNATURE_LENGTH && Holds(packed, cs, 0) && i < 16 && (i < |cs| ==> cs[i] == 0)
    ensures FieldAt(StrNCpy(packed)[..SIGNATURE_FIELD], i) == 0
  {
    hide Holds, FieldAt, Cut, StrLen, StrNCpy;
    PaddedCut(packed, cs, 0, SIGNATURE_FIELD);
    if i < |cs| {
      CutZeroCode(StrNCpy(packed)[..SIGNATURE_FIELD], cs, 0, StrLen(packed), i);
    } else {
      CutZero(StrNCpy(packed)[..SIGNATURE_FIELD], cs, 0, StrLen(packed), i);
    }
  }

  /** The text ends at such a character at the latest. */
  lemma {:induction false} EndsBefore(name: string, packed: seq<Byte>, i: nat)
    requires |packed| == SIGNATURE_LENGTH && Holds(packed, SignatureCodes(Shortened(name, 15)), 0)
    requires i <= 15 && (i < |Shortened(name, 15)| ==> !IsAlphanumeric(name[i]))
    ensures |SignatureText(StrNCpy(packed)[..SIGNATURE_FIELD])| <= i
  {
    hide Holds, FieldAt, StrNCpy, CString;
    ZeroField(packed, SignatureCodes(Shortened(name, 15)), i);
    var b := seq(16, j requires 0 <= j < 16 => SignatureChar(FieldAt(StrNCpy(packed)[..SIGNATURE_FIELD], j)));
    assert b[i] == '\0';
  }

  lemma {:induction false} NotSigned(name: string, packed: seq<Byte>)
    requires |packed| == SIGNATURE_LENGTH && Holds(packed, SignatureCodes(Shortened(name, 15)), 0) &&
      !Alphanumeric(name)
    ensures SignatureText(StrNCpy(packed)[..SIGNATURE_FIELD]) != name
  {
    hide Holds, SignatureCodes, SignatureText, StrNCpy;
    var i :| 0 <= i < |name| && !IsAlphanumeric(name[i]);
    if i < 15 {
      EndsBefore(name, packed, i);
    } else {
      EndsBefore(name, packed, 15);
    }
  }

  /** A signature comes back as a whole exactly when it is alphanumeric, has at most 15 characters and no bad pair.  An
      alphanumeric one comes back up to the first bad pair, whose first character still survives. */
  method SignedAndRead(name: string) returns (back: array<char>)
    ensures back.Length == SIGNATURE_LENGTH && Terminated(back[..])
    ensures Alphanumeric(name) ==>
      CString(back[..]) == SignatureShown(name) && back[..] == Padded(SignatureShown(name), SIGNATURE_LENGTH)
    ensures CString(back[..]) == name <==> Alphanumeric(name) && |name| <= 15 && WithoutBad(SignatureCodes(name))
  {
    hide Holds, SignatureText, CString, StrNCpy, Terminated, SignatureShown, Alphanumeric, SignatureCode;
    var encoded := new Byte[SIGNATURE_LENGTH](_ => 0);
    ghost var packed := EncodeStringSignature(name, encoded);
    back := new char[SIGNATURE_LENGTH](_ => '\0');
    DecodeStringSignature(encoded[..SIGNATURE_FIELD], back);
    ghost var text := SignatureText(StrNCpy(packed)[..SIGNATURE_FIELD]);
    assert back[..] == Padded(text, SIGNATURE_LENGTH);
    SignatureTextEnds(name, packed);
    PaddedString(text, SIGNATURE_LENGTH);
    if Alphanumeric(name) {
      SignatureBack(name, packed);
      WholeSignature(name);
    } else {
      NotSigned(name, packed);
    }
  }

  lemma {:induction false} SignatureTextEnds(name: string, packed: seq<Byte>)
    requires |packed| == SIGNATURE_LENGTH && Holds(packed, SignatureCodes(Shortened(name, 15)), 0)
    ensures var text := SignatureText(StrNCpy(packed)[..SIGNATURE_FIELD]);
      |text| <= 15 && forall i | 0 <= i < |text| :: text[i] != '\0'
  {
    hide Holds, FieldAt, StrNCpy, CString;
    EndsBefore(name, packed, 15);
  }

  /** A signature that is cut: the second and third of these characters share a zero byte. */
  lemma {:induction false} SignatureCutShort()
    ensures Alphanumeric("AF0") && SignatureShown("AF0") == "AF" && !WithoutBad(SignatureCodes("AF0"))
  {
    var cs := SignatureCodes("AF0");
    assert Bad(cs, 1);
    assert FirstBad(cs, 0) == 1;
    var name := "AF0";
    assert SignatureShown(name) == name[..2] == ['A', 'F'];
  }

  lemma {:induction false} SignatureZero()
    ensures SignatureChar(0) == '\0' && SignatureChar(63) == '?'
  {
  }
}
