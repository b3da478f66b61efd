/**
 The constants, the logical functions and the text form of the digest against FIPS 180-4: sections 3.2 (rotation),
 4.1.2 (functions), 4.2.2 (round constants) and 5.3.3 (initial value).
 */
module Sha256Standard {
  import opened Sha256

  const TWO_32: nat := 0x1_0000_0000

  /** Round constant `t` is the fraction of the cube root of `prime` to 32 binary places; `whole` is its whole part. */
  ghost predicate CubeRoot(t: nat, whole: nat, prime: nat) {
    t < 64 &&
    var n := whole * TWO_32 + ROUND_CONSTANTS[t] as nat;
    n * n * n <= prime * 0x1_0000_0000_0000_0000_0000_0000 < (n + 1) * (n + 1) * (n + 1)
  }

  /** Word `t` of the initial state is the fraction of the square root of `prime` to 32 binary places. */
  ghost predicate SquareRoot(t: nat, whole: nat, prime: nat) {
    t < 8 &&
    var n := whole * TWO_32 + INITIAL_STATE[t] as nat;
    n * n <= prime * 0x1_0000_0000_0000_0000 < (n + 1) * (n + 1)
  }

  /** The initial state comes from the first eight primes. */
  lemma InitialStateRoots()
    ensures SquareRoot(0, 1, 2) && SquareRoot(1, 1, 3) && SquareRoot(2, 2, 5) && SquareRoot(3, 2, 7)
    ensures SquareRoot(4, 3, 11) && SquareRoot(5, 3, 13) && SquareRoot(6, 4, 17) && SquareRoot(7, 4, 19)
  {
  }

  // The round constants come from the first sixty-four primes.

  lemma Roots0()
    ensures CubeRoot(0, 1, 2) && CubeRoot(1, 1, 3) && CubeRoot(2, 1, 5) && CubeRoot(3, 1, 7)
  {
  }

  lemma Roots4()
    ensures CubeRoot(4, 2, 11) && CubeRoot(5, 2, 13) && CubeRoot(6, 2, 17) && CubeRoot(7, 2, 19)
  {
  }

  lemma Roots8()
    ensures CubeRoot(8, 2, 23) && CubeRoot(9, 3, 29) && CubeRoot(10, 3, 31) && CubeRoot(11, 3, 37)
  {
  }

  lemma Roots12()
    ensures CubeRoot(12, 3, 41) && CubeRoot(13, 3, 43) && CubeRoot(14, 3, 47) && CubeRoot(15, 3, 53)
  {
  }

  lemma Roots16()
    ensures CubeRoot(16, 3, 59) && CubeRoot(17, 3, 61) && CubeRoot(18, 4, 67) && CubeRoot(19, 4, 71)
  {
  }

  lemma Roots20()
    ensures CubeRoot(20, 4, 73) && CubeRoot(21, 4, 79) && CubeRoot(22, 4, 83) && CubeRoot(23, 4, 89)
  {
  }

  lemma Roots24()
    ensures CubeRoot(24, 4, 97) && CubeRoot(25, 4, 101) && CubeRoot(26, 4, 103) && CubeRoot(27, 4, 107)
  {
  }

  lemma Roots28()
    ensures CubeRoot(28, 4, 109) && CubeRoot(29, 4, 113) && CubeRoot(30, 5, 127) && CubeRoot(31, 5, 131)
  {
  }

  lemma Roots32()
    ensures CubeRoot(32, 5, 137) && CubeRoot(33, 5, 139) && CubeRoot(34, 5, 149) && CubeRoot(35, 5, 151)
  {
  }

  lemma Roots36()
    ensures CubeRoot(36, 5, 157) && CubeRoot(37, 5, 163) && CubeRoot(38, 5, 167) && CubeRoot(39, 5, 173)
  {
  }

  lemma Roots40()
    ensures CubeRoot(40, 5, 179) && CubeRoot(41, 5, 181) && CubeRoot(42, 5, 191) && CubeRoot(43, 5, 193)
  {
  }

  lemma Roots44()
    ensures CubeRoot(44, 5, 197) && CubeRoot(45, 5, 199) && CubeRoot(46, 5, 211) && CubeRoot(47, 6, 223)
  {
  }

  lemma Roots48()
    ensures CubeRoot(48, 6, 227) && CubeRoot(49, 6, 229) && CubeRoot(50, 6, 233) && CubeRoot(51, 6, 239)
  {
  }

  lemma Roots52()
    ensures CubeRoot(52, 6, 241) && CubeRoot(53, 6, 251) && CubeRoot(54, 6, 257) && CubeRoot(55, 6, 263)
  {
  }

  lemma Roots56()
    ensures CubeRoot(56, 6, 269) && CubeRoot(57, 6, 271) && CubeRoot(58, 6, 277) && CubeRoot(59, 6, 281)
  {
  }

  lemma Roots60()
    ensures CubeRoot(60, 6, 283) && CubeRoot(61, 6, 293) && CubeRoot(62, 6, 307) && CubeRoot(63, 6, 311)
  {
  }

  /** Where the only one of a word goes: the functions turn and shift to the right by the amounts of the standard. */
  lemma OneBit()
    ensures BigSigma0(0x80000000) == 0x20040200 && BigSigma1(0x80000000) == 0x02100040
    ensures SmallSigma0(0x80000000) == 0x11002000 && SmallSigma1(0x80000000) == 0x00205000
  {
    OneBitTurned();
    hide Rotr;
  }

  lemma OneBitTurned()
    ensures Rotr(0x80000000, 2) == 0x20000000 && Rotr(0x80000000, 13) == 0x00040000 && Rotr(0x80000000, 22) == 0x00000200
    ensures Rotr(0x80000000, 6) == 0x02000000 && Rotr(0x80000000, 11) == 0x00100000 && Rotr(0x80000000, 25) == 0x00000040
    ensures Rotr(0x80000000, 7) == 0x01000000 && Rotr(0x80000000, 18) == 0x00002000
    ensures Rotr(0x80000000, 17) == 0x00004000 && Rotr(0x80000000, 19) == 0x00001000
  {
  }

  /** Where `x` has a one the choice is `y`, elsewhere it is `z`. */
  lemma Choice(x: word, y: word, z: word)
    ensures Ch(x, y, z) & x == y & x && Ch(x, y, z) & !x == z & !x
  {
  }

  /** The majority has the bits that two of the three have. */
  lemma Majority(x: word, y: word, z: word)
    ensures Maj(x, y, z) == (x & y) | (x & z) | (y & z)
  {
  }

  /** Sums wrap around at 2^32. */
  lemma SumWraps()
    ensures Add(0xfffffffe, 5) == 3 && Add(0x01020304, 0x10203040) == 0x11223344
  {
  }

  /** The text shows a word most significant digit first, and a word is read most significant byte first. */
  lemma DigitsInOrder()
    ensures HexWord(0x01234567) == "01234567" && HexWord(0x89abcdef) == "89abcdef"
  {
  }

  lemma FirstByte(b: seq<byte>)
    requires |b| == 4
    ensures BigEndianWord(b) >> 24 == b[0] as word
  {
  }

  lemma SecondByte(b: seq<byte>)
    requires |b| == 4
    ensures (BigEndianWord(b) >> 16) & 0xff == b[1] as word
  {
  }

  lemma ThirdByte(b: seq<byte>)
    requires |b| == 4
    ensures (BigEndianWord(b) >> 8) & 0xff == b[2] as word
  {
  }

  lemma FourthByte(b: seq<byte>)
    requires |b| == 4
    ensures BigEndianWord(b) & 0xff == b[3] as word
  {
  }
}
