/** Streaming SHA-256 against FIPS 180-4, sections 5.1.1 (padding) and 6.2.2 (hash computation). */
module Sha256 {

  newtype byte = x: int | 0 <= x < 256
  type word = bv32

  const INITIAL_STATE: seq<word> := [
    0x6a09e667, 0xbb67ae85, 0x3c6ef372, 0xa54ff53a, 0x510e527f, 0x9b05688c, 0x1f83d9ab, 0x5be0cd19]

  const ROUND_CONSTANTS_0: seq<word> := [0x428a2f98, 0x71374491, 0xb5c0fbcf, 0xe9b5dba5, 0x3956c25b, 0x59f111f1, 0x923f82a4, 0xab1c5ed5]
  const ROUND_CONSTANTS_1: seq<word> := [0xd807aa98, 0x12835b01, 0x243185be, 0x550c7dc3, 0x72be5d74, 0x80deb1fe, 0x9bdc06a7, 0xc19bf174]
  const ROUND_CONSTANTS_2: seq<word> := [0xe49b69c1, 0xefbe4786, 0x0fc19dc6, 0x240ca1cc, 0x2de92c6f, 0x4a7484aa, 0x5cb0a9dc, 0x76f988da]
  const ROUND_CONSTANTS_3: seq<word> := [0x983e5152, 0xa831c66d, 0xb00327c8, 0xbf597fc7, 0xc6e00bf3, 0xd5a79147, 0x06ca6351, 0x14292967]
  const ROUND_CONSTANTS_4: seq<word> := [0x27b70a85, 0x2e1b2138, 0x4d2c6dfc, 0x53380d13, 0x650a7354, 0x766a0abb, 0x81c2c92e, 0x92722c85]
  const ROUND_CONSTANTS_5: seq<word> := [0xa2bfe8a1, 0xa81a664b, 0xc24b8b70, 0xc76c51a3, 0xd192e819, 0xd6990624, 0xf40e3585, 0x106aa070]
  const ROUND_CONSTANTS_6: seq<word> := [0x19a4c116, 0x1e376c08, 0x2748774c, 0x34b0bcb5, 0x391c0cb3, 0x4ed8aa4a, 0x5b9cca4f, 0x682e6ff3]
  const ROUND_CONSTANTS_7: seq<word> := [0x748f82ee, 0x78a5636f, 0x84c87814, 0x8cc70208, 0x90befffa, 0xa4506ceb, 0xbef9a3f7, 0xc67178f2]

  const ROUND_CONSTANTS: seq<word> :=
    ROUND_CONSTANTS_0 + ROUND_CONSTANTS_1 + ROUND_CONSTANTS_2 + ROUND_CONSTANTS_3
    + ROUND_CONSTANTS_4 + ROUND_CONSTANTS_5 + ROUND_CONSTANTS_6 + ROUND_CONSTANTS_7

  // The standard -------------------------------------------------------------------------------

  function Rotr(x: word, n: nat): word
    requires n <= 32
  {
    x.RotateRight(n)
  }

  function SmallSigma0(x: word): word { Rotr(x, 7) ^ Rotr(x, 18) ^ (x >> 3) }

  function SmallSigma1(x: word): word { Rotr(x, 17) ^ Rotr(x, 19) ^ (x >> 10) }

  function BigSigma0(x: word): word { Rotr(x, 2) ^ Rotr(x, 13) ^ Rotr(x, 22) }

  function BigSigma1(x: word): word { Rotr(x, 6) ^ Rotr(x, 11) ^ Rotr(x, 25) }

  function Ch(x: word, y: word, z: word): word { (x & y) ^ (!x & z) }

  function Maj(x: word, y: word, z: word): word { (x & y) ^ (x & z) ^ (y & z) }

  function BigEndianWord(b: seq<byte>): word
    requires |b| == 4
  {
    ((b[0] as word) << 24) | ((b[1] as word) << 16) | ((b[2] as word) << 8) | (b[3] as word)
  }

  /** Addition modulo 2^32. */
  function Add(x: word, y: word): word { x + y }

  /** Word `t` of the message schedule. */
  function W(block: seq<byte>, t: nat): word
    requires |block| == 64
  {
    if t < 16 then BigEndianWord(block[4 * t..4 * t + 4])
    else
      Add(Add(Add(W(block, t - 16), SmallSigma0(W(block, t - 15))), W(block, t - 7)), SmallSigma1(W(block, t - 2)))
  }

  /** One round on the working variables a..h. */
  function Round(v: seq<word>, k: word, w: word): (r: seq<word>)
    requires |v| == 8
    ensures |r| == 8
  {
    var t1 := Add(Add(Add(Add(v[7], BigSigma1(v[4])), Ch(v[4], v[5], v[6])), k), w);
    var t2 := Add(BigSigma0(v[0]), Maj(v[0], v[1], v[2]));
    [Add(t1, t2), v[0], v[1], v[2], Add(v[3], t1), v[4], v[5], v[6]]
  }

  /** The working variables after the first `t` rounds. */
  function Rounds(state: seq<word>, block: seq<byte>, t: nat): (v: seq<word>)
    requires |state| == 8 && |block| == 64 && t <= 64
    ensures |v| == 8
  {
    if t == 0 then state else Round(Rounds(state, block, t - 1), ROUND_CONSTANTS[t - 1], W(block, t - 1))
  }

  function Compressed(state: seq<word>, block: seq<byte>): (next: seq<word>)
    requires |state| == 8 && |block| == 64
    ensures |next| == 8
  {
    var v := Rounds(state, block, 64);
    seq(8, i requires 0 <= i < 8 => Add(state[i], v[i]))
  }

  /** The state after a whole number of blocks. */
  function Hashed(blocks: seq<byte>): (state: seq<word>)
    requires |blocks| % 64 == 0
    ensures |state| == 8
  {
    if blocks == [] then INITIAL_STATE
    else
      var last := |blocks| - 64;
      Compressed(Hashed(blocks[..last]), blocks[last..])
  }

  const TWO_64: nat := 0x1_0000_0000_0000_0000

  function BigEndian64(n: nat): (b: seq<byte>)
    requires n < TWO_64
    ensures |b| == 8
  {
    seq(8, i requires 0 <= i < 8 => (n / Pow256(7 - i) % 256) as byte)
  }

  function Pow256(n: nat): (p: nat)
    ensures p > 0
  {
    if n == 0 then 1 else 256 * Pow256(n - 1)
  }

  function Zeros(n: nat): (z: seq<byte>)
    ensures |z| == n
  {
    seq(n, _ => 0)
  }

  /** The message followed by one bit, zeros and the length in bits. */
  function Padded(message: seq<byte>): (p: seq<byte>)
    ensures |p| % 64 == 0
  {
    message + [0x80] + Zeros((55 - |message|) % 64) + BigEndian64(8 * |message| % TWO_64)
  }

  function HexDigit(n: bv32): (c: char)
    ensures c in "0123456789abcdef"
  {
    "0123456789abcdef"[(n & 15) as int]
  }

  function HexWord(x: word): (text: string)
    ensures |text| == 8 && forall c | c in text :: c in "0123456789abcdef"
  {
    [HexDigit(x >> 28), HexDigit(x >> 24), HexDigit(x >> 20), HexDigit(x >> 16),
     HexDigit(x >> 12), HexDigit(x >> 8), HexDigit(x >> 4), HexDigit(x)]
  }

  function HexWords(state: seq<word>): (text: string)
    ensures |text| == 8 * |state| && forall c | c in text :: c in "0123456789abcdef"
  {
    if state == [] then "" else HexWords(state[..|state| - 1]) + HexWord(state[|state| - 1])
  }

  /** The fingerprint of a message. */
  function Digest(message: seq<byte>): (text: string)
    ensures |text| == 71
    ensures forall c | c in text :: c in "sha:0123456789bcdef"
  {
    "sha256:" + HexWords(Hashed(Padded(message)))
  }

  // The implementation -------------------------------------------------------------------------

  method Compress(state: array<word>, block: seq<byte>)
    requires state.Length == 8 && |block| == 64
    modifies state
    ensures state[..] == Compressed(old(state[..]), block)
  {
    hide Add, W, Round, Rounds, BigSigma0, BigSigma1, Ch, Maj;
    var schedule := Schedule(block);
    ghost var before := state[..];
    var a, b, c, d := state[0], state[1], state[2], state[3];
    var e, f, g, h := state[4], state[5], state[6], state[7];
    NoRounds(before, block);
    for index := 0 to 64
      invariant [a, b, c, d, e, f, g, h] == Rounds(before, block, index)
      invariant state[..] == before && forall t | 0 <= t < 64 :: schedule[t] == W(block, t)
    {
      NextRound(before, block, index);
      RoundOf(a, b, c, d, e, f, g, h, ROUND_CONSTANTS[index], W(block, index));
      var upper := BigSigma1(e);
      var choose := Ch(e, f, g);
      var temporary1 := Add(Add(Add(Add(h, upper), choose), ROUND_CONSTANTS[index]), schedule[index]);
      var lower := BigSigma0(a);
      var majority := Maj(a, b, c);
      var temporary2 := Add(lower, majority);
      h := g;
      g := f;
      f := e;
      e := Add(d, temporary1);
      d := c;
      c := b;
      b := a;
      a := Add(temporary1, temporary2);
    }
    AddVariables(state, [a, b, c, d, e, f, g, h]);
  }

  /** The final loop of the compression. */
  method AddVariables(state: array<word>, v: seq<word>)
    requires state.Length == 8 && |v| == 8
    modifies state
    ensures state[..] == seq(8, i requires 0 <= i < 8 => Add(old(state[..])[i], v[i]))
  {
    for i := 0 to 8
      invariant forall j | 0 <= j < i :: state[j] == Add(old(state[..])[j], v[j])
      invariant forall j | i <= j < 8 :: state[j] == old(state[..])[j]
    {
      state[i] := Add(state[i], v[i]);
    }
  }

  method Schedule(block: seq<byte>) returns (schedule: array<word>)
    requires |block| == 64
    ensures fresh(schedule) && schedule.Length == 64
    ensures forall t | 0 <= t < 64 :: schedule[t] == W(block, t)
  {
    hide SmallSigma0, SmallSigma1, BigEndianWord, Add, W;
    schedule := new word[64](_ => 0);
    for index := 0 to 16
      invariant forall t | 0 <= t < index :: schedule[t] == W(block, t)
    {
      FirstWords(block, index);
      schedule[index] := BigEndianWord(block[4 * index..4 * index + 4]);
    }
    for index := 16 to 64
      invariant forall t | 0 <= t < index :: schedule[t] == W(block, t)
    {
      var s0 := SmallSigma0(schedule[index - 15]);
      var s1 := SmallSigma1(schedule[index - 2]);
      LaterWords(block, index);
      schedule[index] := Add(Add(Add(schedule[index - 16], s0), schedule[index - 7]), s1);
    }
  }

  lemma FirstWords(block: seq<byte>, t: nat)
    requires |block| == 64 && t < 16
    ensures W(block, t) == BigEndianWord(block[4 * t..4 * t + 4])
  {
  }

  lemma LaterWords(block: seq<byte>, t: nat)
    requires |block| == 64 && t >= 16
    ensures W(block, t)
         == Add(Add(Add(W(block, t - 16), SmallSigma0(W(block, t - 15))), W(block, t - 7)), SmallSigma1(W(block, t - 2)))
  {
    hide SmallSigma0, SmallSigma1, Add, BigEndianWord;
  }

  lemma NoRounds(state: seq<word>, block: seq<byte>)
    requires |state| == 8 && |block| == 64
    ensures Rounds(state, block, 0) == state
  {
  }

  lemma RoundOf(a: word, b: word, c: word, d: word, e: word, f: word, g: word, h: word, k: word, w: word)
    ensures var t1 := Add(Add(Add(Add(h, BigSigma1(e)), Ch(e, f, g)), k), w);
      Round([a, b, c, d, e, f, g, h], k, w) == [Add(t1, Add(BigSigma0(a), Maj(a, b, c))), a, b, c, Add(d, t1), e, f, g]
  {
    hide Add, BigSigma0, BigSigma1, Ch, Maj;
  }

  lemma NextRound(state: seq<word>, block: seq<byte>, t: nat)
    requires |state| == 8 && |block| == 64 && t < 64
    ensures Rounds(state, block, t + 1) == Round(Rounds(state, block, t), ROUND_CONSTANTS[t], W(block, t))
  {
    hide Round, W;
  }

  lemma HashedBlock(blocks: seq<byte>, block: seq<byte>)
    requires |blocks| % 64 == 0 && |block| == 64
    ensures Hashed(blocks + block) == Compressed(Hashed(blocks), block)
  {
    assert (blocks + block)[..|blocks|] == blocks && (blocks + block)[|blocks|..] == block;
  }

  /** The complete blocks of a message. */
  function Blocks(message: seq<byte>): (b: seq<byte>)
    ensures |b| % 64 == 0
  {
    message[..|message| / 64 * 64]
  }

  /** What is left of a message after its complete blocks. */
  function Remainder(message: seq<byte>): (r: seq<byte>)
    ensures |r| < 64
  {
    message[|message| / 64 * 64..]
  }

  /** The split into complete blocks and less than a block is unique. */
  lemma SplitIs(blocks: seq<byte>, rest: seq<byte>)
    requires |blocks| % 64 == 0 && |rest| < 64
    ensures Blocks(blocks + rest) == blocks && Remainder(blocks + rest) == rest
  {
    assert |blocks + rest| / 64 * 64 == |blocks|;
  }

  lemma SplitOf(message: seq<byte>)
    ensures message == Blocks(message) + Remainder(message)
  {
  }

  lemma NothingWritten()
    ensures Blocks([]) == [] && Remainder([]) == [] && Hashed([]) == INITIAL_STATE
  {
  }

  class FingerprintHasher {
    const state: array<word>
    const buffer: array<byte>
    var bufferLen: nat
    var bytes: nat
    /** Everything written so far. */
    ghost var message: seq<byte>

    /** The state hashes the complete blocks; the buffer holds the remainder. */
    ghost predicate Valid()
      reads this, state, buffer
    {
      && state.Length == 8 && buffer.Length == 64 && state as object != buffer as object
      && bufferLen == |Remainder(message)|
      && bytes == |message| % TWO_64
      && state[..] == Hashed(Blocks(message))
      && buffer[..bufferLen] == Remainder(message)
    }

    constructor ()
      ensures Valid() && message == [] && fresh(this) && fresh(state) && fresh(buffer)
    {
      hide Hashed, Blocks, Remainder;
      NothingWritten();
      state := new word[8](i requires 0 <= i < 8 => INITIAL_STATE[i]);
      buffer := new byte[64](_ => 0);
      bufferLen, bytes, message := 0, 0, [];
      new;
      assert state[..] == INITIAL_STATE;
    }

    /** Copies bytes into the buffer. */
    method Fill(start: nat, input: seq<byte>)
      requires buffer.Length == 64 && start + |input| <= 64
      modifies buffer
      ensures buffer[..] == old(buffer[..start]) + input + old(buffer[start + |input|..])
      ensures buffer[..start + |input|] == old(buffer[..start]) + input
    {
      for i := 0 to |input|
        invariant buffer[..] == old(buffer[..start]) + input[..i] + old(buffer[start + i..])
      {
        buffer[start + i] := input[i];
      }
      assert input[..|input|] == input;
    }

    /** Compresses the full buffer. */
    method CompressBuffer(ghost blocks: seq<byte>)
      requires state.Length == 8 && buffer.Length == 64 && |blocks| % 64 == 0 && state[..] == Hashed(blocks)
      modifies state
      ensures state[..] == Hashed(blocks + buffer[..])
    {
      hide Hashed, Compressed;
      Compress(state, buffer[..]);
      HashedBlock(blocks, buffer[..]);
    }

    /** Completes the block in the buffer, as far as the chunk goes. */
    method TopUp(chunk: seq<byte>, ghost blocks: seq<byte>, ghost rest: seq<byte>)
      returns (full: bool, ghost done: seq<byte>, input: seq<byte>)
      requires state.Length == 8 && buffer.Length == 64 && state as object != buffer as object
      requires bufferLen == |rest| < 64 && buffer[..bufferLen] == rest
      requires |blocks| % 64 == 0 && state[..] == Hashed(blocks)
      modifies `bufferLen, state, buffer
      ensures |done| % 64 == 0 && state[..] == Hashed(done)
      ensures full ==> bufferLen == 0 && done + input == blocks + (rest + chunk)
      ensures !full ==> done == blocks && bufferLen == |rest + chunk| < 64 && buffer[..bufferLen] == rest + chunk
    {
      hide Hashed;
      var needed := 64 - bufferLen;
      var copied := if needed < |chunk| then needed else |chunk|;
      Fill(bufferLen, chunk[..copied]);
      bufferLen := bufferLen + copied;
      input := chunk[copied..];
      assert chunk == chunk[..copied] + input;
      full := bufferLen == 64;
      done := blocks;
      if full {
        CompressBuffer(blocks);
        assert buffer[..] == buffer[..64] == rest + chunk[..copied];
        done := blocks + buffer[..];
        assert done + input == blocks + (rest + chunk);
        bufferLen := 0;
      }
    }

    /** `write`: any chunk, of any length, at any point. */
    method Write(chunk: seq<byte>)
      requires Valid()
      modifies this, state, buffer
      ensures Valid() && message == old(message) + chunk
    {
      hide Hashed, Blocks, Remainder;
      ghost var blocks, rest := Blocks(message), Remainder(message);
      WholeMessage(message, chunk);
      CountBytes(|message|, |chunk|);
      bytes := (bytes + |chunk|) % TWO_64;
      message := message + chunk;
      var input := chunk;
      if bufferLen != 0 {
        var full;
        full, blocks, input := TopUp(chunk, blocks, rest);
        if !full {
          SplitIs(blocks, rest + chunk);
          return;
        }
      }
      blocks, input := WriteBlocks(blocks, input);
      Fill(0, input);
      bufferLen := |input|;
      SplitIs(blocks, input);
    }

    /** The loop over complete blocks. */
    method WriteBlocks(ghost blocks: seq<byte>, chunk: seq<byte>) returns (ghost done: seq<byte>, input: seq<byte>)
      requires state.Length == 8 && |blocks| % 64 == 0 && state[..] == Hashed(blocks)
      modifies state
      ensures |done| % 64 == 0 && |input| < 64 && done + input == blocks + chunk && state[..] == Hashed(done)
    {
      hide Hashed, Compressed;
      done, input := blocks, chunk;
      while |input| >= 64
        invariant |done| % 64 == 0 && done + input == blocks + chunk && state[..] == Hashed(done)
      {
        Compress(state, input[..64]);
        HashedBlock(done, input[..64]);
        assert done + input[..64] + input[64..] == done + input;
        done := done + input[..64];
        input := input[64..];
      }
    }

    /** The final bit and zeros up to `end`. */
    method PadTo(end: nat)
      requires buffer.Length == 64 && bufferLen < end <= 64
      modifies `bufferLen, buffer
      ensures bufferLen == old(bufferLen) + 1
      ensures buffer[..end] == old(buffer[..bufferLen]) + [0x80] + Zeros(end - old(bufferLen) - 1)
    {
      hide Zeros;
      Fill(bufferLen, [0x80]);
      bufferLen := bufferLen + 1;
      Fill(bufferLen, Zeros(end - bufferLen));
    }

    /** `finish`: the digest of everything written, however it was cut into chunks. */
    method Finish() returns (text: string)
      requires Valid()
      modifies this, state, buffer
      ensures text == Digest(old(message))
    {
      hide Hashed, Blocks, Remainder, BigEndian64, Zeros, Padded;
      ghost var blocks, rest := Blocks(message), Remainder(message);
      SplitOf(message);
      var bitLength := bytes * 8 % TWO_64;
      BitLength(|message|);
      PaddedIs(message, blocks, rest, bitLength);
      if bufferLen + 1 > 56 {
        PadTo(64);
        CompressBuffer(blocks);
        assert buffer[..] == buffer[..64];
        blocks := blocks + buffer[..];
        Fill(0, Zeros(56));
        assert buffer[..56] == Zeros(56);
      } else {
        PadTo(56);
      }
      ghost var front := buffer[..56];
      assert blocks + (front + BigEndian64(bitLength)) == Padded(message);
      Fill(56, BigEndian64(bitLength));
      assert buffer[..] == buffer[..64] == front + BigEndian64(bitLength);
      CompressBuffer(blocks);
      text := "sha256:" + HexWords(state[..]);
    }
  }

  /** The message and a further chunk, as blocks and a remainder in front of the chunk. */
  lemma WholeMessage(message: seq<byte>, chunk: seq<byte>)
    ensures message + chunk == Blocks(message) + (Remainder(message) + chunk)
    ensures Remainder(message) == [] ==> message + chunk == Blocks(message) + chunk
  {
  }

  lemma CountBytes(n: nat, k: nat)
    ensures (n % TWO_64 + k) % TWO_64 == (n + k) % TWO_64
  {
    ModAdd(n % TWO_64 + k, n / TWO_64);
  }

  lemma BitLength(n: nat)
    ensures n % TWO_64 * 8 % TWO_64 == 8 * n % TWO_64
  {
    assert n == n / TWO_64 * TWO_64 + n % TWO_64;
    assert 8 * n == n % TWO_64 * 8 + 8 * (n / TWO_64) * TWO_64;
    ModAdd(n % TWO_64 * 8, 8 * (n / TWO_64));
  }

  lemma ModAdd(a: nat, k: nat)
    ensures (a + k * TWO_64) % TWO_64 == a % TWO_64
  {
  }

  /** Both ways the padding can fall, as whole blocks. */
  lemma PaddedIs(message: seq<byte>, blocks: seq<byte>, rest: seq<byte>, bits: nat)
    requires message == blocks + rest && |blocks| % 64 == 0 && |rest| < 64
    requires bits == 8 * |message| % TWO_64
    ensures |rest| + 1 > 56 ==>
      Padded(message) == blocks + (rest + [0x80] + Zeros(63 - |rest|)) + (Zeros(56) + BigEndian64(bits))
    ensures |rest| + 1 <= 56 ==>
      Padded(message) == blocks + (rest + [0x80] + Zeros(55 - |rest|) + BigEndian64(bits))
  {
    hide BigEndian64, Zeros;
    PadLength(|message|, |blocks| / 64, |rest|);
    if |rest| + 1 > 56 {
      ZerosAdd(63 - |rest|, 56);
      Regroup(blocks, rest, [0x80], Zeros(63 - |rest|), Zeros(56), BigEndian64(bits));
    } else {
      Regroup(blocks, rest, [0x80], Zeros(55 - |rest|), [], BigEndian64(bits));
    }
  }

  lemma PadLength(n: nat, blocks: nat, rest: nat)
    requires n == 64 * blocks + rest && rest < 64
    ensures (55 - n) % 64 == if rest > 55 then 119 - rest else 55 - rest
  {
  }

  lemma ZerosAdd(m: nat, n: nat)
    ensures Zeros(m + n) == Zeros(m) + Zeros(n)
  {
  }

  lemma Regroup(a: seq<byte>, b: seq<byte>, c: seq<byte>, d: seq<byte>, e: seq<byte>, f: seq<byte>)
    ensures ((a + b) + c + (d + e)) + f == a + (b + c + d) + (e + f)
    ensures ((a + b) + c + d) + f == a + (b + c + d + f)
  {
  }

  /** Below 2^61 bytes the appended length is the exact number of bits the standard asks for. */
  lemma LengthExact(message: seq<byte>)
    requires |message| < 0x2000_0000_0000_0000
    ensures Padded(message) == message + [0x80] + Zeros((55 - |message|) % 64) + BigEndian64(8 * |message|)
  {
  }

  /** The number that bytes spell, the most significant first. */
  ghost function Spelled(b: seq<byte>): nat {
    if b == [] then 0 else 256 * Spelled(b[..|b| - 1]) + b[|b| - 1] as nat
  }

  /** The first `k` of the eight bytes spell the number without its lower bytes. */
  lemma {:induction false} SpelledPart(n: nat, k: nat)
    requires n < TWO_64 && k <= 8
    ensures Spelled(BigEndian64(n)[..k]) == n / Pow256(8 - k)
  {
    hide Spelled, BigEndian64, Pow256;
    if k == 0 {
      SpelledNothing(n);
    } else {
      var below := k - 1;
      SpelledPart(n, below);
      SpelledSnoc(n, below);
      assert 7 - below == 8 - k && below + 1 == k;
      OneByteMore(n, Pow256(8 - k));
    }
  }

  lemma SpelledSnoc(n: nat, k: nat)
    requires n < TWO_64 && k < 8
    ensures Spelled(BigEndian64(n)[..k + 1]) == 256 * Spelled(BigEndian64(n)[..k]) + n / Pow256(7 - k) % 256
    ensures Pow256(8 - k) == 256 * Pow256(7 - k)
  {
    var b := BigEndian64(n)[..k + 1];
    assert b[..k] == BigEndian64(n)[..k] && b[k] as nat == n / Pow256(7 - k) % 256;
  }

  lemma SpelledNothing(n: nat)
    requires n < TWO_64
    ensures Spelled(BigEndian64(n)[..0]) == n / Pow256(8)
  {
    assert Pow256(4) == 0x1_0000_0000;
    assert Pow256(8) == TWO_64;
  }

  lemma OneByteMore(n: nat, p: nat)
    requires p > 0
    ensures 256 * (n / (256 * p)) + n / p % 256 == n / p
  {
    var q, r := n / p, n % p;
    var a, b := q / 256, q % 256;
    Distributed(p, a, b);
    AtMost(p, b, 255);
    QuotientIs(n, 256 * p, a, p * b + r);
  }

  lemma Distributed(p: nat, a: nat, b: nat)
    ensures p * (256 * a + b) == 256 * p * a + p * b
  {
  }

  lemma AtMost(p: nat, b: nat, c: nat)
    requires b <= c
    ensures p * b <= p * c
  {
  }

  lemma QuotientIs(n: nat, d: nat, q: nat, r: nat)
    requires d > 0 && n == d * q + r && r < d
    ensures n / d == q
  {
    var found := n / d;
    assert n == d * found + n % d;
    if found < q {
      AtMost(d, found + 1, q);
    } else if q < found {
      AtMost(d, q + 1, found);
    }
  }

  /** The appended length reads back as the number of bits. */
  lemma LengthReads(n: nat)
    requires n < TWO_64
    ensures Spelled(BigEndian64(n)) == n
  {
    SpelledPart(n, 8);
    assert BigEndian64(n)[..8] == BigEndian64(n) && Pow256(0) == 1;
  }

  /** Section 5.1.1: behind the message come a one bit, fewer than 64 bytes of zeros and the number of bits of the message
      modulo 2^64, most significant byte first, so that whole blocks result. */
  lemma PaddingMeans(message: seq<byte>)
    ensures
      var padded, zeros := Padded(message), |Padded(message)| - |message| - 9;
      && |padded| % 64 == 0 && 0 <= zeros < 64
      && padded[..|message|] == message && padded[|message|] == 0x80
      && (forall i | |message| < i <= |message| + zeros :: padded[i] == 0)
      && Spelled(padded[|padded| - 8..]) == 8 * |message| % TWO_64
  {
    var zeros := (55 - |message|) % 64;
    var length := BigEndian64(8 * |message| % TWO_64);
    LengthReads(8 * |message| % TWO_64);
    hide BigEndian64, Spelled;
    var padded := message + [0x80] + Zeros(zeros) + length;
    assert |padded| == |message| + 9 + zeros && padded[|padded| - 8..] == length;
  }

  function Concat(chunks: seq<seq<byte>>): seq<byte> {
    if chunks == [] then [] else Concat(chunks[..|chunks| - 1]) + chunks[|chunks| - 1]
  }

  /** Hashing a stream in any chunks. */
  method HashChunks(chunks: seq<seq<byte>>) returns (text: string)
    ensures text == Digest(Concat(chunks))
  {
    hide Digest, Hashed, Blocks, Remainder;
    var hasher := new FingerprintHasher();
    for i := 0 to |chunks|
      invariant hasher.Valid() && fresh(hasher) && fresh(hasher.state) && fresh(hasher.buffer)
      invariant hasher.message == Concat(chunks[..i])
    {
      hasher.Write(chunks[i]);
      assert chunks[..i + 1][..i] == chunks[..i];
    }
    assert chunks[..|chunks|] == chunks;
    text := hasher.Finish();
  }
}
