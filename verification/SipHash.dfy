// SipHash-2-4 with eight bytes of output, as the Bloom filter's string hash
// computes it.

module SipHash {
  import opened Common

  datatype State = State(v0: Word, v1: Word, v2: Word, v3: Word)

  function Rotl(x: Word, b: Word): Word
    requires 0 < b < 64
  {
    (x << b) | (x >> (64 - b))
  }

  function Add(x: Word, y: Word): Word {
    x + y
  }

  function Xor(x: Word, y: Word): Word {
    x ^ y
  }

  // ----------------------------------------------- the definition, section 2

  /** One round: two half rounds on the pairs, mixed crosswise in between. */
  function SipRound(s: State): State {
    var v0, v2 := Add(s.v0, s.v1), Add(s.v2, s.v3);
    var v1, v3 := Xor(Rotl(s.v1, 13), v0), Xor(Rotl(s.v3, 16), v2);
    var w0, w2 := Add(Rotl(v0, 32), v3), Add(v2, v1);
    State(w0, Xor(Rotl(v1, 17), w2), Rotl(w2, 32), Xor(Rotl(v3, 21), w0))
  }

  function Rounds(s: State, n: nat): State {
    if n == 0 then s else SipRound(Rounds(s, n - 1))
  }

  function LittleEndian(b: seq<Byte>): Word
    requires |b| == 8
  {
    (b[0] as Word) | ((b[1] as Word) << 8) | ((b[2] as Word) << 16) | ((b[3] as Word) << 24)
    | ((b[4] as Word) << 32) | ((b[5] as Word) << 40) | ((b[6] as Word) << 48) | ((b[7] as Word) << 56)
  }

  function LengthByte(n: nat): Byte {
    (n % 256) as Byte
  }

  function Zeros(n: nat): (z: seq<Byte>)
    ensures |z| == n
  {
    seq(n, _ => 0)
  }

  /** The message, null bytes up to one short of a multiple of eight, and the
      length modulo 256. */
  function Padded(m: seq<Byte>): (p: seq<Byte>)
    ensures |p| == 8 * (|m| / 8 + 1)
  {
    m + Zeros(7 - |m| % 8) + [LengthByte(|m|)]
  }

  function WordAt(p: seq<Byte>, i: nat): Word
    requires 8 * i + 8 <= |p|
  {
    LittleEndian(p[8 * i..8 * i + 8])
  }

  function Initial(k0: Word, k1: Word): State {
    State(Xor(0x736f6d6570736575, k0), Xor(0x646f72616e646f6d, k1),
          Xor(0x6c7967656e657261, k0), Xor(0x7465646279746573, k1))
  }

  function Compress(s: State, word: Word): State {
    var mixed := Rounds(s.(v3 := Xor(s.v3, word)), 2);
    mixed.(v0 := Xor(mixed.v0, word))
  }

  /** The state after the first n words of p. */
  function Compressed(s: State, p: seq<Byte>, n: nat): State
    requires 8 * n <= |p|
  {
    if n == 0 then s else Compress(Compressed(s, p, n - 1), WordAt(p, n - 1))
  }

  function Finalized(s: State): Word {
    var last := Rounds(s.(v2 := Xor(s.v2, 0xff)), 4);
    Xor(Xor(Xor(last.v0, last.v1), last.v2), last.v3)
  }

  function SipHash24(key: seq<Byte>, m: seq<Byte>): Word
    requires |key| == 16
  {
    var start := Initial(LittleEndian(key[..8]), LittleEndian(key[8..]));
    Finalized(Compressed(start, Padded(m), |m| / 8 + 1))
  }

  // ---------------------------------------------------------- implementation

  method RoundInPlace(v0: Word, v1: Word, v2: Word, v3: Word) returns (w0: Word, w1: Word, w2: Word, w3: Word)
    ensures State(w0, w1, w2, w3) == SipRound(State(v0, v1, v2, v3))
  {
    hide Rotl, Add, Xor;
    w0, w1, w2, w3 := v0, v1, v2, v3;
    w0 := Add(w0, w1);
    w1 := Rotl(w1, 13);
    w1 := Xor(w1, w0);
    w0 := Rotl(w0, 32);
    w2 := Add(w2, w3);
    w3 := Rotl(w3, 16);
    w3 := Xor(w3, w2);
    w0 := Add(w0, w3);
    w3 := Rotl(w3, 21);
    w3 := Xor(w3, w0);
    w2 := Add(w2, w1);
    w1 := Rotl(w1, 17);
    w1 := Xor(w1, w2);
    w2 := Rotl(w2, 32);
  }

  method ManyRounds(v0: Word, v1: Word, v2: Word, v3: Word, count: nat)
    returns (w0: Word, w1: Word, w2: Word, w3: Word)
    ensures State(w0, w1, w2, w3) == Rounds(State(v0, v1, v2, v3), count)
  {
    hide SipRound;
    w0, w1, w2, w3 := v0, v1, v2, v3;
    for i := 0 to count
      invariant State(w0, w1, w2, w3) == Rounds(State(v0, v1, v2, v3), i)
    {
      w0, w1, w2, w3 := RoundInPlace(w0, w1, w2, w3);
    }
  }

  method MixIn(v0: Word, v1: Word, v2: Word, v3: Word, word: Word)
    returns (w0: Word, w1: Word, w2: Word, w3: Word)
    ensures State(w0, w1, w2, w3) == Compress(State(v0, v1, v2, v3), word)
  {
    hide Rotl, Add, Xor, SipRound;
    w0, w1, w2, w3 := v0, v1, v2, Xor(v3, word);
    w0, w1, w2, w3 := ManyRounds(w0, w1, w2, w3, 2);
    w0 := Xor(w0, word);
  }

  function Put(x: Byte, shift: Word): Word
    requires shift < 64
  {
    (x as Word) << shift
  }

  function Or(x: Word, y: Word): Word {
    x | y
  }

  /** b with byte i of the message, if there is one. */
  function With(b: Word, m: seq<Byte>, i: nat, shift: Word): Word
    requires shift < 64
  {
    if i < |m| then Or(b, Put(m[i], shift)) else b
  }

  /** A byte that is missing counts as null. */
  lemma {:induction false} WithPadded(b: Word, m: seq<Byte>, i: nat, x: Byte, shift: Word)
    requires shift < 64 && x == if i < |m| then m[i] else 0
    ensures With(b, m, i, shift) == Or(b, Put(x, shift))
  {
    hide Or, Put;
    NullAddsNothing(b, shift);
  }

  lemma {:induction false} NullAddsNothing(b: Word, shift: Word)
    requires shift < 64
    ensures Or(b, Put(0, shift)) == b
  {
  }

  lemma {:induction false} Turned(a: Word, b: Word, c: Word, d: Word, e: Word, f: Word, g: Word, h: Word)
    ensures a | b | c | d | e | f | g | h == Or(Or(Or(Or(Or(Or(Or(h, g), f), e), d), c), b), a)
  {
  }

  lemma {:induction false} FromTheTop(p: seq<Byte>)
    requires |p| == 8
    ensures LittleEndian(p)
         == Or(Or(Or(Or(Or(Or(Or(Put(p[7], 56), Put(p[6], 48)), Put(p[5], 40)), Put(p[4], 32)), Put(p[3], 24)),
                     Put(p[2], 16)), Put(p[1], 8)), Put(p[0], 0))
  {
    assert Put(p[0], 0) == p[0] as Word;
    Turned(Put(p[0], 0), Put(p[1], 8), Put(p[2], 16), Put(p[3], 24),
           Put(p[4], 32), Put(p[5], 40), Put(p[6], 48), Put(p[7], 56));
    hide Or;
  }

  /** What is left of the message, padded. */
  function Tail(m: seq<Byte>, at: nat): (p: seq<Byte>)
    requires at <= |m| < at + 8
    ensures |p| == 8 && p[7] == LengthByte(|m|)
    ensures forall j: nat :: j < 7 ==> p[j] == if at + j < |m| then m[at + j] else 0
  {
    m[at..] + Zeros(7 - (|m| - at)) + [LengthByte(|m|)]
  }

  /** The switch that falls through, from the last byte to the first. */
  method LastWord(m: seq<Byte>, at: nat) returns (b: Word)
    requires at <= |m| < at + 8
    ensures b == LittleEndian(m[at..] + Zeros(7 - (|m| - at)) + [LengthByte(|m|)])
  {
    ghost var p := Tail(m, at);
    assert p == m[at..] + Zeros(7 - (|m| - at)) + [LengthByte(|m|)];
    hide LengthByte, Zeros, LittleEndian, Put, Or, Tail, With;
    b := Put(LengthByte(|m|), 56);
    WithPadded(b, m, at + 6, p[6], 48);
    b := With(b, m, at + 6, 48);
    WithPadded(b, m, at + 5, p[5], 40);
    b := With(b, m, at + 5, 40);
    WithPadded(b, m, at + 4, p[4], 32);
    b := With(b, m, at + 4, 32);
    WithPadded(b, m, at + 3, p[3], 24);
    b := With(b, m, at + 3, 24);
    WithPadded(b, m, at + 2, p[2], 16);
    b := With(b, m, at + 2, 16);
    WithPadded(b, m, at + 1, p[1], 8);
    b := With(b, m, at + 1, 8);
    WithPadded(b, m, at, p[0], 0);
    b := With(b, m, at, 0);
    FromTheTop(p);
  }

  /** The words of the padded message but the last are those of the message. */
  lemma {:induction false} PaddedWords(m: seq<Byte>, i: nat)
    requires 8 * i + 8 <= |m|
    ensures Padded(m)[8 * i..8 * i + 8] == m[8 * i..8 * i + 8]
  {
  }

  lemma {:induction false} PaddedLast(m: seq<Byte>)
    ensures Padded(m)[8 * (|m| / 8)..8 * (|m| / 8) + 8] == m[8 * (|m| / 8)..] + Zeros(7 - |m| % 8) + [LengthByte(|m|)]
  {
  }

  function ToBytes(v: Word): (b: seq<Byte>)
    ensures |b| == 8
  {
    [(v & 0xff) as Byte, ((v >> 8) & 0xff) as Byte, ((v >> 16) & 0xff) as Byte, ((v >> 24) & 0xff) as Byte,
     ((v >> 32) & 0xff) as Byte, ((v >> 40) & 0xff) as Byte, ((v >> 48) & 0xff) as Byte, ((v >> 56) & 0xff) as Byte]
  }

  /** What is stored little-endian is loaded again. */
  lemma {:induction false} BytesOfWord(v: Word)
    ensures LittleEndian(ToBytes(v)) == v
  {
  }

  /** The loop over whole words, the tail and the final rounds compute the
      definition, for every length of the message. */
  method Siphash(m: seq<Byte>, key: seq<Byte>) returns (out: seq<Byte>)
    requires |key| == 16
    ensures |out| == 8 && LittleEndian(out) == SipHash24(key, m)
  {
    hide Rotl, Add, Xor, LittleEndian, ToBytes, SipRound, Compress, Padded;
    var v0, v1, v2, v3: Word := 0x736f6d6570736575, 0x646f72616e646f6d, 0x6c7967656e657261, 0x7465646279746573;
    var k0, k1 := LittleEndian(key[..8]), LittleEndian(key[8..]);
    var end := |m| - |m| % 8;
    v3 := Xor(v3, k1);
    v2 := Xor(v2, k0);
    v1 := Xor(v1, k1);
    v0 := Xor(v0, k0);
    ghost var start, n := State(v0, v1, v2, v3), 0;
    var at := 0;
    while at != end
      invariant at == 8 * n <= end
      invariant State(v0, v1, v2, v3) == Compressed(start, Padded(m), n)
    {
      var word := LittleEndian(m[at..at + 8]);
      PaddedWords(m, n);
      v0, v1, v2, v3 := MixIn(v0, v1, v2, v3, word);
      at, n := at + 8, n + 1;
    }
    var b := LastWord(m, at);
    PaddedLast(m);
    v0, v1, v2, v3 := MixIn(v0, v1, v2, v3, b);
    assert State(v0, v1, v2, v3) == Compressed(start, Padded(m), n + 1);
    v2 := Xor(v2, 0xff);
    v0, v1, v2, v3 := ManyRounds(v0, v1, v2, v3, 4);
    var hash := Xor(Xor(Xor(v0, v1), v2), v3);
    BytesOfWord(hash);
    return ToBytes(hash);
  }

  // ------------------------------------------ the test vector of appendix A

  lemma {:induction false} FirstWordMixedIn()
    ensures Compress(State(0x7469686173716475, 0x6b617f6d656e6665, 0x6b7f62616d677361, 0x7b6b696e727e6c7b),
                     0x0706050403020100)
         == State(0x4a017198de0a59e0, 0x0d52f6f62a4f59a4, 0x634cb3577b01fd3d, 0xa5224d6f55c7d9c8)
  {
    var s := State(0x7469686173716475, 0x6b617f6d656e6665, 0x6b7f62616d677361, 0x7c6d6c6a717c6d7b);
    var t := State(0x64668a929363847f, 0x4ed232083d9aa8dc, 0xf2f74892d8141a2e, 0x9290f9810552f4a8);
    assert SipRound(s) == t;
    assert SipRound(t) == State(0x4d07749cdd0858e0, 0x0d52f6f62a4f59a4, 0x634cb3577b01fd3d, 0xa5224d6f55c7d9c8);
    assert Rounds(s, 1) == t;
  }

  lemma {:induction false} SecondWordMixedIn()
    ensures Compress(State(0x4a017198de0a59e0, 0x0d52f6f62a4f59a4, 0x634cb3577b01fd3d, 0xa5224d6f55c7d9c8),
                     0x0f0e0d0c0b0a0908)
         == State(0x3c85b3ab6f55be51, 0x414fc3fb98efe374, 0xccf13ea527b9f4bd, 0x5293f5da84008f82)
  {
    var s := State(0x4a017198de0a59e0, 0x0d52f6f62a4f59a4, 0x634cb3577b01fd3d, 0xaa2c40635ecdd0c0);
    var t := State(0x557560fb6063d060, 0x4c8e675bd961133e, 0xbd3d002b1703a181, 0xfb9441179a4a7315);
    assert SipRound(s) == t;
    assert SipRound(t) == State(0x338bbea7645fb759, 0x414fc3fb98efe374, 0xccf13ea527b9f4bd, 0x5293f5da84008f82);
    assert Rounds(s, 1) == t;
  }

  lemma {:induction false} LastRounds()
    ensures Finalized(State(0x3c85b3ab6f55be51, 0x414fc3fb98efe374, 0xccf13ea527b9f4bd, 0x5293f5da84008f82))
         == 0xa129ca6149be45e5
  {
    var s := State(0x3c85b3ab6f55be51, 0x414fc3fb98efe374, 0xccf13ea527b9f442, 0x5293f5da84008f82);
    var t := State(0xf2a55244a20e48fe, 0xac5ad16ccc3ca6e4, 0x9fe5adb0a52f393a, 0xfd41d55e88f30308);
    var u := State(0xb6c3fbdecc2ae4b4, 0x1638c86adc6b3cf0, 0x28b8b6ab62553d46, 0xc9465e86ec43eb95);
    var v := State(0x58101b167209a5e6, 0xf8792ae75b66e7dd, 0x1da14c3ec7f0b4f7, 0x7624ba8a41bc4ad9);
    assert SipRound(s) == t;
    assert SipRound(t) == u;
    assert SipRound(u) == v;
    assert SipRound(v) == State(0xf6bcd53893fecff1, 0x54b9964c7ea0d937, 0x1b38329c099bb55a, 0x1814bb89ad7be679);
    assert Rounds(s, 1) == t;
    assert Rounds(s, 2) == u;
    assert Rounds(s, 3) == v;
  }

  lemma {:induction false} WordsOfCounting()
    ensures LittleEndian([0, 1, 2, 3, 4, 5, 6, 7]) == 0x0706050403020100
    ensures LittleEndian([8, 9, 10, 11, 12, 13, 14, 15]) == 0x0f0e0d0c0b0a0908
  {
  }

  lemma {:induction false} FifteenPadded(m: seq<Byte>)
    requires |m| == 15
    ensures Padded(m) == m + [15]
  {
    hide LengthByte;
    LengthFifteen();
  }

  lemma {:induction false} LengthFifteen()
    ensures LengthByte(15) == 15
  {
  }

  lemma {:induction false} TwoWords(start: State, p: seq<Byte>)
    requires |p| == 16
    ensures Compressed(start, p, 2)
         == Compress(Compress(start, LittleEndian(p[..8])), LittleEndian(p[8..]))
  {
    hide Compress, LittleEndian;
    assert p[0..8] == p[..8] && p[8..16] == p[8..];
    assert Compressed(start, p, 1) == Compress(start, WordAt(p, 0));
  }

  /** Fifteen bytes, hashed under a key of sixteen, all counting up from 0. */
  lemma {:induction false} TestVector()
    ensures SipHash24([0, 1, 2, 3, 4, 5, 6, 7, 8, 9, 10, 11, 12, 13, 14, 15],
                      [0, 1, 2, 3, 4, 5, 6, 7, 8, 9, 10, 11, 12, 13, 14]) == 0xa129ca6149be45e5
  {
    var key: seq<Byte> := [0, 1, 2, 3, 4, 5, 6, 7, 8, 9, 10, 11, 12, 13, 14, 15];
    var m: seq<Byte> := [0, 1, 2, 3, 4, 5, 6, 7, 8, 9, 10, 11, 12, 13, 14];
    hide LittleEndian, Compress, Compressed, Finalized, Padded;
    FifteenPadded(m);
    assert m + [15] == key;
    assert key[..8] == [0, 1, 2, 3, 4, 5, 6, 7] && key[8..] == [8, 9, 10, 11, 12, 13, 14, 15];
    WordsOfCounting();
    TwoWords(Initial(LittleEndian(key[..8]), LittleEndian(key[8..])), key);
    FirstWordMixedIn();
    SecondWordMixedIn();
    LastRounds();
  }

  // --------------------------------------------------- the filter's functions

  function SameKey(k: Byte): (key: seq<Byte>)
    ensures |key| == 16
  {
    seq(16, _ => k)
  }

  function StrHash(str: seq<Byte>, k: Byte): Word {
    SipHash24(SameKey(k), str)
  }

  method StrBloomHash(str: seq<Byte>, k: Byte) returns (hash: Word)
    ensures hash == StrHash(str, k)
  {
    hide SipHash24, LittleEndian;
    var out := Siphash(str, SameKey(k));
    hash := LittleEndian(out);
  }

  /** The key of hash function k is sixteen times the byte k. */
  lemma {:induction false} KeyIsFunctionNumber(str: seq<Byte>, k: Byte, key: seq<Byte>)
    requires |key| == 16 && forall i :: 0 <= i < 16 ==> key[i] == k
    ensures StrHash(str, k) == SipHash24(key, str)
  {
    hide SipHash24;
    assert key == SameKey(k);
  }

  datatype CollectionRef = CollectionRef(collection: seq<Byte>, ref: seq<Byte>)

  method CollectionRefBloomHash(element: CollectionRef, k: Byte) returns (hash: Word)
    ensures hash == StrHash(element.collection, k) ^ StrHash(element.ref, k)
  {
    hide StrHash;
    var collection := StrBloomHash(element.collection, k);
    var ref := StrBloomHash(element.ref, k);
    hash := Xor(collection, ref);
  }
}
