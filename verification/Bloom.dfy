// A Bloom filter over a byte array: bits are only ever set, until it is sealed.

module Bloom {
  import opened Common

  /** Hash number i of an element. */
  type HashFunc<!Element> = (Element, nat) -> Word

  // -------------------------------------------------------------------- bits

  function Bit(byte: Byte, j: nat): bool
    requires j < 8
  {
    byte & (1 << j) != 0
  }

  function WithBit(byte: Byte, j: nat): Byte
    requires j < 8
  {
    byte | (1 << j)
  }

  lemma {:induction false} BitOfWithBit(byte: Byte, j: nat, i: nat)
    requires j < 8 && i < 8
    ensures Bit(WithBit(byte, j), i) <==> i == j || Bit(byte, i)
  {
    assert i == 0 || i == 1 || i == 2 || i == 3 || i == 4 || i == 5 || i == 6 || i == 7;
    assert j == 0 || j == 1 || j == 2 || j == 3 || j == 4 || j == 5 || j == 6 || j == 7;
  }

  predicate BitAt(bytes: seq<Byte>, idx: nat)
    requires idx < 8 * |bytes|
  {
    Bit(bytes[idx / 8], idx % 8)
  }

  /** The bits that are set, by number. */
  function BitsOf(bytes: seq<Byte>): set<nat> {
    set idx: nat | idx < 8 * |bytes| && BitAt(bytes, idx)
  }

  lemma {:induction false} BitMasks(byte: Byte, j: nat)
    requires j < 8
    ensures Bit(byte, j) <==> byte & [1, 2, 4, 8, 16, 32, 64, 128][j] != 0
  {
    assert j == 0 || j == 1 || j == 2 || j == 3 || j == 4 || j == 5 || j == 6 || j == 7;
  }

  /** The bits are numbered byte by byte, and from the lowest up in each. */
  lemma {:induction false} NumberedFromLowest(bytes: seq<Byte>, idx: nat)
    requires idx < 8 * |bytes|
    ensures idx in BitsOf(bytes) <==> bytes[idx / 8] & [1, 2, 4, 8, 16, 32, 64, 128][idx % 8] != 0
  {
    hide Bit;
    BitMasks(bytes[idx / 8], idx % 8);
  }

  lemma {:induction false} SettingOneBit(bytes: seq<Byte>, idx: nat)
    requires idx < 8 * |bytes|
    ensures BitsOf(bytes[idx / 8 := WithBit(bytes[idx / 8], idx % 8)]) == BitsOf(bytes) + {idx}
  {
    hide Bit, WithBit;
    var after := bytes[idx / 8 := WithBit(bytes[idx / 8], idx % 8)];
    forall i: nat | i < 8 * |bytes| ensures BitAt(after, i) <==> i == idx || BitAt(bytes, i) {
      BitOfWithBit(bytes[idx / 8], idx % 8, i % 8);
    }
  }

  lemma {:induction false} ZerosHaveNoBits(bytes: seq<Byte>)
    requires forall i :: 0 <= i < |bytes| ==> bytes[i] == 0
    ensures BitsOf(bytes) == {}
  {
    forall idx: nat | idx < 8 * |bytes| ensures !BitAt(bytes, idx) {
      assert bytes[idx / 8] == 0;
      ZeroHasNoBit(idx % 8);
    }
  }

  lemma {:induction false} ZeroHasNoBit(j: nat)
    requires j < 8
    ensures !Bit(0, j)
  {
    assert j == 0 || j == 1 || j == 2 || j == 3 || j == 4 || j == 5 || j == 6 || j == 7;
  }

  // ----------------------------------------------------------------- elements

  function IndexOf<Element>(hash: HashFunc<Element>, nBytes: nat, element: Element, i: nat): (idx: nat)
    requires nBytes > 0
    ensures idx < 8 * nBytes
  {
    (hash(element, i) as nat) % (8 * nBytes)
  }

  /** The bits of the array are used in turn, over and over. */
  lemma {:induction false} IndexWraps<Element>(hash: HashFunc<Element>, nBytes: nat, element: Element, i: nat,
                                               times: nat, idx: nat)
    requires idx < 8 * nBytes && hash(element, i) as nat == 8 * nBytes * times + idx
    ensures IndexOf(hash, nBytes, element, i) == idx
  {
    OneRemainder(8 * nBytes, times, idx);
  }

  lemma {:induction false} OneRemainder(n: nat, q: nat, r: nat)
    requires r < n
    ensures (n * q + r) % n == r
  {
    var x := n * q + r;
    assert n * (q - x / n) == n * q - n * (x / n);
    if q != x / n {
      MultiplesAreFar(n, q - x / n);
    }
  }

  lemma {:induction false} MultiplesAreFar(n: int, d: int)
    requires n > 0 && d != 0
    ensures n * d >= n || n * d <= -n
  {
    if d > 0 {
      ProductNotNegative(n, d - 1);
      assert n * d == n * (d - 1) + n;
    } else {
      ProductNotNegative(n, -d - 1);
      assert n * d == -(n * (-d - 1)) - n;
    }
  }

  lemma {:induction false} ProductNotNegative(n: nat, d: nat)
    ensures n * d >= 0
  {
  }

  /** The bits an element stands for under the first k hash functions. */
  function BitsFor<Element>(hash: HashFunc<Element>, k: nat, nBytes: nat, element: Element): set<nat>
    requires nBytes > 0
  {
    set i: nat | i < k :: IndexOf(hash, nBytes, element, i)
  }

  /** The bits set once all these elements have been added. */
  function BitsAfter<Element>(hash: HashFunc<Element>, k: nat, nBytes: nat, before: set<nat>, added: seq<Element>)
    : set<nat>
    requires nBytes > 0
  {
    if added == [] then before
    else BitsAfter(hash, k, nBytes, before, added[..|added|-1]) + BitsFor(hash, k, nBytes, added[|added|-1])
  }

  // ---------------------------------------------------------- implementation

  class Bloom<Element> {
    const nBytes: nat
    const k: nat
    const hash: HashFunc<Element>
    var isMutable: bool
    var mutableBytes: array<Byte>
    var immutableBytes: seq<Byte>

    /** The bits there were at the start, and the elements added since. */
    ghost const loaded: set<nat>
    ghost var added: seq<Element>

    constructor (nBytes: nat, k: nat, hash: HashFunc<Element>)
      requires nBytes > 0 && 0 < k < 256
      ensures Valid() && isMutable && fresh(mutableBytes)
      ensures this.nBytes == nBytes && this.k == k && this.hash == hash
      ensures Bits() == {} && loaded == {} && added == []
    {
      this.nBytes, this.k, this.hash, isMutable := nBytes, k, hash, true;
      var zeros := new Byte[nBytes](_ => 0);
      mutableBytes := zeros;
      immutableBytes := [];
      loaded, added := {}, [];
      ZerosHaveNoBits(zeros[..]);
    }

    constructor FromBytes(bytes: seq<Byte>, k: nat, hash: HashFunc<Element>)
      requires |bytes| > 0 && 0 < k < 256
      ensures Valid() && !isMutable && Bytes() == bytes
      ensures this.nBytes == |bytes| && this.k == k && this.hash == hash
      ensures loaded == BitsOf(bytes) && added == []
    {
      nBytes, this.k, this.hash, isMutable := |bytes|, k, hash, false;
      mutableBytes := new Byte[0];
      immutableBytes := bytes;
      loaded, added := BitsOf(bytes), [];
    }

    ghost predicate Valid()
      reads this, mutableBytes
    {
      && nBytes > 0 && 0 < k < 256
      && |Bytes()| == nBytes
      && Bits() == BitsAfter(hash, k, nBytes, loaded, added)
    }

    ghost function Bytes(): seq<Byte>
      reads this, mutableBytes
    {
      if isMutable then mutableBytes[..] else immutableBytes
    }

    ghost function Bits(): set<nat>
      reads this, mutableBytes
    {
      BitsOf(Bytes())
    }

    method GetBit(idx: nat) returns (bit: bool)
      requires |Bytes()| == nBytes && idx < 8 * nBytes
      ensures bit <==> idx in Bits()
    {
      if isMutable {
        bit := Bit(mutableBytes[idx / 8], idx % 8);
      } else {
        bit := Bit(immutableBytes[idx / 8], idx % 8);
      }
      assert bit <==> BitAt(Bytes(), idx);
    }

    method SetBit(idx: nat)
      requires isMutable && |Bytes()| == nBytes && idx < 8 * nBytes
      modifies mutableBytes
      ensures |Bytes()| == nBytes && Bits() == old(Bits()) + {idx}
    {
      SettingOneBit(mutableBytes[..], idx);
      mutableBytes[idx / 8] := WithBit(mutableBytes[idx / 8], idx % 8);
      assert mutableBytes[..] == old(mutableBytes[..])[idx / 8 := WithBit(old(mutableBytes[idx / 8]), idx % 8)];
    }

    /** Adding to a sealed filter is refused and changes nothing. */
    method AddElement(element: Element)
      requires Valid()
      modifies this`added, mutableBytes
      ensures Valid()
      ensures added == if isMutable then old(added) + [element] else old(added)
      ensures Bits() == if isMutable then old(Bits()) + BitsFor(hash, k, nBytes, element) else old(Bits())
      ensures !isMutable ==> Bytes() == old(Bytes())
    {
      if !isMutable {
        return;
      }
      SetBits(element);
      OneMoreElement(hash, k, nBytes, loaded, added, element);
      added := added + [element];
    }

    method SetBits(element: Element)
      requires isMutable && |Bytes()| == nBytes && nBytes > 0
      modifies mutableBytes
      ensures |Bytes()| == nBytes && Bits() == old(Bits()) + BitsFor(hash, k, nBytes, element)
    {
      ghost var before := Bits();
      for i := 0 to k
        invariant |Bytes()| == nBytes
        invariant Bits() == before + BitsFor(hash, i, nBytes, element)
      {
        SetBit(IndexOf(hash, nBytes, element, i));
        OneMoreBit(hash, i, nBytes, element, before);
      }
    }

    /** True unless some bit of the element is not set. */
    method MaybeContains(element: Element) returns (maybe: bool)
      requires Valid()
      ensures maybe <==> BitsFor(hash, k, nBytes, element) <= Bits()
      ensures element in added ==> maybe
    {
      AddedIsKept(hash, k, nBytes, loaded, added, element);
      for i := 0 to k
        invariant BitsFor(hash, i, nBytes, element) <= Bits()
      {
        var bit := GetBit(IndexOf(hash, nBytes, element, i));
        OneMoreHash(hash, i, nBytes, element);
        if !bit {
          assert IndexOf(hash, nBytes, element, i) in BitsFor(hash, k, nBytes, element);
          return false;
        }
      }
      return true;
    }

    /** Sealing again returns the same bytes. */
    method Seal() returns (bytes: seq<Byte>)
      requires Valid()
      modifies this`isMutable, this`immutableBytes
      ensures Valid() && !isMutable
      ensures bytes == Bytes() == old(Bytes()) && BitsOf(bytes) == BitsAfter(hash, k, nBytes, loaded, added)
    {
      if isMutable {
        isMutable := false;
        immutableBytes := mutableBytes[..];
      }
      return immutableBytes;
    }
  }

  lemma {:induction false} OneMoreHash<Element>(hash: HashFunc<Element>, i: nat, nBytes: nat, element: Element)
    requires nBytes > 0
    ensures BitsFor(hash, i + 1, nBytes, element)
         == BitsFor(hash, i, nBytes, element) + {IndexOf(hash, nBytes, element, i)}
  {
  }

  lemma {:induction false} OneMoreBit<Element>(hash: HashFunc<Element>, i: nat, nBytes: nat, element: Element,
                                               before: set<nat>)
    requires nBytes > 0
    ensures before + BitsFor(hash, i + 1, nBytes, element)
         == (before + BitsFor(hash, i, nBytes, element)) + {IndexOf(hash, nBytes, element, i)}
  {
    OneMoreHash(hash, i, nBytes, element);
  }

  lemma {:induction false} OneMoreElement<Element>(hash: HashFunc<Element>, k: nat, nBytes: nat, before: set<nat>,
                                                   added: seq<Element>, element: Element)
    requires nBytes > 0
    ensures BitsAfter(hash, k, nBytes, before, added + [element])
         == BitsAfter(hash, k, nBytes, before, added) + BitsFor(hash, k, nBytes, element)
  {
    assert (added + [element])[..|added|] == added;
  }

  // -------------------------------------------------------- what it remembers

  /** Bits are only ever added: what has been added stays, whatever else is. */
  lemma {:induction false} AddedIsKept<Element>(hash: HashFunc<Element>, k: nat, nBytes: nat, before: set<nat>,
                                                added: seq<Element>, element: Element)
    requires nBytes > 0
    ensures before <= BitsAfter(hash, k, nBytes, before, added)
    ensures element in added ==> BitsFor(hash, k, nBytes, element) <= BitsAfter(hash, k, nBytes, before, added)
  {
    if added != [] {
      AddedIsKept(hash, k, nBytes, before, added[..|added|-1], element);
    }
  }

  lemma {:induction false} BitComesFromSomewhere<Element>(hash: HashFunc<Element>, k: nat, nBytes: nat,
                                                          before: set<nat>, added: seq<Element>, idx: nat)
    requires nBytes > 0
    ensures idx in BitsAfter(hash, k, nBytes, before, added) <==>
              idx in before || exists a :: a in added && idx in BitsFor(hash, k, nBytes, a)
  {
    if added != [] {
      BitComesFromSomewhere(hash, k, nBytes, before, added[..|added|-1], idx);
    }
  }

  /** Some added element has this bit too. */
  ghost predicate Covered<Element>(hash: HashFunc<Element>, k: nat, nBytes: nat, added: seq<Element>, idx: nat)
    requires nBytes > 0
  {
    exists a, j: nat :: a in added && j < k && IndexOf(hash, nBytes, a, j) == idx
  }

  /** A new filter says that it may contain an element exactly if each of the
      element's bits is also one of some added element. */
  lemma {:induction false} PositiveIffCovered<Element>(hash: HashFunc<Element>, k: nat, nBytes: nat,
                                                       added: seq<Element>, element: Element)
    requires nBytes > 0
    ensures BitsFor(hash, k, nBytes, element) <= BitsAfter(hash, k, nBytes, {}, added) <==>
              forall i: nat :: i < k ==> Covered(hash, k, nBytes, added, IndexOf(hash, nBytes, element, i))
  {
    var bits := BitsAfter(hash, k, nBytes, {}, added);
    if BitsFor(hash, k, nBytes, element) <= bits {
      forall i: nat | i < k ensures Covered(hash, k, nBytes, added, IndexOf(hash, nBytes, element, i)) {
        var idx := IndexOf(hash, nBytes, element, i);
        assert idx in BitsFor(hash, k, nBytes, element);
        BitComesFromSomewhere(hash, k, nBytes, {}, added, idx);
        var a :| a in added && idx in BitsFor(hash, k, nBytes, a);
        var j: nat :| j < k && IndexOf(hash, nBytes, a, j) == idx;
      }
    } else {
      var idx :| idx in BitsFor(hash, k, nBytes, element) && idx !in bits;
      BitComesFromSomewhere(hash, k, nBytes, {}, added, idx);
      var i: nat :| i < k && IndexOf(hash, nBytes, element, i) == idx;
      forall a, j: nat | a in added && j < k ensures IndexOf(hash, nBytes, a, j) != idx {
        assert IndexOf(hash, nBytes, a, j) in BitsFor(hash, k, nBytes, a);
      }
    }
  }

  /** Loaded again from the bytes it was sealed to, a filter answers as before:
      yes to all it was given, and to others exactly if they are covered. */
  lemma {:induction false} ReloadRemembers<Element>(hash: HashFunc<Element>, k: nat, bytes: seq<Byte>,
                                                    added: seq<Element>, element: Element)
    requires |bytes| > 0 && BitsOf(bytes) == BitsAfter(hash, k, |bytes|, {}, added)
    ensures element in added ==> BitsFor(hash, k, |bytes|, element) <= BitsOf(bytes)
    ensures BitsFor(hash, k, |bytes|, element) <= BitsOf(bytes) <==>
              forall i: nat :: i < k ==> Covered(hash, k, |bytes|, added, IndexOf(hash, |bytes|, element, i))
  {
    AddedIsKept(hash, k, |bytes|, {}, added, element);
    PositiveIffCovered(hash, k, |bytes|, added, element);
  }
}
