/**
  The Bloom filter (lib/b_bloomfilter.c), over an allocated bitset of 64-bit words.

  A key's indices come from its two Murmur hashes with the wrap-around, the truncated
  remainder and the absolute value of the C expression.  The filter's set bits are exactly the
  indices of the keys added, so every added key is reported present, as long as `get_bit`, which
  casts the word number to int, finds the word that `set_bit` wrote.  That is so exactly when the
  filter has at most 2^37 bits: every larger filter has a key that it does not find.
*/
module BloomFilter {

  import Murmur

  type Key = seq<Murmur.byte>

  const TWO_TO_63 := 0x8000_0000_0000_0000
  const TWO_TO_64 := 0x1_0000_0000_0000_0000

  // ----- the indices of a key

  /** The value of a 64-bit result in a signed 64-bit variable. */
  function Wrap64(x: int): (r: int)
    ensures -TWO_TO_63 <= r < TWO_TO_63
  {
    (x + TWO_TO_63) % TWO_TO_64 - TWO_TO_63
  }

  /** The conversion to a 32-bit int. */
  function ToInt(x: int): (r: int)
    ensures -0x8000_0000 <= r < 0x8000_0000
  {
    (x + 0x8000_0000) % 0x1_0000_0000 - 0x8000_0000
  }

  function Abs(x: int): nat { if x < 0 then -x else x }

  /** The % operator of C, whose remainder has the sign of the dividend. */
  function Remainder(x: int, y: int): (r: int)
    requires y > 0
    ensures Abs(r) < y && Abs(r) <= Abs(x)
  {
    ModAtMost(Abs(x), y);
    if x >= 0 then x % y else -((-x) % y)
  }

  lemma ModAtMost(x: nat, y: nat)
    requires y > 0
    ensures x % y <= x && x % y < y
  {
    assert x == y * (x / y) + x % y;
  }

  /** The index of the `i`th hash function. */
  function Index(h: Murmur.State, bits: int, i: nat): nat
    requires bits > 0
  {
    Abs(Remainder(SumOf(h, i), bits))
  }

  /** Every index is a bit of the filter, also when the wrapped sum is negative. */
  lemma IndexInRange(h: Murmur.State, bits: int, i: nat)
    requires bits > 0
    ensures Index(h, bits, i) < bits
  {
  }

  // ----- the indices are those of double hashing

  /** `s` is h1 + i * h2 in 64 bits, signed. */
  predicate Summed(h: Murmur.State, i: nat, s: int)
  {
    -TWO_TO_63 <= s < TWO_TO_63 && (s - (h.h1 as int + i * (h.h2 as int))) % TWO_TO_64 == 0
  }

  /** `j` is the bit that a sum stands for, in a filter of that many bits. */
  predicate Reduced(s: int, bits: int, j: nat)
    requires bits > 0
  {
    j < bits && (if s >= 0 then j - s else j + s) % bits == 0
  }

  lemma Multiple(k: int, m: int)
    requires m > 0
    ensures k * m % m == 0
  {
    var q, r := k * m / m, k * m % m;
    assert k * m == m * q + r;
    assert r == (k - q) * m;
    SmallMultiple(k - q, m, r);
  }

  lemma Divided(x: int, m: int) returns (k: int)
    requires m > 0 && x % m == 0
    ensures x == k * m
  {
    k := x / m;
  }

  lemma Wrapped(x: int) returns (k: int)
    ensures Wrap64(x) == x + k * TWO_TO_64
  {
    k := -((x + TWO_TO_63) / TWO_TO_64);
  }

  /** The sum that the C expression makes of the two hashes. */
  function SumOf(h: Murmur.State, i: nat): int
  {
    Wrap64(Wrap64(h.h1 as int) + Wrap64(i * Wrap64(h.h2 as int)))
  }

  lemma SumIsSummed(h: Murmur.State, i: nat)
    ensures Summed(h, i, SumOf(h, i))
  {
    var x, y := h.h1 as int, h.h2 as int;
    var a := Wrapped(x);
    var b := Wrapped(y);
    var c := Wrapped(i * Wrap64(y));
    var d := Wrapped(Wrap64(x) + Wrap64(i * Wrap64(y)));
    hide Wrap64;
    Spread(i, y, b);
    Multiple(a + i * b + c + d, TWO_TO_64);
    assert SumOf(h, i) - (x + i * y) == (a + i * b + c + d) * TWO_TO_64;
  }

  lemma Spread(i: nat, y: int, b: int)
    ensures i * (y + b * TWO_TO_64) == i * y + i * b * TWO_TO_64
  {
  }

  lemma OneSum(h: Murmur.State, i: nat, s: int, t: int)
    requires Summed(h, i, s) && Summed(h, i, t)
    ensures s == t
  {
    var x := h.h1 as int + i * (h.h2 as int);
    var k := Divided(s - x, TWO_TO_64);
    var l := Divided(t - x, TWO_TO_64);
    assert s - t == (k - l) * TWO_TO_64;
  }

  /** Sums that follow each other differ by the second hash. */
  lemma SumsInStep(h: Murmur.State, i: nat, s: int, t: int)
    requires Summed(h, i, s) && Summed(h, i + 1, t)
    ensures (t - s - h.h2 as int) % TWO_TO_64 == 0
  {
    var x, y := h.h1 as int, h.h2 as int;
    var k := Divided(s - (x + i * y), TWO_TO_64);
    var l := Divided(t - (x + (i + 1) * y), TWO_TO_64);
    assert (i + 1) * y == i * y + y;
    assert t - s - y == (l - k) * TWO_TO_64;
    Multiple(l - k, TWO_TO_64);
  }

  lemma RemainderIsReduced(s: int, bits: int, j: nat)
    requires bits > 0
    ensures j == Abs(Remainder(s, bits)) <==> Reduced(s, bits, j)
  {
    var m: nat := Abs(s);
    var q, r := m / bits, m % bits;
    assert m == q * bits + r;
    assert Abs(Remainder(s, bits)) == r;
    if Reduced(s, bits, j) {
      var k := Divided(j - m, bits);
      assert (q + k) * bits == q * bits + k * bits;
      SmallMultiple(q + k, bits, j - r);
    }
    if j == r {
      assert j - m == -q * bits;
      Multiple(-q, bits);
    }
  }

  lemma SmallMultiple(k: int, m: int, x: int)
    requires m > 0 && x == k * m && -m < x < m
    ensures x == 0
  {
  }

  /** The bit of the `i`th hash function, without the wrap-arounds and the remainder of the C expression. */
  lemma IndexExactly(h: Murmur.State, bits: int, i: nat, j: nat)
    requires bits > 0
    ensures j == Index(h, bits, i) <==> exists s :: Summed(h, i, s) && Reduced(s, bits, j)
  {
    hide Summed, Reduced;
    SumIsSummed(h, i);
    RemainderIsReduced(SumOf(h, i), bits, j);
    if s :| Summed(h, i, s) && Reduced(s, bits, j) {
      OneSum(h, i, s, SumOf(h, i));
    }
  }

  /** The first `n` indices of a hash. */
  function FirstIndices(h: Murmur.State, bits: int, n: nat): set<nat>
    requires bits > 0
  {
    set i: nat | i < n :: Index(h, bits, i)
  }

  lemma NextIndex(h: Murmur.State, bits: int, n: nat)
    requires bits > 0
    ensures FirstIndices(h, bits, n + 1) == FirstIndices(h, bits, n) + {Index(h, bits, n)}
  {
  }

  lemma NoIndex(h: Murmur.State, bits: int)
    requires bits > 0
    ensures FirstIndices(h, bits, 0) == {}
  {
  }

  /** The indices of a key. */
  function Indices(key: Key, bits: int, hashes: nat): set<nat>
    requires bits > 0 && |key| < 0x8000_0000
  {
    FirstIndices(Murmur.Hash(key, 0), bits, hashes)
  }

  // ----- the bits of a word

  predicate Has(word: bv64, bit: bv6) { word & ((1 as bv64) << bit) != 0 }

  function With(word: bv64, bit: bv6): bv64 { word | ((1 as bv64) << bit) }

  /** The place of bit `i` of the filter in its word. */
  function Place(i: nat): bv6 { (i % 64) as bv6 }

  predicate BitOf(word: bv64, i: nat) { Has(word, Place(i)) }

  lemma MaskBits(word: bv64, a: bv6, b: bv6)
    requires a != b
    ensures (word | ((1 as bv64) << a)) & ((1 as bv64) << b) == word & ((1 as bv64) << b)
  {
  }

  lemma WithSetsIts(word: bv64, a: bv6)
    ensures Has(With(word, a), a)
  {
  }

  lemma WithKeepsOthers(word: bv64, a: bv6, b: bv6)
    requires a != b
    ensures Has(With(word, a), b) == Has(word, b)
  {
    MaskBits(word, a, b);
    assert Has(word | ((1 as bv64) << a), b) == Has(word, b);
  }

  lemma PlaceInjective(i: nat, j: nat)
    requires Place(i) == Place(j)
    ensures i % 64 == j % 64
  {
    BitNumber(i % 64);
    BitNumber(j % 64);
  }

  lemma BitNumber(n: nat)
    requires n < 64
    ensures (n as bv6) as nat == n
  {
  }

  /** Bit `i` is the one of weight 2^(i mod 64). */
  lemma BitIsShifted(word: bv64, i: nat)
    ensures BitOf(word, i) <==> (word >> Place(i)) & 1 == 1
    ensures Place(i) as nat == i % 64
  {
    hide Has, Place;
    ShiftedDown(word, Place(i));
    PlaceIs(i);
  }

  lemma ShiftedDown(word: bv64, b: bv6)
    ensures Has(word, b) <==> (word >> b) & 1 == 1
  {
  }

  lemma PlaceIs(i: nat)
    ensures Place(i) as nat == i % 64
  {
    BitNumber(i % 64);
  }

  /** Setting bit `i` in its word changes no other bit. */
  lemma BitSet(word: bv64, i: nat, j: nat)
    ensures BitOf(With(word, Place(i)), i)
    ensures i % 64 != j % 64 ==> BitOf(With(word, Place(i)), j) == BitOf(word, j)
  {
    hide Has, With, Place;
    WithSetsIts(word, Place(i));
    if Place(i) == Place(j) {
      PlaceInjective(i, j);
    } else {
      WithKeepsOthers(word, Place(i), Place(j));
    }
  }

  // ----- where get_bit looks

  /** The word number that get_bit computes is the right one exactly below 2^37. */
  lemma CastKeepsWord(i: nat)
    ensures ToInt(i / 64) == i / 64 <==> i < 0x20_0000_0000
  {
  }

  /** It is the right one for every bit of a filter exactly if the filter has at most 2^37 bits. */
  lemma CastKeepsEveryWord(bits: nat)
    ensures (forall i: nat :: i < bits ==> ToInt(i / 64) == i / 64) <==> bits <= 0x20_0000_0000
  {
    hide ToInt;
    forall i: nat ensures ToInt(i / 64) == i / 64 <==> i < 0x20_0000_0000 {
      CastKeepsWord(i);
    }
    if bits > 0x20_0000_0000 {
      var i: nat := 0x20_0000_0000;
      assert ToInt(i / 64) != i / 64;
    }
  }

  /** The first bit beyond is looked up at a negative word number. */
  lemma CastTurnsNegative()
    ensures ToInt(0x20_0000_0000 / 64) < 0
  {
  }

  datatype Lookup = Clear | Set | OutOfBounds

  /** What bk_bloomfilter_is_present returns: -1, 0 or 1, or a read outside the bitset. */
  datatype Presence = Failed | Absent | Present | Crashed

  /** What get_bit finds for a bit of a filter of that many words. */
  function Seen(setBits: set<nat>, words: nat, idx: nat): Lookup
  {
    var word := ToInt(idx / 64);
    if word >= words then Clear
    else if word < 0 then OutOfBounds
    else if 64 * word + idx % 64 in setBits then Set
    else Clear
  }

  /** What the loop over the hash functions answers from the `n`th on: the first bit not set decides. */
  function Answer(setBits: set<nat>, h: Murmur.State, bits: nat, hashes: nat, n: nat): Presence
    requires bits > 0
    decreases hashes - n
  {
    if n >= hashes then Present
    else
      match Seen(setBits, Words(bits), Index(h, bits, n))
      case OutOfBounds => Crashed
      case Clear => Absent
      case Set => Answer(setBits, h, bits, hashes, n + 1)
  }

  function Words(bits: nat): nat
    requires bits > 0
  {
    (bits - 1) / 64 + 1
  }

  /** What bk_bloomfilter_is_present answers for a key. */
  function Found(setBits: set<nat>, key: Key, bits: nat, hashes: nat): Presence
    requires bits > 0 && |key| < 0x8000_0000
  {
    Answer(setBits, Murmur.Hash(key, 0), bits, hashes, 0)
  }

  lemma SeenBelow(setBits: set<nat>, bits: nat, idx: nat)
    requires 0 < bits <= 0x20_0000_0000 && idx < bits
    ensures Seen(setBits, Words(bits), idx) == if idx in setBits then Set else Clear
  {
    CastKeepsWord(idx);
    assert 64 * (idx / 64) + idx % 64 == idx;
  }

  /** Up to 2^37 bits the answer is whether all indices are set. */
  lemma {:induction false} AnswerIsAll(setBits: set<nat>, h: Murmur.State, bits: nat, hashes: nat, n: nat)
    requires 0 < bits <= 0x20_0000_0000
    ensures Answer(setBits, h, bits, hashes, n)
      == if forall i :: n <= i < hashes ==> Index(h, bits, i) in setBits then Present else Absent
    decreases hashes - n
  {
    hide Index, Seen;
    if n < hashes {
      IndexInRange(h, bits, n);
      SeenBelow(setBits, bits, Index(h, bits, n));
      AnswerIsAll(setBits, h, bits, hashes, n + 1);
    }
  }

  /** The bits that are set after these keys were added. */
  function AllIndices(added: set<Key>, bits: nat, hashes: nat): set<nat>
    requires bits > 0 && forall k :: k in added ==> |k| < 0x8000_0000
  {
    set k, i: nat | k in added && i < hashes :: Index(Murmur.Hash(k, 0), bits, i)
  }

  /** The key whose first index is 2^37, in any filter with more bits than that. */
  function MissedKey(): (key: Key)
    ensures |key| == 16
  {
    Murmur.KeyOf(Murmur.State(0x20_0000_0000, 0), 0)
  }

  lemma MissedKeyCrashes(setBits: set<nat>, bits: nat, hashes: nat)
    requires bits > 0x20_0000_0000 && hashes >= 1
    ensures Found(setBits, MissedKey(), bits, hashes) == Crashed
  {
    var h := Murmur.State(0x20_0000_0000, 0);
    Murmur.Onto(h, 0);
    hide Murmur.Hash, Murmur.KeyOf;
    FirstIndex(bits);
    CastTurnsNegative();
    hide Index, ToInt;
    assert Seen(setBits, Words(bits), 0x20_0000_0000) == OutOfBounds;
  }

  lemma FirstIndex(bits: nat)
    requires bits > 0x20_0000_0000
    ensures Index(Murmur.State(0x20_0000_0000, 0), bits, 0) == 0x20_0000_0000
  {
    assert (0x20_0000_0000 as bv64) as int == 0x20_0000_0000;
  }

  /** Some number of hash functions and bits at which every key is found in every filter that it was added to. */
  ghost predicate FindsAllAdded(bits: nat, hashes: nat)
    requires bits > 0
  {
    forall added: set<Key>, key: Key ::
      (forall k :: k in added ==> 0 < |k| < 0x8000_0000) && key in added ==>
        Found(AllIndices(added, bits, hashes), key, bits, hashes) == Present
  }

  /** Every added key is always reported present exactly if the filter has at most 2^37 bits. */
  lemma FindsAllExactly(bits: nat, hashes: nat)
    requires bits > 0 && hashes > 0
    ensures FindsAllAdded(bits, hashes) <==> bits <= 0x20_0000_0000
  {
    hide Murmur.Hash, Index, Found;
    if bits <= 0x20_0000_0000 {
      forall added: set<Key>, key: Key | (forall k :: k in added ==> 0 < |k| < 0x8000_0000) && key in added
        ensures Found(AllIndices(added, bits, hashes), key, bits, hashes) == Present
      {
        AddedIsFound(added, key, bits, hashes);
      }
    } else {
      MissedKeyCrashes(AllIndices({MissedKey()}, bits, hashes), bits, hashes);
      assert MissedKey() in {MissedKey()};
    }
  }

  lemma AddedIsFound(added: set<Key>, key: Key, bits: nat, hashes: nat)
    requires 0 < bits <= 0x20_0000_0000 && (forall k :: k in added ==> |k| < 0x8000_0000) && key in added
    ensures Found(AllIndices(added, bits, hashes), key, bits, hashes) == Present
  {
    hide Murmur.Hash, Index, Answer;
    AnswerIsAll(AllIndices(added, bits, hashes), Murmur.Hash(key, 0), bits, hashes, 0);
  }

  class Filter {
    const hashCount: nat
    const bits: nat
    const words: nat
    const bitset: array<bv64>
    const writable: bool
    ghost var added: set<Key>

    /** The bits that are set. */
    ghost function SetBits(): set<nat>
      reads bitset
    {
      set i: nat | i < 64 * bitset.Length && BitOf(bitset[i / 64], i)
    }

    /** The set bits are exactly the indices of the keys added. */
    ghost predicate Valid()
      reads this, bitset
    {
      && hashCount >= 1 && bits >= 1 && words == (bits - 1) / 64 + 1 && bitset.Length == words
      && (forall k :: k in added ==> |k| < 0x8000_0000)
      && (forall i :: i in SetBits() <==> exists k :: k in added && i in Indices(k, bits, hashCount))
    }

    constructor (hashes: nat, bits: nat, writable: bool)
      requires hashes >= 1 && bits >= 1
      ensures Valid() && added == {} && fresh(bitset)
      ensures this.hashCount == hashes && this.bits == bits && this.writable == writable
    {
      hashCount := hashes;
      this.bits := bits;
      words := (bits - 1) / 64 + 1;
      this.writable := writable;
      bitset := new bv64[(bits - 1) / 64 + 1](_ => 0);
      added := {};
      new;
      forall i: nat | i < 64 * bitset.Length ensures !BitOf(bitset[i / 64], i) {
        NoBit(i);
      }
    }

    /** bk_bloomfilter_create without a file: NULL for invalid parameters. */
    static method Create(hashes: int, bits: int, writable: bool) returns (f: Filter?)
      ensures f == null <==> hashes < 1 || bits < 1
      ensures f != null ==> fresh(f) && f.Valid() && f.added == {} && fresh(f.bitset)
      ensures f != null ==> f.hashCount == hashes && f.bits == bits && f.writable == writable
    {
      if hashes < 1 || bits < 1 {
        return null;
      }
      f := new Filter(hashes, bits, writable);
    }

    /** set_bit. */
    method SetBit(idx: nat)
      requires bitset.Length == words
      modifies bitset
      ensures SetBits() == old(SetBits()) + if idx / 64 < words then {idx} else {}
    {
      hide BitOf, With, Place;
      var word := idx / 64;
      if word >= words {
        return;
      }
      ghost var was := bitset[..];
      bitset[word] := With(bitset[word], Place(idx));
      forall j: nat | j < 64 * words ensures BitOf(bitset[j / 64], j) <==> j == idx || BitOf(was[j / 64], j) {
        BitSet(was[word], idx, j);
        if j / 64 == word && j % 64 == idx % 64 {
          assert j == idx;
        }
      }
    }

    /** get_bit. */
    method GetBit(idx: nat) returns (r: Lookup)
      requires bitset.Length == words
      ensures r == Seen(SetBits(), words, idx)
    {
      hide BitOf;
      var word := ToInt(idx / 64);
      if word >= words {
        return Clear;
      }
      if word < 0 {
        return OutOfBounds;
      }
      SamePlace(bitset[word], idx, 64 * word + idx % 64);
      r := if BitOf(bitset[word], idx) then Set else Clear;
    }

    /** bk_bloomfilter_add. */
    method Add(key: Key) returns (ok: bool)
      requires Valid() && |key| < 0x8000_0000
      modifies this, bitset
      ensures Valid() && ok == (key != [] && writable)
      ensures added == if ok then old(added) + {key} else old(added)
      ensures SetBits() == old(SetBits()) + if ok then Indices(key, bits, hashCount) else {}
    {
      hide FirstIndices, Index, Murmur.Hash, SetBits;
      if |key| == 0 || !writable {
        return false;
      }
      var h1, h2 := Murmur.X64Hash128(key, 0);
      var h := Murmur.State(h1, h2);
      assert FirstIndices(h, bits, 0) == {} by { NoIndex(h, bits); }
      for i := 0 to hashCount
        invariant bitset.Length == words && words == (bits - 1) / 64 + 1 && bits >= 1
        invariant SetBits() == old(SetBits()) + FirstIndices(h, bits, i)
        invariant added == old(added)
      {
        IndexInRange(h, bits, i);
        NextIndex(h, bits, i);
        SetBit(Index(h, bits, i));
      }
      added := added + {key};
      return true;
    }

    /** bk_bloomfilter_is_present, for filters of any size. */
    method IsPresent(key: Key) returns (r: Presence)
      requires Valid() && |key| < 0x8000_0000
      ensures r == if key == [] then Failed else Found(SetBits(), key, bits, hashCount)
      ensures bits <= 0x20_0000_0000 && key != [] ==>
        (r == if Indices(key, bits, hashCount) <= SetBits() then Present else Absent)
      ensures bits <= 0x20_0000_0000 && key != [] && key in added ==> r == Present
    {
      hide Index, Seen, Murmur.Hash, SetBits;
      if |key| == 0 {
        return Failed;
      }
      var h1, h2 := Murmur.X64Hash128(key, 0);
      var h := Murmur.State(h1, h2);
      if bits <= 0x20_0000_0000 {
        AnswerIsAll(SetBits(), h, bits, hashCount, 0);
        AllInFirst(h, bits, hashCount, SetBits());
      }
      for i := 0 to hashCount
        invariant Answer(SetBits(), h, bits, hashCount, i) == Found(SetBits(), key, bits, hashCount)
      {
        var bit := GetBit(Index(h, bits, i));
        if bit == OutOfBounds {
          return Crashed;
        }
        if bit == Clear {
          return Absent;
        }
      }
      return Present;
    }
  }

  lemma AllInFirst(h: Murmur.State, bits: nat, hashes: nat, setBits: set<nat>)
    requires bits > 0
    ensures FirstIndices(h, bits, hashes) <= setBits <==> forall i :: 0 <= i < hashes ==> Index(h, bits, i) in setBits
  {
    hide Index;
    forall i: nat | i < hashes ensures Index(h, bits, i) in FirstIndices(h, bits, hashes) {
    }
  }

  /** A key added to any filter of more than 2^37 bits, which then reads outside its bitset to look for it. */
  method AddedNotFound(hashes: nat, bits: nat) returns (f: Filter, r: Presence)
    requires hashes > 0 && bits > 0x20_0000_0000
    ensures fresh(f) && f.Valid() && f.hashCount == hashes && f.bits == bits && f.added == {MissedKey()}
    ensures r == Crashed
  {
    hide MissedKey, Found, Indices, Index, Murmur.Hash, Murmur.KeyOf, Filter.SetBits;
    f := new Filter(hashes, bits, true);
    var key := MissedKey();
    MissedKeyLength();
    var ok := f.Add(key);
    r := f.IsPresent(key);
    MissedKeyCrashes(f.SetBits(), bits, hashes);
  }

  /** A key whose two hashes are 1, added to an empty filter of three hash functions. */
  method AddedBits(bits: nat) returns (f: Filter)
    requires bits > 3
    ensures fresh(f) && f.Valid() && f.hashCount == 3 && f.bits == bits
    ensures f.added == {Murmur.KeyOf(Murmur.State(1, 1), 0)}
    ensures f.SetBits() == {1, 2, 3}
  {
    hide Indices, Index, Murmur.Hash, Murmur.KeyOf, Filter.SetBits;
    f := new Filter(3, bits, true);
    assert f.SetBits() == {} by { NothingAdded(f); }
    var key := Murmur.KeyOf(Murmur.State(1, 1), 0);
    ThreeIndices(bits);
    var ok := f.Add(key);
  }

  lemma NothingAdded(f: Filter)
    requires f.Valid() && f.added == {}
    ensures f.SetBits() == {}
  {
    hide Filter.SetBits, Indices;
    forall i ensures i !in f.SetBits() {
    }
  }

  lemma ThreeIndices(bits: nat)
    requires bits > 3
    ensures var key := Murmur.KeyOf(Murmur.State(1, 1), 0);
      |key| == 16 && Indices(key, bits, 3) == {1, 2, 3}
  {
    var h := Murmur.State(1, 1);
    Murmur.Onto(h, 0);
    hide Murmur.Hash, Murmur.KeyOf;
    hide Index;
    SmallIndex(bits, 0);
    SmallIndex(bits, 1);
    SmallIndex(bits, 2);
    NoIndex(h, bits);
    NextIndex(h, bits, 0);
    NextIndex(h, bits, 1);
    NextIndex(h, bits, 2);
  }

  lemma SmallIndex(bits: nat, i: nat)
    requires bits > 3 && i < 3
    ensures Index(Murmur.State(1, 1), bits, i) == i + 1
  {
    assert (1 as bv64) as int == 1;
    assert SumOf(Murmur.State(1, 1), i) == i + 1;
    hide SumOf;
    assert (i + 1) % bits == i + 1;
  }

  lemma MissedKeyLength()
    ensures |MissedKey()| == 16
  {
  }

  lemma SamePlace(word: bv64, i: nat, j: nat)
    requires i % 64 == j % 64
    ensures BitOf(word, i) == BitOf(word, j)
  {
    hide Has;
  }

  lemma NoBit(i: nat)
    ensures !BitOf(0, i)
  {
  }
}
