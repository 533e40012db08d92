/**
  The Internet checksum over a vector of buffers (lib/b_cksum.c).

  `InCksum` is the routine as written for a little-endian machine: it reads 16-bit words where
  the address is even, folds carries only now and then, and handles three kinds of odd byte (a
  word spanning two buffers, an odd start address, an odd last byte).  `RfcChecksum` is the
  definition in sections 1 and 2 of RFC 1071.  They agree however the data is cut into buffers
  and wherever the buffers start, as long as the `int` accumulator does not overflow, and
  65027 is exactly the largest length for which it never does.
*/
module Checksum {

  newtype byte = b: int | 0 <= b < 256

  const INT_MAX := 0x7fff_ffff

  /** One element of the vector: whether its address is odd, and its bytes. */
  datatype Buffer = Buffer(odd: bool, bytes: seq<byte>)

  /** The bytes before the terminator, which is the end of the vector or an empty buffer. */
  function Available(m: seq<Buffer>): seq<byte>
  {
    if m == [] || m[0].bytes == [] then [] else m[0].bytes + Available(m[1..])
  }

  function Min(a: nat, b: nat): nat { if a < b then a else b }

  // ----- the definition of RFC 1071

  /** 16-bit one's-complement addition: the carry out is added back in. */
  function OnesAdd(x: nat, y: nat): nat
  {
    if x + y > 0xffff then x + y - 0xffff else x + y
  }

  /** The one's-complement sum of the big-endian 16-bit words, an odd last byte zero-padded. */
  function OnesSum(data: seq<byte>): (s: nat)
    ensures s <= 0xffff
  {
    if data == [] then 0
    else if |data| == 1 then 256 * (data[0] as nat)
    else OnesAdd(256 * (data[0] as nat) + data[1] as nat, OnesSum(data[2..]))
  }

  function Swap(x: nat): nat
    requires x <= 0xffff
  {
    256 * (x % 256) + x / 256
  }

  /** The checksum as the number a little-endian machine stores to put its two bytes in order. */
  function RfcChecksum(data: seq<byte>): nat
  {
    Swap(0xffff - OnesSum(data))
  }

  /** The example of section 3 of RFC 1071. */
  lemma RfcExample()
    ensures OnesSum([0x00, 0x01, 0xf2, 0x03, 0xf4, 0xf5, 0xf6, 0xf7]) == 0xddf2
    ensures RfcChecksum([0x00, 0x01, 0xf2, 0x03, 0xf4, 0xf5, 0xf6, 0xf7]) == 0x0d22
  {
    assert OnesSum([0xf6, 0xf7]) == 0xf6f7;
    assert OnesSum([0xf4, 0xf5, 0xf6, 0xf7]) == 0xebed;
    assert OnesSum([0xf2, 0x03, 0xf4, 0xf5, 0xf6, 0xf7]) == 0xddf1;
  }

  // ----- what one buffer does to the accumulator

  /** The accumulator between two buffers.  `saved` is the first byte of an unfinished word. */
  datatype Acc = Acc(sum: nat, pending: bool, saved: byte, peak: nat)
  {
    /** A new value of the accumulator, remembered if it is the largest so far. */
    function To(sum: nat): Acc { this.(sum := sum, peak := if sum > peak then sum else peak) }

    /** REDUCE: add the two 16-bit halves of the accumulator, and the carry of that. */
    function Reduced(): Acc { this.(sum := Reduce(sum)) }

    /** REDUCE, then shift left by a byte. */
    function Shifted(): Acc { Reduced().To(256 * Reduce(sum)) }
  }

  function Reduce(sum: nat): (r: nat)
    ensures r <= 0xffff
  {
    var folded := sum % 0x1_0000 + sum / 0x1_0000 % 0x1_0000;
    if folded > 0xffff then folded - 0xffff else folded
  }

  /** The sum of the little-endian 16-bit words numbered `from` to `to`. */
  function Words(b: seq<byte>, from: nat, to: nat): nat
    requires from <= to && 2 * to <= |b|
  {
    if from == to then 0
    else Words(b, from, to - 1) + b[2 * to - 2] as nat + 256 * (b[2 * to - 1] as nat)
  }

  /** The words that the unrolled loops add, eight bytes at a time at the least. */
  function AddUnrolled(a: Acc, b: seq<byte>): Acc
  {
    a.To(a.sum + Words(b, 0, 4 * (|b| / 8)))
  }

  /** The words that are left, after a REDUCE. */
  function AddRest(a: Acc, b: seq<byte>): Acc
  {
    var r := a.Reduced();
    r.To(r.sum + Words(b, 4 * (|b| / 8), |b| / 2))
  }

  /** A buffer, or what is left of it after a spanning word, that starts at an even address. */
  function AddEven(a: Acc, b: seq<byte>): Acc
  {
    var w := AddUnrolled(a, b);
    if |b| % 8 == 0 then w.(pending := false)
    else
      var r := AddRest(w, b);
      if |b| % 2 == 0 then r.(pending := false)
      else r.(pending := true, saved := b[|b| - 1])
  }

  /** The words of a buffer at an odd address, before they are shifted back. */
  function OddWords(a: Acc, words: seq<byte>): Acc
  {
    AddRest(AddUnrolled(a.Shifted(), words), words)
  }

  /** The same from an odd address: everything is shifted by a byte, then shifted back. */
  function AddOdd(a: Acc, b: seq<byte>): Acc
    requires b != []
  {
    var first, words := b[0], b[1..];
    var back := OddWords(a, words).Shifted();
    if |words| % 2 == 0 then back.(pending := true, saved := first)
    else back.To(back.sum + first as nat + 256 * (words[|words| - 1] as nat)).(pending := false)
  }

  /** The accumulator after the first byte of a buffer has completed a pending word. */
  function Completed(a: Acc, b: byte): Acc
  {
    if a.pending then a.To(a.sum + a.saved as nat + 256 * (b as nat)).(pending := false) else a
  }

  function AddBuffer(a: Acc, b: Buffer, take: nat): Acc
    requires 0 < take <= |b.bytes|
  {
    var s := Completed(a, b.bytes[0]);
    var rest := if a.pending then b.bytes[1..take] else b.bytes[..take];
    if b.odd != a.pending && rest != [] then AddOdd(s, rest) else AddEven(s, rest)
  }

  function AddBuffers(a: Acc, m: seq<Buffer>, len: nat): Acc
    decreases |m|
  {
    if m == [] || len == 0 || m[0].bytes == [] then a
    else
      var take := Min(len, |m[0].bytes|);
      AddBuffers(AddBuffer(a, m[0], take), m[1..], len - take)
  }

  const START := Acc(0, false, 0, 0)

  /** The accumulator after the last odd byte, before the last REDUCE. */
  function Total(m: seq<Buffer>, len: nat): Acc
  {
    var a := AddBuffers(START, m, len);
    if a.pending then a.To(a.sum + a.saved as nat) else a
  }

  function Cksum(m: seq<Buffer>, len: nat): nat
  {
    0xffff - Reduce(Total(m, len).sum)
  }

  // ----- arithmetic modulo 65535

  /** Equal as one's-complement sums: congruent modulo 65535, and zero together. */
  predicate Same(x: nat, y: nat)
  {
    x % 0xffff == y % 0xffff && (x == 0 <==> y == 0)
  }

  lemma SameSelf(x: nat)
    ensures Same(x, x)
  {
  }

  lemma SameChain(x: nat, y: nat, z: nat)
    requires Same(x, y) && Same(y, z)
    ensures Same(x, z)
  {
  }

  lemma ModMultiple(a: int, q: int)
    ensures (a + 0xffff * q) % 0xffff == a % 0xffff
  {
  }

  lemma SameSum(x: nat, y: nat, k: nat, l: nat)
    requires Same(x, y) && Same(k, l)
    ensures Same(x + k, y + l)
  {
    var q := x / 0xffff - y / 0xffff + k / 0xffff - l / 0xffff;
    assert x + k == y + l + 0xffff * q;
    ModMultiple(y + l, q);
  }

  lemma SameShifted(x: nat, y: nat)
    requires Same(x, y)
    ensures Same(256 * x, 256 * y)
  {
    var q := x / 0xffff - y / 0xffff;
    assert 256 * x == 256 * y + 0xffff * (256 * q);
    ModMultiple(256 * y, 256 * q);
  }

  lemma SwapTwice(x: nat)
    ensures Same(256 * (256 * x), x)
  {
  }

  lemma ReduceKeeps(x: nat)
    requires x < 0x1_0000_0000
    ensures Reduce(x) <= 0xffff && Reduce(x) <= x && Same(Reduce(x), x)
  {
  }

  lemma SameIsEqual(x: nat, y: nat)
    requires Same(x, y) && x <= 0xffff && y <= 0xffff
    ensures x == y
  {
  }

  /** The bytes weighted 1 and 256 in turn; `high` says which weight comes first. */
  function Value(b: seq<byte>, high: bool): nat
  {
    if b == [] then 0 else (if high then 256 * (b[0] as nat) else b[0] as nat) + Value(b[1..], !high)
  }

  lemma {:induction false} ValueConcat(x: seq<byte>, y: seq<byte>, high: bool)
    ensures Value(x + y, high) == Value(x, high) + Value(y, high != (|x| % 2 == 1))
  {
    if x == [] {
      assert x + y == y;
    } else {
      assert (x + y)[1..] == x[1..] + y;
      ValueConcat(x[1..], y, !high);
    }
  }

  /** Section 2 (B) of RFC 1071: shifting the sum by a byte swaps the bytes of every word. */
  lemma {:induction false} ValueSwapped(b: seq<byte>, high: bool)
    ensures Same(256 * Value(b, high), Value(b, !high))
  {
    if b != [] {
      var v := b[0] as nat;
      ValueSwapped(b[1..], !high);
      SwapTwice(v);
      SameSum(256 * (if high then 256 * v else v), if high then v else 256 * v,
                  256 * Value(b[1..], !high), Value(b[1..], high));
    }
  }

  lemma {:induction false} WordsTogether(b: seq<byte>, from: nat, mid: nat, to: nat)
    requires from <= mid <= to && 2 * to <= |b|
    ensures Words(b, from, mid) + Words(b, mid, to) == Words(b, from, to)
  {
    if mid < to {
      WordsTogether(b, from, mid, to - 1);
    }
  }

  lemma {:induction false} WordsBounded(b: seq<byte>, from: nat, to: nat)
    requires from <= to && 2 * to <= |b|
    ensures Words(b, from, to) <= 0xffff * (to - from)
  {
    if from < to {
      WordsBounded(b, from, to - 1);
    }
  }

  lemma ValueOfWord(b: seq<byte>)
    ensures |b| == 2 ==> Value(b, false) == b[0] as nat + 256 * (b[1] as nat)
    ensures |b| == 1 ==> Value(b, false) == b[0] as nat
  {
    if |b| == 2 {
      assert Value(b[1..][1..], false) == 0;
    } else if |b| == 1 {
      assert Value(b[1..], true) == 0;
    }
  }

  lemma {:induction false} WordsAreValue(b: seq<byte>, n: nat)
    requires 2 * n <= |b|
    ensures Words(b, 0, n) == Value(b[..2 * n], false)
  {
    if n > 0 {
      var word := b[2 * n - 2..2 * n];
      assert b[..2 * n] == b[..2 * n - 2] + word;
      assert |b[..2 * n - 2]| == 2 * (n - 1);
      ValueConcat(b[..2 * n - 2], word, false);
      ValueOfWord(word);
      WordsAreValue(b, n - 1);
    }
  }

  /** The last byte if it starts a word. */
  function OddByte(b: seq<byte>): nat { if |b| % 2 == 1 then b[|b| - 1] as nat else 0 }

  /** All the words, and the last byte if their number is odd. */
  lemma ValueOfWords(b: seq<byte>)
    ensures Value(b, false) == Words(b, 0, |b| / 2) + OddByte(b)
  {
    hide Words, Value;
    var n := |b| / 2;
    WordsAreValue(b, n);
    if |b| % 2 == 1 {
      var last := [b[|b| - 1]];
      assert b == b[..2 * n] + last;
      ValueConcat(b[..2 * n], last, false);
      ValueOfWord(last);
    } else {
      assert b == b[..2 * n];
    }
  }

  lemma {:induction false} OnesSumIsValue(data: seq<byte>)
    ensures Same(OnesSum(data), Value(data, true))
  {
    if |data| == 1 {
      assert Value(data[1..], false) == 0;
    } else if |data| >= 2 {
      OnesSumIsValue(data[2..]);
      assert data[1..][1..] == data[2..];
      var w := 256 * (data[0] as nat) + data[1] as nat;
      SameSum(OnesSum(data[2..]), Value(data[2..], true), w, w);
      OnesAddSame(w, OnesSum(data[2..]));
    }
  }

  lemma OnesAddSame(x: nat, y: nat)
    requires x <= 0xffff && y <= 0xffff
    ensures Same(OnesAdd(x, y), x + y)
  {
  }

  // ----- the routine computes the RFC 1071 checksum

  /** What the accumulator stands for, with the unfinished word zero-padded. */
  function Held(a: Acc): nat
  {
    if a.pending then a.sum + a.saved as nat else a.sum
  }

  /** AddUnrolled and AddRest together add all the words. */
  lemma WordsAdded(a: Acc, b: seq<byte>)
    requires AddUnrolled(a, b).sum <= INT_MAX
    ensures Same(AddRest(AddUnrolled(a, b), b).sum, a.sum + Words(b, 0, |b| / 2))
  {
    hide Words, Reduce, Same;
    var k := 4 * (|b| / 8);
    WordsTogether(b, 0, k, |b| / 2);
    var w, rest := AddUnrolled(a, b), Words(b, k, |b| / 2);
    ReduceKeeps(w.sum);
    SameSelf(rest);
    SameSum(Reduce(w.sum), w.sum, rest, rest);
  }

  lemma EvenAdded(a: Acc, b: seq<byte>)
    requires !a.pending && a.sum <= a.peak && AddEven(a, b).peak <= INT_MAX
    ensures Same(Held(AddEven(a, b)), a.sum + Value(b, false))
    ensures AddEven(a, b).pending == (|b| % 2 == 1)
  {
    hide Words, Value, Reduce, Same;
    ValueOfWords(b);
    if |b| % 8 == 0 {
      SameSelf(a.sum + Value(b, false));
    } else {
      WordsAdded(a, b);
      var last := OddByte(b);
      SameSelf(last);
      SameSum(AddRest(AddUnrolled(a, b), b).sum, a.sum + Words(b, 0, |b| / 2), last, last);
    }
  }

  lemma OddPeaks(a: Acc, b: seq<byte>)
    requires b != [] && AddOdd(a, b).peak <= INT_MAX
    ensures AddUnrolled(a.Shifted(), b[1..]).sum <= INT_MAX && OddWords(a, b[1..]).sum <= INT_MAX
  {
  }

  lemma OddWordsAdded(a: Acc, words: seq<byte>)
    requires AddUnrolled(a.Shifted(), words).sum <= INT_MAX && a.sum <= INT_MAX
    requires OddWords(a, words).sum <= INT_MAX
    ensures Same(256 * Reduce(OddWords(a, words).sum) + 256 * OddByte(words), a.sum + Value(words, true))
  {
    hide Words, Value, Reduce, Same, AddRest, AddUnrolled;
    var total := OddWords(a, words).sum;
    ReduceKeeps(a.sum);
    ReduceKeeps(total);
    WordsAdded(a.Shifted(), words);
    SameChain(Reduce(total), total, 256 * Reduce(a.sum) + Words(words, 0, |words| / 2));
    ShiftedTwice(a.sum, Reduce(a.sum), Reduce(total), words);
  }

  lemma OddHeld(a: Acc, b: seq<byte>)
    requires b != [] && !a.pending
    ensures Held(AddOdd(a, b)) == 256 * Reduce(OddWords(a, b[1..]).sum) + 256 * OddByte(b[1..]) + b[0] as nat
    ensures AddOdd(a, b).pending == (|b| % 2 == 1)
  {
    hide Reduce, OddWords;
  }

  lemma OddAdded(a: Acc, b: seq<byte>)
    requires b != [] && !a.pending && a.sum <= INT_MAX && AddOdd(a, b).peak <= INT_MAX
    ensures Same(Held(AddOdd(a, b)), a.sum + Value(b, false))
    ensures AddOdd(a, b).pending == (|b| % 2 == 1)
  {
    hide Value, Reduce, Same, OddWords, OddByte, AddOdd, Held;
    var words, first := b[1..], b[0] as nat;
    OddPeaks(a, b);
    OddWordsAdded(a, words);
    SameSelf(first);
    SameSum(256 * Reduce(OddWords(a, words).sum) + 256 * OddByte(words), a.sum + Value(words, true), first, first);
    FirstByte(b);
    OddHeld(a, b);
  }

  lemma FirstByte(b: seq<byte>)
    requires b != []
    ensures Value(b, false) == b[0] as nat + Value(b[1..], true)
  {
  }

  /** Shifting twice by a byte brings the old sum back, and swaps the new words. */
  lemma ShiftedTwice(sum: nat, reduced: nat, total: nat, words: seq<byte>)
    requires Same(reduced, sum) && Same(total, 256 * reduced + Words(words, 0, |words| / 2))
    ensures Same(256 * total + 256 * OddByte(words), sum + Value(words, true))
  {
    hide Words, Value, Same, OddByte;
    var last := OddByte(words);
    var added := Words(words, 0, |words| / 2);
    SameShifted(total, 256 * reduced + added);
    SwapTwice(reduced);
    SameChain(256 * (256 * reduced), reduced, sum);
    ValueOfWords(words);
    ValueSwapped(words, false);
    SameSum(256 * (256 * reduced), sum, 256 * Value(words, false), Value(words, true));
    SameSelf(256 * last);
    SameSum(256 * total, 256 * (256 * reduced + added), 256 * last, 256 * last);
    SameChain(256 * total + 256 * last, 256 * (256 * reduced) + 256 * Value(words, false), sum + Value(words, true));
  }

  /** The accumulator never loses track of its largest value. */
  lemma PeakGrows(a: Acc, b: seq<byte>)
    ensures a.peak <= AddEven(a, b).peak && AddEven(a, b).sum <= AddEven(a, b).peak
    ensures b != [] ==> a.peak <= AddOdd(a, b).peak && AddOdd(a, b).sum <= AddOdd(a, b).peak
  {
    hide Words, Reduce;
  }

  /** What holds between two buffers, when the bytes `done` have been added. */
  ghost predicate Good(a: Acc, done: seq<byte>)
  {
    Same(Held(a), Value(done, false)) && a.pending == (|done| % 2 == 1) && a.sum <= a.peak
  }

  lemma CompletedGood(a: Acc, done: seq<byte>, b: byte)
    requires Good(a, done) && a.pending
    ensures Good(Completed(a, b), done + [b])
  {
    hide Value, Same;
    var k := 256 * (b as nat);
    ValueConcat(done, [b], false);
    assert Value([b], true) == k by { ValueOfHighByte([b]); }
    SameSelf(k);
    SameSum(Held(a), Value(done, false), k, k);
  }

  lemma ValueOfHighByte(b: seq<byte>)
    requires |b| == 1
    ensures Value(b, true) == 256 * (b[0] as nat)
  {
  }

  /** What one step adds to an accumulator without a pending byte. */
  lemma RestAdded(s: Acc, done: seq<byte>, rest: seq<byte>, t: Acc)
    requires Good(s, done) && !s.pending && s.peak <= t.peak && t.sum <= t.peak
    requires Same(Held(t), s.sum + Value(rest, false)) && t.pending == (|rest| % 2 == 1)
    ensures Good(t, done + rest)
  {
    hide Value, Same;
    ValueConcat(done, rest, false);
    SameSelf(Value(rest, false));
    SameSum(s.sum, Value(done, false), Value(rest, false), Value(rest, false));
    SameChain(Held(t), s.sum + Value(rest, false), Value(done + rest, false));
  }

  lemma BufferAdded(a: Acc, b: Buffer, take: nat, done: seq<byte>)
    requires 0 < take <= |b.bytes| && Good(a, done) && AddBuffer(a, b, take).peak <= INT_MAX
    ensures Good(AddBuffer(a, b, take), done + b.bytes[..take])
  {
    hide Good, Same, Value, AddOdd, AddEven, Held, Completed;
    var s := Completed(a, b.bytes[0]);
    var rest := if a.pending then b.bytes[1..take] else b.bytes[..take];
    var done' := if a.pending then done + [b.bytes[0]] else done;
    assert Good(s, done') && !s.pending && s.sum <= s.peak by { CompletedIsGood(a, b.bytes[0], done); }
    assert done + b.bytes[..take] == done' + rest;
    PeakGrows(s, rest);
    var t := AddBuffer(a, b, take);
    if b.odd != a.pending && rest != [] {
      OddAdded(s, rest);
    } else {
      EvenAdded(s, rest);
    }
    RestAdded(s, done', rest, t);
  }

  lemma CompletedIsGood(a: Acc, b: byte, done: seq<byte>)
    requires Good(a, done)
    ensures !Completed(a, b).pending && Completed(a, b).sum <= Completed(a, b).peak
    ensures Good(Completed(a, b), if a.pending then done + [b] else done)
  {
    if a.pending {
      CompletedGood(a, done, b);
    }
  }

  function Prefix(data: seq<byte>, len: nat): seq<byte>
  {
    data[..Min(len, |data|)]
  }

  lemma {:induction false} BuffersAdded(a: Acc, m: seq<Buffer>, len: nat, done: seq<byte>)
    requires Good(a, done) && AddBuffers(a, m, len).peak <= INT_MAX
    ensures Good(AddBuffers(a, m, len), done + Prefix(Available(m), len))
    decreases |m|
  {
    hide Good, AddBuffer;
    if m == [] || len == 0 || m[0].bytes == [] {
      assert done + Prefix(Available(m), len) == done;
    } else {
      var take := Min(len, |m[0].bytes|);
      var next := AddBuffer(a, m[0], take);
      BuffersPeak(next, m[1..], len - take);
      BufferAdded(a, m[0], take, done);
      BuffersAdded(next, m[1..], len - take, done + m[0].bytes[..take]);
      assert Prefix(Available(m), len) == m[0].bytes[..take] + Prefix(Available(m[1..]), len - take);
      assert done + m[0].bytes[..take] + Prefix(Available(m[1..]), len - take)
          == done + Prefix(Available(m), len);
    }
  }

  lemma {:induction false} BuffersPeak(a: Acc, m: seq<Buffer>, len: nat)
    ensures a.peak <= AddBuffers(a, m, len).peak
    decreases |m|
  {
    if m != [] && len != 0 && m[0].bytes != [] {
      var take := Min(len, |m[0].bytes|);
      BufferPeak(a, m[0], take);
      BuffersPeak(AddBuffer(a, m[0], take), m[1..], len - take);
    }
  }

  lemma BufferPeak(a: Acc, b: Buffer, take: nat)
    requires 0 < take <= |b.bytes|
    ensures a.peak <= AddBuffer(a, b, take).peak
  {
    hide AddEven, AddOdd;
    var s := Completed(a, b.bytes[0]);
    PeakGrows(s, if a.pending then b.bytes[1..take] else b.bytes[..take]);
  }

  lemma CksumNormal(x: nat, y: nat)
    requires Same(x, y) && x < 0x1_0000_0000
    ensures forall z: nat :: z <= 0xffff && Same(z, y) ==> Reduce(x) == z
  {
    hide Reduce;
    ReduceKeeps(x);
    forall z: nat | z <= 0xffff && Same(z, y) ensures Reduce(x) == z {
      SameIsEqual(Reduce(x), z);
    }
  }

  lemma SwapKeeps(x: nat)
    requires x <= 0xffff
    ensures Swap(x) <= 0xffff && Same(Swap(x), 256 * x) && Swap(0xffff - x) == 0xffff - Swap(x)
  {
    var hi, lo := x / 256, x % 256;
    assert 256 * x == Swap(x) + 0xffff * hi;
    ModMultiple(Swap(x), hi);
    assert 0xffff - x == 256 * (255 - hi) + (255 - lo);
  }

  /**
    The checksum is the one RFC 1071 defines for the first `len` bytes, whatever the cut and
    the alignment of the buffers, unless the accumulator overflows.
  */
  lemma CksumIsRfc1071(m: seq<Buffer>, len: nat)
    requires Total(m, len).peak <= INT_MAX
    ensures Cksum(m, len) == RfcChecksum(Prefix(Available(m), len))
  {
    hide AddBuffers, Available, Value, Reduce, Swap, Same, OnesSum, Prefix;
    var data := Prefix(Available(m), len);
    assert Good(START, []) by { StartIsGood(); }
    var a := AddBuffers(START, m, len);
    BuffersAdded(START, m, len, []);
    assert [] + data == data;
    var total := Total(m, len).sum;
    assert total == Held(a);
    assert Same(total, Value(data, false));
    var ones := OnesSum(data);
    SwapKeeps(ones);
    OnesSumIsValue(data);
    SameShifted(ones, Value(data, true));
    ValueSwapped(data, true);
    SameChain(Swap(ones), 256 * ones, 256 * Value(data, true));
    SameChain(Swap(ones), 256 * Value(data, true), Value(data, false));
    CksumNormal(total, Value(data, false));
  }

  lemma StartIsGood()
    ensures Good(START, [])
  {
  }

  // ----- the accumulator and the size of an int

  /** The largest value the accumulator can take while `n` bytes are added. */
  function Limit(n: nat): nat
  {
    if n < 2 then 0 else 0xffff * (255 + n / 2)
  }

  /** `n` bytes in, the accumulator is still under the limit. */
  predicate Low(a: Acc, n: nat)
  {
    a.pending == (n % 2 == 1) && a.sum <= Limit(n) && a.peak <= Limit(n)
  }

  lemma UnrolledLow(a: Acc, b: seq<byte>)
    ensures AddUnrolled(a, b).sum <= a.sum + 0xffff * (4 * (|b| / 8))
    ensures AddUnrolled(a, b).sum <= a.sum + 0xffff * (|b| / 2) && AddUnrolled(a, b).pending == a.pending
  {
    hide Words;
    WordsBounded(b, 0, 4 * (|b| / 8));
  }

  lemma RestLow(a: Acc, b: seq<byte>)
    requires a.sum <= INT_MAX
    ensures AddRest(a, b).sum <= a.sum + 0xffff * (|b| / 2 - 4 * (|b| / 8))
  {
    hide Words, Reduce;
    ReduceKeeps(a.sum);
    WordsBounded(b, 4 * (|b| / 8), |b| / 2);
  }

  /** Both together, with the peak. */
  lemma WordsLow(a: Acc, b: seq<byte>, bound: nat)
    requires a.sum + 0xffff * (|b| / 2) <= bound <= INT_MAX && a.peak <= bound
    ensures var r := AddRest(AddUnrolled(a, b), b);
      r.sum <= a.sum + 0xffff * (|b| / 2) && r.peak <= bound && r.pending == a.pending
    ensures AddUnrolled(a, b).peak <= bound
  {
    hide Words, Reduce;
    UnrolledLow(a, b);
    RestLow(AddUnrolled(a, b), b);
  }

  lemma EvenLow(a: Acc, b: seq<byte>, n: nat)
    requires Low(a, n) && !a.pending && n + |b| <= 65027
    ensures Low(AddEven(a, b), n + |b|)
  {
    hide Words, Reduce, AddRest, AddUnrolled;
    WordsLow(a, b, Limit(n + |b|));
    UnrolledLow(a, b);
  }

  lemma OddLow(a: Acc, b: seq<byte>, n: nat)
    requires Low(a, n) && !a.pending && b != [] && n + |b| <= 65027
    ensures Low(AddOdd(a, b), n + |b|)
  {
    hide Words, Reduce, AddRest, AddUnrolled;
    var words, bound := b[1..], Limit(n + |b|);
    ReduceKeeps(a.sum);
    WordsLow(a.Shifted(), words, bound);
    ReduceKeeps(OddWords(a, words).sum);
  }

  lemma BufferLow(a: Acc, b: Buffer, take: nat, n: nat)
    requires 0 < take <= |b.bytes| && n + take <= 65027 && Low(a, n)
    ensures Low(AddBuffer(a, b, take), n + take)
  {
    hide AddEven, AddOdd;
    var s := Completed(a, b.bytes[0]);
    var rest := if a.pending then b.bytes[1..take] else b.bytes[..take];
    var n' := if a.pending then n + 1 else n;
    if b.odd != a.pending && rest != [] {
      OddLow(s, rest, n');
    } else {
      EvenLow(s, rest, n');
    }
  }

  lemma {:induction false} BuffersLow(a: Acc, m: seq<Buffer>, len: nat, n: nat)
    requires Low(a, n) && n + len <= 65027
    ensures Low(AddBuffers(a, m, len), n + |Prefix(Available(m), len)|)
    decreases |m|
  {
    hide AddBuffer, Low;
    if m != [] && len != 0 && m[0].bytes != [] {
      var take := Min(len, |m[0].bytes|);
      BufferLow(a, m[0], take, n);
      BuffersLow(AddBuffer(a, m[0], take), m[1..], len - take, n + take);
    }
  }

  /** Up to 65027 bytes, no data and no cut of it overflows the accumulator. */
  lemma NeverOverflows(m: seq<Buffer>, len: nat)
    requires len <= 65027
    ensures Total(m, len).peak <= INT_MAX
  {
    hide AddBuffers, Available;
    assert Low(START, 0);
    BuffersLow(START, m, len, 0);
  }

  /** `n` bytes of 0xff. */
  function Ones(n: nat): (b: seq<byte>)
    ensures |b| == n && forall i :: 0 <= i < n ==> b[i] == 0xff
  {
    seq(n, _ => 0xff)
  }

  lemma {:induction false} WordsOfOnes(n: nat, from: nat, to: nat)
    requires from <= to && 2 * to <= n
    ensures Words(Ones(n), from, to) == 0xffff * (to - from)
  {
    if from < to {
      WordsOfOnes(n, from, to - 1);
    }
  }

  /** Four bytes from an odd address, and the rest in one even buffer: 65028 bytes are too many. */
  function Overflowing(len: nat): seq<Buffer>
    requires 65028 <= len
  {
    [Buffer(true, Ones(4)), Buffer(false, Ones(len - 4))]
  }

  lemma SomeOverflow(len: nat)
    requires 65028 <= len
    ensures |Available(Overflowing(len))| == len
    ensures Total(Overflowing(len), len).peak > INT_MAX
  {
    hide Words, AddOdd, AddEven, Available;
    var m := Overflowing(len);
    FirstOverflowing();
    var a := AddBuffer(START, m[0], 4);
    assert Ones(4)[..4] == Ones(4);
    assert a == AddOdd(START, Ones(4));
    var rest := Ones(len - 4);
    assert rest[..len - 4] == rest;
    SecondOverflowing(a, rest);
    BuffersOfTwo(m, len);
    BuffersPeak(AddBuffer(a, m[1], len - 4), [], 0);
    AvailableOfTwo(m);
  }

  lemma AvailableOfTwo(m: seq<Buffer>)
    requires |m| == 2 && m[0].bytes != [] && m[1].bytes != []
    ensures Available(m) == m[0].bytes + m[1].bytes
  {
    assert Available(m[1..][1..]) == [];
  }

  lemma BuffersOfTwo(m: seq<Buffer>, len: nat)
    requires |m| == 2 && |m[0].bytes| == 4 && |m[1].bytes| == len - 4 && len > 4
    ensures AddBuffers(START, m, len) == AddBuffer(AddBuffer(START, m[0], 4), m[1], len - 4)
  {
    hide AddBuffer;
    var a := AddBuffer(START, m[0], 4);
    assert AddBuffers(START, m, len) == AddBuffers(a, m[1..], len - 4);
    assert AddBuffers(a, m[1..], len - 4) == AddBuffers(AddBuffer(a, m[1], len - 4), m[1..][1..], 0);
  }

  lemma FirstOverflowing()
    ensures AddOdd(START, Ones(4)).sum == 0xffff * 257 && !AddOdd(START, Ones(4)).pending
  {
    hide Words;
    assert Ones(4)[1..] == Ones(3);
    WordsOfOnes(3, 0, 0);
    WordsOfOnes(3, 0, 1);
  }

  lemma SecondOverflowing(a: Acc, b: seq<byte>)
    requires a.sum == 0xffff * 257 && |b| >= 65024 && b == Ones(|b|)
    ensures AddEven(a, b).peak > INT_MAX
  {
    hide Words, AddRest;
    var k := 4 * (|b| / 8);
    WordsOfOnes(|b|, 0, k);
    assert AddUnrolled(a, b).sum > INT_MAX;
    PeakOfRest(AddUnrolled(a, b), b);
  }

  lemma PeakOfRest(a: Acc, b: seq<byte>)
    ensures a.peak <= AddRest(a, b).peak
  {
  }

  /** 65027 is exactly the largest length at which no data overflows the accumulator. */
  lemma OverflowBoundIsExact(len: nat)
    ensures (forall m :: Total(m, len).peak <= INT_MAX) <==> len <= 65027
  {
    hide Total;
    if len <= 65027 {
      forall m ensures Total(m, len).peak <= INT_MAX {
        NeverOverflows(m, len);
      }
    } else {
      SomeOverflow(len);
    }
  }

  // ----- the code

  function LeWord(b: seq<byte>, at: nat): nat
    requires at + 2 <= |b|
  {
    b[at] as nat + 256 * (b[at + 1] as nat)
  }

  lemma FourWords(b: seq<byte>, from: nat, to: nat)
    requires from <= to && 2 * to + 8 <= |b|
    ensures Words(b, from, to + 4) == Words(b, from, to) + LeWord(b, 2 * to)
      + LeWord(b, 2 * to + 2) + LeWord(b, 2 * to + 4) + LeWord(b, 2 * to + 6)
  {
    assert Words(b, from, to + 2) == Words(b, from, to) + LeWord(b, 2 * to) + LeWord(b, 2 * to + 2);
  }

  /** The first unrolled loop, 16 words at a time: `groups` counts the groups of four words. */
  method SumBy32(b: seq<byte>, start: nat) returns (sum: nat, at: nat, mlen: int, ghost groups: nat)
    ensures at == 8 * groups <= |b| && mlen == |b| - at < 32
    ensures sum == start + Words(b, 0, 4 * groups)
  {
    hide Words, LeWord;
    sum, at, mlen, groups := start, 0, |b|, 0;
    NoWords(b);
    mlen := mlen - 32;
    while mlen >= 0
      invariant at == 8 * groups <= |b| && mlen == |b| - at - 32
      invariant sum == start + Words(b, 0, 4 * groups)
    {
      FourWords(b, 0, 4 * groups);
      FourWords(b, 0, 4 * groups + 4);
      FourWords(b, 0, 4 * groups + 8);
      FourWords(b, 0, 4 * groups + 12);
      sum := sum + LeWord(b, at + 0) + LeWord(b, at + 2) + LeWord(b, at + 4) + LeWord(b, at + 6);
      sum := sum + LeWord(b, at + 8) + LeWord(b, at + 10) + LeWord(b, at + 12) + LeWord(b, at + 14);
      sum := sum + LeWord(b, at + 16) + LeWord(b, at + 18) + LeWord(b, at + 20) + LeWord(b, at + 22);
      sum := sum + LeWord(b, at + 24) + LeWord(b, at + 26) + LeWord(b, at + 28) + LeWord(b, at + 30);
      at, groups := at + 32, groups + 4;
      mlen := mlen - 32;
    }
    mlen := mlen + 32;
  }

  /** Both unrolled loops.  They end with fewer than eight bytes left. */
  method SumUnrolled(b: seq<byte>, start: nat) returns (sum: nat, at: nat, mlen: int)
    ensures at == 8 * (|b| / 8) && mlen == |b| - at
    ensures sum == start + Words(b, 0, 4 * (|b| / 8))
  {
    hide Words, LeWord;
    ghost var groups;
    sum, at, mlen, groups := SumBy32(b, start);
    mlen := mlen - 8;
    while mlen >= 0
      invariant at == 8 * groups <= |b| && mlen == |b| - at - 8
      invariant sum == start + Words(b, 0, 4 * groups)
    {
      FourWords(b, 0, 4 * groups);
      sum := sum + LeWord(b, at + 0) + LeWord(b, at + 2) + LeWord(b, at + 4) + LeWord(b, at + 6);
      at, groups := at + 8, groups + 1;
      mlen := mlen - 8;
    }
    mlen := mlen + 8;
    assert groups == |b| / 8;
  }

  lemma NoWords(b: seq<byte>)
    ensures Words(b, 0, 0) == 0
  {
  }

  /** The loop over the words that are left.  It ends with mlen -1 if a byte is left, else -2. */
  method SumRest(b: seq<byte>, start: nat, from: nat) returns (sum: nat, at: nat, mlen: int)
    requires from % 2 == 0 && from <= |b|
    ensures mlen == (if |b| % 2 == 1 then -1 else -2)
    ensures at == 2 * (|b| / 2) && sum == start + Words(b, from / 2, |b| / 2)
  {
    sum, at, mlen := start, from, |b| - from;
    mlen := mlen - 2;
    while mlen >= 0
      invariant from <= at <= |b| && at % 2 == 0 && mlen == |b| - at - 2
      invariant sum == start + Words(b, from / 2, at / 2)
    {
      sum := sum + LeWord(b, at);
      at := at + 2;
      mlen := mlen - 2;
    }
  }

  function Max(a: nat, b: nat): nat { if a > b then a else b }

  /** The variables of the code stand for `a`. */
  predicate Holds(a: Acc, sum: nat, mlen: int, c0: byte)
  {
    a.sum == sum <= a.peak && a.pending == (mlen == -1) && (a.pending ==> a.saved == c0)
  }

  lemma EightIsEven(n: nat)
    ensures 8 * n % 2 == 0 && 8 * n / 2 == 4 * n
  {
  }

  /** From an even address: the loops, and the odd last byte is saved. */
  method SumEvenRun(b: seq<byte>, sumIn: nat, c0In: byte, ghost peakIn: nat, ghost s: Acc)
    returns (sum: nat, mlen: int, c0: byte, ghost peak: nat)
    requires Holds(s, sumIn, 0, c0In) && peakIn == s.peak
    ensures Holds(AddEven(s, b), sum, mlen, c0) && peak == AddEven(s, b).peak
  {
    hide Reduce, Words;
    var done;
    c0 := c0In;
    sum, done, mlen := SumUnrolled(b, sumIn);
    EightIsEven(|b| / 8);
    peak := Max(peakIn, sum);
    if mlen != 0 {
      sum := Reduce(sum);
      sum, done, mlen := SumRest(b, sum, done);
      peak := Max(peak, sum);
      if mlen == -1 {
        c0 := b[done];
      }
    }
  }

  /** From an odd address: the sum is shifted by a byte before and after the loops. */
  method SumOddRun(run: seq<byte>, sumIn: nat, ghost peakIn: nat, ghost s: Acc)
    returns (sum: nat, mlen: int, c0: byte, ghost peak: nat)
    requires run != [] && Holds(s, sumIn, 0, s.saved) && peakIn == s.peak
    ensures Holds(AddOdd(s, run), sum, mlen, c0) && peak == AddOdd(s, run).peak
  {
    hide Reduce, Words;
    sum := Reduce(sumIn);
    sum := 256 * sum;
    peak := Max(peakIn, sum);
    c0 := run[0];
    var b, done := run[1..], 0;
    sum, done, mlen := SumUnrolled(b, sum);
    EightIsEven(|b| / 8);
    peak := Max(peak, sum);
    sum := Reduce(sum);
    sum, done, mlen := SumRest(b, sum, done);
    peak := Max(peak, sum);
    assert OddWords(s, b).sum == sum && OddWords(s, b).peak == peak && !OddWords(s, b).pending;
    sum := Reduce(sum);
    sum := 256 * sum;
    peak := Max(peak, sum);
    if mlen == -1 {
      sum := sum + c0 as nat + 256 * (b[done] as nat);
      peak := Max(peak, sum);
      mlen := 0;
    } else {
      mlen := -1;
    }
  }

  /** The body of the loop over the buffers; `w` and `at` are the pointer. */
  method SumBuffer(buffer: Buffer, sumIn: nat, mlenIn: int, lenIn: nat, c0In: byte, ghost peakIn: nat, ghost a: Acc)
    returns (sum: nat, mlen: int, len: nat, c0: byte, ghost peak: nat)
    requires buffer.bytes != [] && lenIn > 0 && Holds(a, sumIn, mlenIn, c0In) && peakIn == a.peak
    ensures len == lenIn - Min(lenIn, |buffer.bytes|)
    ensures Holds(AddBuffer(a, buffer, Min(lenIn, |buffer.bytes|)), sum, mlen, c0)
    ensures peak == AddBuffer(a, buffer, Min(lenIn, |buffer.bytes|)).peak
  {
    hide AddOdd, AddEven;
    sum, mlen, c0, peak := sumIn, mlenIn, c0In, peakIn;
    var w, at, left := buffer.bytes, 0, lenIn as int;
    if mlen == -1 {
      sum := sum + c0 as nat + 256 * (w[0] as nat);
      peak := Max(peak, sum);
      at := 1;
      mlen := |w| - 1;
      left := left - 1;
    } else {
      mlen := |w|;
    }
    if left < mlen {
      mlen := left;
    }
    left := left - mlen;
    ghost var s := Completed(a, w[0]);
    if buffer.odd != (at == 1) && mlen > 0 {
      sum, mlen, c0, peak := SumOddRun(w[at..at + mlen], sum, peak, s);
    } else {
      sum, mlen, c0, peak := SumEvenRun(w[at..at + mlen], sum, c0, peak, s);
    }
    len := left;
  }

  /** bk_in_cksum.  `peak` is not part of the code. */
  method InCksum(m: seq<Buffer>, length: nat) returns (ck: nat, ghost peak: nat)
    ensures ck == Cksum(m, length) && peak == Total(m, length).peak
    ensures length <= 65027 ==> ck == RfcChecksum(Prefix(Available(m), length)) && peak <= INT_MAX
  {
    hide Reduce, Available, RfcChecksum, Prefix, AddBuffer;
    var sum: nat, mlen: int, len: nat, c0: byte := 0, 0, length, 0;
    peak := 0;
    ghost var a := START;
    var i := 0;
    while i < |m| && len != 0
      invariant i <= |m| && Holds(a, sum, mlen, c0) && peak == a.peak
      invariant AddBuffers(a, m[i..], len) == AddBuffers(START, m, length)
    {
      if |m[i].bytes| == 0 {
        break;
      }
      ghost var take := Min(len, |m[i].bytes|);
      sum, mlen, len, c0, peak := SumBuffer(m[i], sum, mlen, len, c0, peak, a);
      assert m[i..][1..] == m[i + 1..];
      a := AddBuffer(a, m[i], take);
      i := i + 1;
    }
    if mlen == -1 {
      sum := sum + c0 as nat;
      peak := Max(peak, sum);
    }
    sum := Reduce(sum);
    ck := 0xffff - sum;
    if length <= 65027 {
      NeverOverflows(m, length);
      CksumIsRfc1071(m, length);
    }
  }
}
