/**
  MurmurHash3, the x64 128-bit variant (lib/b_murmur.c).

  `X64Hash128` is the hash as the C code computes it, step by step.  `Hash` is the same value
  as a fold over the 16-byte blocks, one mix of the zero-padded tail, and a finalization.
  Every one of these stages has an inverse here, so each is a bijection, and two keys of equal
  length that differ in the input of one stage only never collide.  The inverses also give a key
  for every hash, and a collision for every change of one block that the next one may make up for.
*/
module Murmur {

  type byte = bv8

  /**
    The arithmetic the hash is made of.  Each operation has its own function and its inverse
    beside it, so that proofs about the composition never unfold 64-bit multiplications.
  */
  function TimesC1(x: bv64): bv64 { x * 0x87c37b91114253d5 }
  function OverC1(x: bv64): bv64 { x * 0xa98409e882ce4d7d }

  function TimesC2(x: bv64): bv64 { x * 0x4cf5ad432745937f }
  function OverC2(x: bv64): bv64 { x * 0xa81e14edd9de2c7f }

  function TimesF1(x: bv64): bv64 { x * 0xff51afd7ed558ccd }
  function OverF1(x: bv64): bv64 { x * 0x4f74430c22a54005 }

  function TimesF2(x: bv64): bv64 { x * 0xc4ceb9fe1a85ec53 }
  function OverF2(x: bv64): bv64 { x * 0x9cb4b2f8129337db }

  function Affine1(x: bv64): bv64 { x * 5 + 0x52dce729 }
  function Unaffine1(x: bv64): bv64 { (x - 0x52dce729) * 0xcccccccccccccccd }

  function Affine2(x: bv64): bv64 { x * 5 + 0x38495ab5 }
  function Unaffine2(x: bv64): bv64 { (x - 0x38495ab5) * 0xcccccccccccccccd }

  function Rotl27(x: bv64): bv64 { (x << 27) | (x >> 37) }
  function Rotr27(x: bv64): bv64 { (x >> 27) | (x << 37) }

  function Rotl31(x: bv64): bv64 { (x << 31) | (x >> 33) }
  function Rotr31(x: bv64): bv64 { (x >> 31) | (x << 33) }

  function Rotl33(x: bv64): bv64 { (x << 33) | (x >> 31) }
  function Rotr33(x: bv64): bv64 { (x >> 33) | (x << 31) }

  /** Its own inverse, because 33 is more than half of 64. */
  function Fold(x: bv64): bv64 { x ^ (x >> 33) }

  lemma ScrambleOperations(x: bv64)
    ensures OverC1(TimesC1(x)) == x && TimesC1(OverC1(x)) == x
    ensures OverC2(TimesC2(x)) == x && TimesC2(OverC2(x)) == x
    ensures Rotr31(Rotl31(x)) == x && Rotl31(Rotr31(x)) == x
    ensures Rotr33(Rotl33(x)) == x && Rotl33(Rotr33(x)) == x
  {
    assert OverC1(x * 0x87c37b91114253d5) == x && TimesC1(x * 0xa98409e882ce4d7d) == x;
    assert OverC2(x * 0x4cf5ad432745937f) == x && TimesC2(x * 0xa81e14edd9de2c7f) == x;
    assert Rotr31((x << 31) | (x >> 33)) == x && Rotl31((x >> 31) | (x << 33)) == x;
    assert Rotr33((x << 33) | (x >> 31)) == x && Rotl33((x >> 33) | (x << 31)) == x;
  }

  lemma StepOperations(x: bv64)
    ensures Unaffine1(Affine1(x)) == x && Affine1(Unaffine1(x)) == x
    ensures Unaffine2(Affine2(x)) == x && Affine2(Unaffine2(x)) == x
    ensures Rotr27(Rotl27(x)) == x && Rotl27(Rotr27(x)) == x
    ensures Rotr31(Rotl31(x)) == x && Rotl31(Rotr31(x)) == x
  {
  }

  lemma FmixOperations(x: bv64)
    ensures OverF1(TimesF1(x)) == x && TimesF1(OverF1(x)) == x
    ensures OverF2(TimesF2(x)) == x && TimesF2(OverF2(x)) == x
    ensures Fold(Fold(x)) == x
  {
    assert OverF1(x * 0xff51afd7ed558ccd) == x && TimesF1(x * 0x4f74430c22a54005) == x;
    assert OverF2(x * 0xc4ceb9fe1a85ec53) == x && TimesF2(x * 0x9cb4b2f8129337db) == x;
    assert Fold(x ^ (x >> 33)) == x;
  }

  function Xor(x: bv64, y: bv64): bv64 { x ^ y }
  function Plus(x: bv64, y: bv64): bv64 { x + y }
  function Minus(x: bv64, y: bv64): bv64 { x - y }

  lemma XorInverse(x: bv64, y: bv64)
    ensures Xor(Xor(x, y), y) == x && Xor(x, y) == Xor(y, x)
  {
  }

  lemma MinusPlus(x: bv64, y: bv64)
    ensures Minus(Plus(x, y), y) == x
  {
    assert Minus(x + y, y) == x;
  }

  lemma PlusMinus(x: bv64, y: bv64)
    ensures Plus(Minus(x, y), y) == x
  {
    assert Plus(x - y, y) == x;
  }

  lemma PlusCommutes(x: bv64, y: bv64)
    ensures Plus(x, y) == Plus(y, x)
  {
  }

  lemma PairInverses(x: bv64, y: bv64)
    ensures Xor(Xor(x, y), y) == x && Xor(x, y) == Xor(y, x)
    ensures Minus(Plus(x, y), y) == x && Plus(Minus(x, y), y) == x && Plus(x, y) == Plus(y, x)
  {
    hide Xor, Plus, Minus;
    XorInverse(x, y);
    MinusPlus(x, y);
    PlusMinus(x, y);
    PlusCommutes(x, y);
  }

  datatype State = State(h1: bv64, h2: bv64)

  function Or(x: bv64, y: bv64): bv64 { x | y }

  /** A byte in its place in a 64-bit word. */
  function Lane(b: byte, shift: bv6): bv64 { (b as bv64) << shift }

  /** The 64-bit little-endian word at byte offset `at`. */
  function Word(data: seq<byte>, at: nat): bv64
    requires at + 8 <= |data|
  {
    Or(Or(Or(Or(Or(Or(Or(
      Lane(data[at + 7], 56), Lane(data[at + 6], 48)), Lane(data[at + 5], 40)), Lane(data[at + 4], 32)),
      Lane(data[at + 3], 24)), Lane(data[at + 2], 16)), Lane(data[at + 1], 8)), Lane(data[at], 0))
  }

  // ----- the hash as a composition of stages

  function Scramble1(k1: bv64): bv64 { TimesC2(Rotl31(TimesC1(k1))) }

  function Scramble2(k2: bv64): bv64 { TimesC1(Rotl33(TimesC2(k2))) }

  function Step1(h: bv64, k: bv64, other: bv64): bv64 { Affine1(Plus(Rotl27(Xor(h, k)), other)) }

  function Step2(h: bv64, k: bv64, other: bv64): bv64 { Affine2(Plus(Rotl31(Xor(h, k)), other)) }

  /** One round of the body: absorb the block (k1, k2). */
  function Mix(s: State, k1: bv64, k2: bv64): State
  {
    var h1 := Step1(s.h1, Scramble1(k1), s.h2);
    State(h1, Step2(s.h2, Scramble2(k2), h1))
  }

  /** The state after the first `n` blocks of `data`. */
  function Body(data: seq<byte>, n: nat, s: State): State
    requires 16 * n <= |data|
  {
    if n == 0 then s
    else Mix(Body(data, n - 1, s), Word(data, 16 * n - 16), Word(data, 16 * n - 8))
  }

  /** The tail filled up with zero bytes to one block. */
  function Padded(tail: seq<byte>): (p: seq<byte>)
    requires |tail| < 16
    ensures |p| == 16 && p[..|tail|] == tail
    ensures forall i :: |tail| <= i < 16 ==> p[i] == 0
  {
    tail + seq(16 - |tail|, _ => 0)
  }

  /** Mix the last block in; unlike `Mix` this does not step the state. */
  function Absorb(s: State, k1: bv64, k2: bv64): State
  {
    State(Xor(s.h1, Scramble1(k1)), Xor(s.h2, Scramble2(k2)))
  }

  function Fmix64(k: bv64): bv64 { Fold(TimesF2(Fold(TimesF1(Fold(k))))) }

  function Cross(s: State): State
  {
    var h1 := Plus(s.h1, s.h2);
    State(h1, Plus(s.h2, h1))
  }

  function Finish(s: State, len: bv64): State
  {
    var c := Cross(State(Xor(s.h1, len), Xor(s.h2, len)));
    Cross(State(Fmix64(c.h1), Fmix64(c.h2)))
  }

  function Hash(key: seq<byte>, seed: bv32): State
    requires |key| < 0x8000_0000
  {
    var n := |key| / 16;
    var last := Padded(key[16 * n..]);
    var body := Body(key, n, State(seed as bv64, seed as bv64));
    Finish(Absorb(body, Word(last, 0), Word(last, 8)), |key| as bv64)
  }

  // ----- the inverse of each stage

  function Unscramble1(k: bv64): bv64 { OverC1(Rotr31(OverC2(k))) }

  function Unscramble2(k: bv64): bv64 { OverC2(Rotr33(OverC1(k))) }

  /** The word that the step rotated, from its result. */
  function Unstep1(h: bv64, other: bv64): bv64 { Rotr27(Minus(Unaffine1(h), other)) }

  function Unstep2(h: bv64, other: bv64): bv64 { Rotr31(Minus(Unaffine2(h), other)) }

  /** The state that `Mix` with this block takes to `s`. */
  function UnmixState(s: State, k1: bv64, k2: bv64): State
  {
    var h2 := Xor(Unstep2(s.h2, s.h1), Scramble2(k2));
    State(Xor(Unstep1(s.h1, h2), Scramble1(k1)), h2)
  }

  /** The block with which `Mix` takes `from` to `to`. */
  function UnmixBlock(from: State, to: State): (k: (bv64, bv64))
  {
    (Unscramble1(Xor(Unstep1(to.h1, from.h2), from.h1)), Unscramble2(Xor(Unstep2(to.h2, to.h1), from.h2)))
  }

  function Unfmix64(k: bv64): bv64 { Fold(OverF1(Fold(OverF2(Fold(k))))) }

  function Uncross(s: State): State
  {
    var h2 := Minus(s.h2, s.h1);
    State(Minus(s.h1, h2), h2)
  }

  function Unfinish(s: State, len: bv64): State
  {
    var f := Uncross(s);
    var c := Uncross(State(Unfmix64(f.h1), Unfmix64(f.h2)));
    State(Xor(c.h1, len), Xor(c.h2, len))
  }

  // ----- each stage is a bijection

  lemma ScrambleBijective(k: bv64)
    ensures Unscramble1(Scramble1(k)) == k && Scramble1(Unscramble1(k)) == k
    ensures Unscramble2(Scramble2(k)) == k && Scramble2(Unscramble2(k)) == k
  {
    hide TimesC1, OverC1, TimesC2, OverC2, Rotl31, Rotr31, Rotl33, Rotr33;
    ScrambleOperations(k);
    ScrambleOperations(TimesC1(k));
    ScrambleOperations(TimesC2(k));
    ScrambleOperations(Rotl31(TimesC1(k)));
    ScrambleOperations(Rotl33(TimesC2(k)));
    ScrambleOperations(OverC1(k));
    ScrambleOperations(OverC2(k));
    ScrambleOperations(Rotr31(OverC2(k)));
    ScrambleOperations(Rotr33(OverC1(k)));
  }

  lemma StepBijective(h: bv64, k: bv64, other: bv64)
    ensures Unstep1(Step1(h, k, other), other) == Xor(h, k)
    ensures Unstep2(Step2(h, k, other), other) == Xor(h, k)
    ensures Step1(Xor(Unstep1(h, other), k), k, other) == h
    ensures Step2(Xor(Unstep2(h, other), k), k, other) == h
  {
    hide Affine1, Unaffine1, Affine2, Unaffine2, Rotl27, Rotr27, Rotl31, Rotr31, Xor, Plus, Minus;
    var x := Xor(h, k);
    StepOperations(x);
    PairInverses(Rotl27(x), other);
    PairInverses(Rotl31(x), other);
    StepOperations(Plus(Rotl27(x), other));
    StepOperations(Plus(Rotl31(x), other));
    PairInverses(Unstep1(h, other), k);
    PairInverses(Unstep2(h, other), k);
    StepOperations(Minus(Unaffine1(h), other));
    StepOperations(Minus(Unaffine2(h), other));
    PairInverses(Unaffine1(h), other);
    PairInverses(Unaffine2(h), other);
    StepOperations(h);
  }

  /** For a fixed block, `Mix` is a bijection of the state. */
  lemma MixBijectiveInState(s: State, k1: bv64, k2: bv64)
    ensures UnmixState(Mix(s, k1, k2), k1, k2) == s
    ensures Mix(UnmixState(s, k1, k2), k1, k2) == s
  {
    var a, b := Scramble1(k1), Scramble2(k2);
    StepBijective(s.h1, a, s.h2);
    StepBijective(s.h2, b, Mix(s, k1, k2).h1);
    PairInverses(s.h1, a);
    PairInverses(s.h2, b);
    StepBijective(s.h1, a, UnmixState(s, k1, k2).h2);
    StepBijective(s.h2, b, s.h1);
  }

  /** For a fixed state, `Mix` is a bijection of the block. */
  lemma MixBijectiveInBlock(from: State, to: State, k1: bv64, k2: bv64)
    ensures UnmixBlock(from, Mix(from, k1, k2)) == (k1, k2)
    ensures Mix(from, UnmixBlock(from, to).0, UnmixBlock(from, to).1) == to
  {
    MixThenUnmixBlock(from, k1, k2);
    UnmixBlockThenMix(from, to);
  }

  lemma MixThenUnmixBlock(from: State, k1: bv64, k2: bv64)
    ensures UnmixBlock(from, Mix(from, k1, k2)) == (k1, k2)
  {
    var a, b := Scramble1(k1), Scramble2(k2);
    StepBijective(from.h1, a, from.h2);
    StepBijective(from.h2, b, Mix(from, k1, k2).h1);
    PairInverses(a, from.h1);
    PairInverses(b, from.h2);
    ScrambleBijective(k1);
    ScrambleBijective(k2);
  }

  lemma UnmixBlockThenMix(from: State, to: State)
    ensures Mix(from, UnmixBlock(from, to).0, UnmixBlock(from, to).1) == to
  {
    var x, y := Unstep1(to.h1, from.h2), Unstep2(to.h2, to.h1);
    var a, b := Xor(x, from.h1), Xor(y, from.h2);
    ScrambleBijective(a);
    ScrambleBijective(b);
    PairInverses(x, from.h1);
    PairInverses(y, from.h2);
    PairInverses(from.h1, a);
    PairInverses(from.h2, b);
    StepBijective(to.h1, a, from.h2);
    StepBijective(to.h2, b, to.h1);
    PairInverses(x, a);
    PairInverses(y, b);
  }

  lemma Fmix64Bijective(k: bv64)
    ensures Unfmix64(Fmix64(k)) == k && Fmix64(Unfmix64(k)) == k
  {
    hide TimesF1, OverF1, TimesF2, OverF2, Fold;
    FmixOperations(k);
    var a := Fold(k);
    FmixOperations(a);
    FmixOperations(TimesF1(a));
    FmixOperations(Fold(TimesF1(a)));
    FmixOperations(TimesF2(Fold(TimesF1(a))));
    FmixOperations(OverF2(a));
    FmixOperations(Fold(OverF2(a)));
    FmixOperations(OverF1(Fold(OverF2(a))));
  }

  lemma CrossBijective(s: State)
    ensures Uncross(Cross(s)) == s && Cross(Uncross(s)) == s
  {
    PairInverses(s.h2, Plus(s.h1, s.h2));
    PairInverses(s.h1, s.h2);
    PairInverses(s.h1, Uncross(s).h2);
    PairInverses(s.h2, s.h1);
  }

  /** For a fixed length, finalization is a bijection of the pair. */
  lemma FinishBijective(s: State, len: bv64)
    ensures Unfinish(Finish(s, len), len) == s
    ensures Finish(Unfinish(s, len), len) == s
  {
    PairInverses(s.h1, len);
    PairInverses(s.h2, len);
    var x := State(Xor(s.h1, len), Xor(s.h2, len));
    var c := Cross(x);
    CrossBijective(x);
    Fmix64Bijective(c.h1);
    Fmix64Bijective(c.h2);
    CrossBijective(State(Fmix64(c.h1), Fmix64(c.h2)));
    CrossBijective(s);
    var f := Uncross(s);
    Fmix64Bijective(f.h1);
    Fmix64Bijective(f.h2);
    var g := State(Unfmix64(f.h1), Unfmix64(f.h2));
    CrossBijective(g);
    PairInverses(Uncross(g).h1, len);
    PairInverses(Uncross(g).h2, len);
  }

  // ----- no collisions inside one block

  lemma WordInjective(a: seq<byte>, b: seq<byte>, at: nat)
    requires at + 8 <= |a| && |a| == |b| && Word(a, at) == Word(b, at)
    ensures a[at..at + 8] == b[at..at + 8]
  {
  }

  /** A 16-byte block is determined by its two words. */
  lemma BlockInjective(a: seq<byte>, b: seq<byte>, at: nat)
    requires at + 16 <= |a| && |a| == |b|
    requires Word(a, at) == Word(b, at) && Word(a, at + 8) == Word(b, at + 8)
    ensures a[at..at + 16] == b[at..at + 16]
  {
    WordInjective(a, b, at);
    WordInjective(a, b, at + 8);
    assert a[at..at + 16] == a[at..at + 8] + a[at + 8..at + 16];
    assert b[at..at + 16] == b[at..at + 8] + b[at + 8..at + 16];
  }

  /** The two keys are equally long and equal at every byte outside [lo, hi). */
  ghost predicate AgreeOutside(a: seq<byte>, b: seq<byte>, lo: nat, hi: nat)
  {
    |a| == |b| && forall j :: 0 <= j < |a| && !(lo <= j < hi) ==> a[j] == b[j]
  }

  lemma SameWord(a: seq<byte>, b: seq<byte>, at: nat)
    requires at + 8 <= |a| && |a| == |b| && forall j :: at <= j < at + 8 ==> a[j] == b[j]
    ensures Word(a, at) == Word(b, at)
  {
  }

  lemma {:induction false} BodyAgrees(a: seq<byte>, b: seq<byte>, n: nat, s: State, hi: nat)
    requires 16 * n <= |a| && AgreeOutside(a, b, 16 * n, hi)
    ensures Body(a, n, s) == Body(b, n, s)
  {
    hide Mix, Word;
    if n > 0 {
      SameWord(a, b, 16 * n - 16);
      SameWord(a, b, 16 * n - 8);
      BodyAgrees(a, b, n - 1, s, hi);
    }
  }

  /** Two keys that differ in exactly one whole block leave the body in different states. */
  lemma {:induction false} BodyDiffers(a: seq<byte>, b: seq<byte>, n: nat, s: State, i: nat)
    requires i < n && 16 * n <= |a| && AgreeOutside(a, b, 16 * i, 16 * i + 16)
    requires Word(a, 16 * i) != Word(b, 16 * i) || Word(a, 16 * i + 8) != Word(b, 16 * i + 8)
    ensures Body(a, n, s) != Body(b, n, s)
  {
    hide Mix, Word;
    var m := 16 * n;
    var p, q := Body(a, n - 1, s), Body(b, n - 1, s);
    var k1, k2 := Word(a, m - 16), Word(a, m - 8);
    if i == n - 1 {
      BodyAgrees(a, b, i, s, m);
      MixThenUnmixBlock(p, k1, k2);
      MixThenUnmixBlock(p, Word(b, m - 16), Word(b, m - 8));
    } else {
      SameWord(a, b, m - 16);
      SameWord(a, b, m - 8);
      BodyDiffers(a, b, n - 1, s, i);
      MixBijectiveInState(p, k1, k2);
      MixBijectiveInState(q, k1, k2);
    }
  }

  lemma AbsorbInjective(p: State, k1: bv64, k2: bv64, q: State, l1: bv64, l2: bv64)
    requires Absorb(p, k1, k2) == Absorb(q, l1, l2)
    ensures p == q ==> k1 == l1 && k2 == l2
    ensures k1 == l1 && k2 == l2 ==> p == q
  {
    hide Scramble1, Scramble2, Xor;
    ScrambleBijective(k1);
    ScrambleBijective(k2);
    ScrambleBijective(l1);
    ScrambleBijective(l2);
    PairInverses(p.h1, Scramble1(k1));
    PairInverses(p.h2, Scramble2(k2));
    PairInverses(q.h1, Scramble1(l1));
    PairInverses(q.h2, Scramble2(l2));
    PairInverses(Scramble1(k1), p.h1);
    PairInverses(Scramble2(k2), p.h2);
    PairInverses(Scramble1(l1), q.h1);
    PairInverses(Scramble2(l2), q.h2);
  }

  /** The last two stages keep states and blocks apart. */
  lemma EndsDiffer(p: State, k1: bv64, k2: bv64, q: State, l1: bv64, l2: bv64, len: bv64)
    requires (p == q) != ((k1, k2) == (l1, l2))
    ensures Finish(Absorb(p, k1, k2), len) != Finish(Absorb(q, l1, l2), len)
  {
    hide Absorb, Finish, Unfinish;
    FinishBijective(Absorb(p, k1, k2), len);
    FinishBijective(Absorb(q, l1, l2), len);
    if Absorb(p, k1, k2) == Absorb(q, l1, l2) {
      AbsorbInjective(p, k1, k2, q, l1, l2);
    }
  }

  /** Keys of equal length that differ only inside one aligned 16-byte block never collide. */
  lemma OneBlockNoCollision(a: seq<byte>, b: seq<byte>, seed: bv32, i: nat)
    requires |a| < 0x8000_0000 && 16 * i + 16 <= |a|
    requires AgreeOutside(a, b, 16 * i, 16 * i + 16) && a != b
    ensures Hash(a, seed) != Hash(b, seed)
  {
    hide Word, Absorb, Finish, Body, Padded;
    var n := |a| / 16;
    var start := State(seed as bv64, seed as bv64);
    if Word(a, 16 * i) == Word(b, 16 * i) && Word(a, 16 * i + 8) == Word(b, 16 * i + 8) {
      BlockInjective(a, b, 16 * i);
    }
    BodyDiffers(a, b, n, start, i);
    assert a[16 * n..] == b[16 * n..];
    var last := Padded(a[16 * n..]);
    var k1, k2 := Word(last, 0), Word(last, 8);
    EndsDiffer(Body(a, n, start), k1, k2, Body(b, n, start), k1, k2, |a| as bv64);
  }

  lemma PaddedInjective(s: seq<byte>, t: seq<byte>)
    requires |s| == |t| < 16
    requires Word(Padded(s), 0) == Word(Padded(t), 0) && Word(Padded(s), 8) == Word(Padded(t), 8)
    ensures s == t
  {
    hide Word;
    var x, y := Padded(s), Padded(t);
    BlockInjective(x, y, 0);
    assert x == x[0..16] && y == y[0..16];
    assert s == x[..|s|] && t == y[..|t|];
  }

  /** Equally long keys that differ only from `cut` on differ there. */
  lemma TailsDiffer(a: seq<byte>, b: seq<byte>, cut: nat)
    requires cut <= |a| && AgreeOutside(a, b, cut, |a|) && a != b
    ensures a[cut..] != b[cut..]
  {
    assert a == a[..cut] + a[cut..] && b == b[..cut] + b[cut..] && a[..cut] == b[..cut];
  }

  /** From a common state, the two tails lead to different ends. */
  lemma TailDiffers(a: seq<byte>, b: seq<byte>, cut: nat, p: State, len: bv64)
    requires cut <= |a| < cut + 16 && AgreeOutside(a, b, cut, |a|) && a != b
    ensures var x, y := Padded(a[cut..]), Padded(b[cut..]);
      Finish(Absorb(p, Word(x, 0), Word(x, 8)), len) != Finish(Absorb(p, Word(y, 0), Word(y, 8)), len)
  {
    hide Word, Absorb, Finish, Padded;
    TailsDiffer(a, b, cut);
    var x, y := Padded(a[cut..]), Padded(b[cut..]);
    if Word(x, 0) == Word(y, 0) && Word(x, 8) == Word(y, 8) {
      PaddedInjective(a[cut..], b[cut..]);
    }
    EndsDiffer(p, Word(x, 0), Word(x, 8), p, Word(y, 0), Word(y, 8), len);
  }

  /** Keys of equal length that differ only in the tail never collide. */
  lemma TailNoCollision(a: seq<byte>, b: seq<byte>, seed: bv32)
    requires |a| < 0x8000_0000 && AgreeOutside(a, b, 16 * (|a| / 16), |a|) && a != b
    ensures Hash(a, seed) != Hash(b, seed)
  {
    hide Word, Absorb, Finish, Body, Padded;
    var n, start := |a| / 16, State(seed as bv64, seed as bv64);
    BodyAgrees(a, b, n, start, |a|);
    TailDiffers(a, b, 16 * n, Body(a, n, start), |a| as bv64);
  }

  // ----- the code

  lemma EmptyLane(k: bv64, shift: bv6)
    ensures Xor(k, Lane(0, shift)) == k
  {
  }

  function And(x: bv64, y: bv64): bv64 { x & y }

  lemma OrOfXor(x: bv64, y: bv64)
    ensures Or(x, y) == Or(Xor(x, y), And(x, y))
  {
  }

  lemma OrZero(x: bv64)
    ensures Or(x, 0) == x
  {
  }

  lemma OrIsXor(x: bv64, y: bv64)
    requires And(x, y) == 0
    ensures Or(x, y) == Xor(x, y)
  {
    hide And, Or, Xor;
    OrOfXor(x, y);
    OrZero(Xor(x, y));
  }

  /** No bit below `shift` is set. */
  predicate From(k: bv64, shift: bv6) { k & ((1 << shift) - 1) == 0 }

  lemma LaneBelow(k: bv64, b: byte, shift: bv6)
    requires shift < 56 && From(k, shift + 8)
    ensures And(k, Lane(b, shift)) == 0 && From(Or(k, Lane(b, shift)), shift)
  {
  }

  /** The bytes of a word do not overlap, so it does not matter which operation puts them together. */
  lemma AddLane(k: bv64, b: byte, shift: bv6)
    requires shift < 56 && From(k, shift + 8)
    ensures Or(k, Lane(b, shift)) == Xor(k, Lane(b, shift)) && From(Xor(k, Lane(b, shift)), shift)
  {
    hide From, And, Or, Xor, Lane;
    LaneBelow(k, b, shift);
    OrIsXor(k, Lane(b, shift));
  }

  lemma FirstLane(b: byte)
    ensures Xor(0, Lane(b, 56)) == Lane(b, 56) && From(Lane(b, 56), 56)
  {
  }

  lemma WordIsXor(p: seq<byte>, at: nat)
    requires at + 8 <= |p|
    ensures Word(p, at) ==
      Xor(Xor(Xor(Xor(Xor(Xor(Xor(Xor(0,
        Lane(p[at + 7], 56)), Lane(p[at + 6], 48)), Lane(p[at + 5], 40)), Lane(p[at + 4], 32)),
        Lane(p[at + 3], 24)), Lane(p[at + 2], 16)), Lane(p[at + 1], 8)), Lane(p[at + 0], 0))
  {
    hide From, Or, Xor, Lane;
    var k := Lane(p[at + 7], 56);
    FirstLane(p[at + 7]);
    AddLane(k, p[at + 6], 48);
    k := Xor(k, Lane(p[at + 6], 48));
    AddLane(k, p[at + 5], 40);
    k := Xor(k, Lane(p[at + 5], 40));
    AddLane(k, p[at + 4], 32);
    k := Xor(k, Lane(p[at + 4], 32));
    AddLane(k, p[at + 3], 24);
    k := Xor(k, Lane(p[at + 3], 24));
    AddLane(k, p[at + 2], 16);
    k := Xor(k, Lane(p[at + 2], 16));
    AddLane(k, p[at + 1], 8);
    k := Xor(k, Lane(p[at + 1], 8));
    AddLane(k, p[at], 0);
  }

  /** The upper half of the fall-through switch: bytes 8 to 14 of the tail. */
  method ReadTail2(tail: seq<byte>) returns (k2: bv64)
    requires |tail| < 16
    ensures k2 == Word(Padded(tail), 8)
  {
    hide Word, Xor, Lane;
    var n := |tail|;
    ghost var p := Padded(tail);
    assert forall i :: 0 <= i < n ==> p[i] == p[..n][i] == tail[i];
    k2 := 0;
    EmptyLane(0, 56);
    if n >= 15 { k2 := Xor(k2, Lane(tail[14], 48)); }
    EmptyLane(k2, 48);
    if n >= 14 { k2 := Xor(k2, Lane(tail[13], 40)); }
    EmptyLane(k2, 40);
    if n >= 13 { k2 := Xor(k2, Lane(tail[12], 32)); }
    EmptyLane(k2, 32);
    if n >= 12 { k2 := Xor(k2, Lane(tail[11], 24)); }
    EmptyLane(k2, 24);
    if n >= 11 { k2 := Xor(k2, Lane(tail[10], 16)); }
    EmptyLane(k2, 16);
    if n >= 10 { k2 := Xor(k2, Lane(tail[9], 8)); }
    EmptyLane(k2, 8);
    if n >= 9 { k2 := Xor(k2, Lane(tail[8], 0)); }
    EmptyLane(k2, 0);
    WordIsXor(p, 8);
  }

  /** The lower half of the switch: bytes 0 to 7 of the tail. */
  method ReadTail1(tail: seq<byte>) returns (k1: bv64)
    requires |tail| < 16
    ensures k1 == Word(Padded(tail), 0)
  {
    hide Word, Xor, Lane;
    var n := |tail|;
    ghost var p := Padded(tail);
    assert forall i :: 0 <= i < n ==> p[i] == p[..n][i] == tail[i];
    k1 := 0;
    if n >= 8 { k1 := Xor(k1, Lane(tail[7], 56)); }
    EmptyLane(k1, 56);
    if n >= 7 { k1 := Xor(k1, Lane(tail[6], 48)); }
    EmptyLane(k1, 48);
    if n >= 6 { k1 := Xor(k1, Lane(tail[5], 40)); }
    EmptyLane(k1, 40);
    if n >= 5 { k1 := Xor(k1, Lane(tail[4], 32)); }
    EmptyLane(k1, 32);
    if n >= 4 { k1 := Xor(k1, Lane(tail[3], 24)); }
    EmptyLane(k1, 24);
    if n >= 3 { k1 := Xor(k1, Lane(tail[2], 16)); }
    EmptyLane(k1, 16);
    if n >= 2 { k1 := Xor(k1, Lane(tail[1], 8)); }
    EmptyLane(k1, 8);
    if n >= 1 { k1 := Xor(k1, Lane(tail[0], 0)); }
    EmptyLane(k1, 0);
    WordIsXor(p, 0);
  }

  method X64Hash128(key: seq<byte>, seed: bv32) returns (h1: bv64, h2: bv64)
    requires |key| < 0x8000_0000
    ensures State(h1, h2) == Hash(key, seed)
  {
    hide Word, Padded, Xor, Plus, Affine1, Affine2, TimesC1, TimesC2, Rotl27, Rotl31, Rotl33, Fmix64;
    var nblocks := |key| / 16;
    h1, h2 := seed as bv64, seed as bv64;
    ghost var start := State(h1, h2);
    for i := 0 to nblocks
      invariant State(h1, h2) == Body(key, i, start)
    {
      var k1 := Word(key, 16 * i);
      var k2 := Word(key, 16 * i + 8);
      k1 := TimesC1(k1);
      k1 := Rotl31(k1);
      k1 := TimesC2(k1);
      h1 := Xor(h1, k1);
      h1 := Rotl27(h1);
      h1 := Plus(h1, h2);
      h1 := Affine1(h1);
      k2 := TimesC2(k2);
      k2 := Rotl33(k2);
      k2 := TimesC1(k2);
      h2 := Xor(h2, k2);
      h2 := Rotl31(h2);
      h2 := Plus(h2, h1);
      h2 := Affine2(h2);
    }

    var tail := key[16 * nblocks..];
    AbsentTailIsNeutral(tail, h1, h2);
    // The switch mixes k2 in only when the tail reaches it, and k1 only when there is a tail.
    if |key| % 16 >= 9 {
      var k2 := ReadTail2(tail);
      k2 := TimesC2(k2);
      k2 := Rotl33(k2);
      k2 := TimesC1(k2);
      h2 := Xor(h2, k2);
    }
    if |key| % 16 >= 1 {
      var k1 := ReadTail1(tail);
      k1 := TimesC1(k1);
      k1 := Rotl31(k1);
      k1 := TimesC2(k1);
      h1 := Xor(h1, k1);
    }

    var len := |key| as bv64;
    h1 := Xor(h1, len);
    h2 := Xor(h2, len);
    h1 := Plus(h1, h2);
    h2 := Plus(h2, h1);
    h1 := Fmix64(h1);
    h2 := Fmix64(h2);
    h1 := Plus(h1, h2);
    h2 := Plus(h2, h1);
  }

  /** A tail too short to reach a word contributes nothing to the state. */
  lemma AbsentTailIsNeutral(tail: seq<byte>, h1: bv64, h2: bv64)
    requires |tail| < 16
    ensures |tail| < 9 ==> Xor(h2, Scramble2(Word(Padded(tail), 8))) == h2
    ensures |tail| < 1 ==> Xor(h1, Scramble1(Word(Padded(tail), 0))) == h1
  {
    assert Scramble1(0) == 0 && Scramble2(0) == 0;
  }

  // ----- every value is a hash

  /** A word as bytes, low byte first. */
  function Byte(w: bv64, shift: bv6): byte { ((w >> shift) & 0xff) as byte }

  function Bytes(w: bv64): (b: seq<byte>)
    ensures |b| == 8
  {
    [Byte(w, 0), Byte(w, 8), Byte(w, 16), Byte(w, 24), Byte(w, 32), Byte(w, 40), Byte(w, 48), Byte(w, 56)]
  }

  function Masked(w: bv64, mask: bv64): bv64 { w & mask }

  lemma LaneOfByte(w: bv64, shift: bv6)
    ensures Lane(Byte(w, shift), shift) == Masked(w, (0xff as bv64) << shift)
  {
  }

  lemma OrMasked(w: bv64, x: bv64, y: bv64)
    ensures Or(Masked(w, x), Masked(w, y)) == Masked(w, x | y)
  {
  }

  lemma AllMasked(w: bv64)
    ensures Masked(w, 0xffff_ffff_ffff_ffff) == w
  {
  }

  lemma WordOfBytes(w: bv64)
    ensures Word(Bytes(w), 0) == w
  {
    hide Or, Lane, Byte, Masked;
    LaneOfByte(w, 56);
    LaneOfByte(w, 48);
    LaneOfByte(w, 40);
    LaneOfByte(w, 32);
    LaneOfByte(w, 24);
    LaneOfByte(w, 16);
    LaneOfByte(w, 8);
    LaneOfByte(w, 0);
    OrMasked(w, 0xff00_0000_0000_0000, 0xff_0000_0000_0000);
    OrMasked(w, 0xffff_0000_0000_0000, 0xff00_0000_0000);
    OrMasked(w, 0xffff_ff00_0000_0000, 0xff_0000_0000);
    OrMasked(w, 0xffff_ffff_0000_0000, 0xff00_0000);
    OrMasked(w, 0xffff_ffff_ff00_0000, 0xff_0000);
    OrMasked(w, 0xffff_ffff_ffff_0000, 0xff00);
    OrMasked(w, 0xffff_ffff_ffff_ff00, 0xff);
    AllMasked(w);
  }

  /** The 16-byte key with this hash. */
  function KeyOf(s: State, seed: bv32): (key: seq<byte>)
    ensures |key| == 16
  {
    var block := UnmixBlock(State(seed as bv64, seed as bv64), Unfinish(s, 16));
    Bytes(block.0) + Bytes(block.1)
  }

  /** The hash is onto, already on keys of 16 bytes. */
  lemma Onto(s: State, seed: bv32)
    ensures Hash(KeyOf(s, seed), seed) == s
  {
    hide Word, Mix, Finish, Unfinish, UnmixBlock, Bytes, Scramble1, Scramble2, Xor, Body, Padded;
    var start, target := State(seed as bv64, seed as bv64), Unfinish(s, 16);
    var block, key := UnmixBlock(start, target), KeyOf(s, seed);
    WordsOfKey(block.0, block.1);
    MixBijectiveInBlock(start, target, block.0, block.1);
    FinishBijective(s, 16);
    AbsentTailIsNeutral([], target.h1, target.h2);
    assert key[16..] == [];
    BodyOfOne(key, start);
    assert (|key| as bv64) == 16;
  }

  lemma WordsOfKey(v: bv64, w: bv64)
    ensures var key := Bytes(v) + Bytes(w); Word(key, 0) == v && Word(key, 8) == w
  {
    var key := Bytes(v) + Bytes(w);
    WordOfBytes(v);
    WordOfBytes(w);
    assert forall i :: 0 <= i < 8 ==> key[i] == Bytes(v)[i] && key[8 + i] == Bytes(w)[i];
    hide Bytes;
  }

  lemma BodyOfOne(key: seq<byte>, s: State)
    requires |key| == 16
    ensures Body(key, 1, s) == Mix(s, Word(key, 0), Word(key, 8))
  {
    hide Word, Mix;
    assert Body(key, 0, s) == s;
  }

  // ----- two blocks are not safe

  lemma WordSliced(a: seq<byte>, at: nat)
    requires at + 8 <= |a|
    ensures Word(a, at) == Word(a[at..at + 8], 0)
  {
    hide Or, Lane;
    var w := a[at..at + 8];
    assert w[0] == a[at + 0] && w[1] == a[at + 1] && w[2] == a[at + 2] && w[3] == a[at + 3];
    assert w[4] == a[at + 4] && w[5] == a[at + 5] && w[6] == a[at + 6] && w[7] == a[at + 7];
  }

  /** The words of a block of 16 bytes, wherever it is. */
  lemma WordsSliced(a: seq<byte>, at: nat, block: seq<byte>)
    requires at + 16 <= |a| && a[at..at + 16] == block
    ensures Word(a, at) == Word(block, 0) && Word(a, at + 8) == Word(block, 8)
  {
    hide Word;
    WordSliced(a, at);
    WordSliced(a, at + 8);
    WordSliced(block, 0);
    WordSliced(block, 8);
    assert a[at..at + 8] == block[0..8] && a[at + 8..at + 16] == block[8..16];
  }

  /** The second block that makes up for any change of the first. */
  function SecondBlock(a: seq<byte>, seed: bv32, i: nat, first: seq<byte>): (block: seq<byte>)
    requires 16 * i + 32 <= |a| && |first| == 16
    ensures |block| == 16
  {
    var start := State(seed as bv64, seed as bv64);
    var k := UnmixBlock(Mix(Body(a, i, start), Word(first, 0), Word(first, 8)), Body(a, i + 2, start));
    Bytes(k.0) + Bytes(k.1)
  }

  /** The key `a` with `first` in its block `i`, and the next one chosen to go with it. */
  function Colliding(a: seq<byte>, seed: bv32, i: nat, first: seq<byte>): seq<byte>
    requires 16 * i + 32 <= |a| && |first| == 16
  {
    a[..16 * i] + first + SecondBlock(a, seed, i, first) + a[16 * i + 32..]
  }

  /** What `Colliding` is made of, byte by byte. */
  lemma CollidingAgrees(a: seq<byte>, seed: bv32, i: nat, first: seq<byte>)
    requires 16 * i + 32 <= |a| && |first| == 16
    ensures var b, second := Colliding(a, seed, i, first), SecondBlock(a, seed, i, first);
      && AgreeOutside(a, b, 16 * i, 16 * i + 32) && b[16 * i..16 * i + 16] == first
      && Word(b, 16 * i) == Word(first, 0) && Word(b, 16 * i + 8) == Word(first, 8)
      && Word(b, 16 * i + 16) == Word(second, 0) && Word(b, 16 * i + 24) == Word(second, 8)
  {
    hide Word, SecondBlock;
    var m, b, second := 16 * i, Colliding(a, seed, i, first), SecondBlock(a, seed, i, first);
    assert |b| == |a| && b[m..m + 16] == first && b[m + 16..m + 32] == second;
    WordsSliced(b, m, first);
    WordsSliced(b, m + 16, second);
  }

  lemma BodyRejoins(a: seq<byte>, seed: bv32, i: nat, first: seq<byte>)
    requires 16 * i + 32 <= |a| && |first| == 16
    ensures var b, start := Colliding(a, seed, i, first), State(seed as bv64, seed as bv64);
      |b| == |a| && Body(b, i + 2, start) == Body(a, i + 2, start)
  {
    hide Word, Mix, UnmixBlock, Bytes, Colliding;
    var b, start := Colliding(a, seed, i, first), State(seed as bv64, seed as bv64);
    CollidingAgrees(a, seed, i, first);
    BodyBefore(a, b, i, start);
    var from, to := Mix(Body(a, i, start), Word(first, 0), Word(first, 8)), Body(a, i + 2, start);
    var k := UnmixBlock(from, to);
    WordsOfKey(k.0, k.1);
    MixBijectiveInBlock(from, to, k.0, k.1);
    assert Body(b, i + 1, start) == from;
    assert 16 * (i + 2) - 16 == 16 * i + 16 && 16 * (i + 2) - 8 == 16 * i + 24;
  }

  lemma {:induction false} BodyBefore(a: seq<byte>, b: seq<byte>, n: nat, s: State)
    requires 16 * n <= |a| == |b| && forall j :: 0 <= j < 16 * n ==> a[j] == b[j]
    ensures Body(a, n, s) == Body(b, n, s)
  {
    hide Mix, Word;
    if n > 0 {
      SameWord(a, b, 16 * n - 16);
      SameWord(a, b, 16 * n - 8);
      BodyBefore(a, b, n - 1, s);
    }
  }

  /** From a common state on, equal blocks lead to a common state. */
  lemma {:induction false} BodyStaysEqual(a: seq<byte>, b: seq<byte>, m: nat, n: nat, s: State)
    requires m <= n && 16 * n <= |a| == |b| && forall j :: 16 * m <= j < |a| ==> a[j] == b[j]
    requires Body(a, m, s) == Body(b, m, s)
    ensures Body(a, n, s) == Body(b, n, s)
  {
    hide Mix, Word;
    if m < n {
      SameWord(a, b, 16 * n - 16);
      SameWord(a, b, 16 * n - 8);
      BodyStaysEqual(a, b, m, n - 1, s);
    }
  }

  /** Any change of one block is undone by some change of the next: each key has a collision for every other block. */
  lemma TwoBlocksCollide(a: seq<byte>, seed: bv32, i: nat, first: seq<byte>)
    requires |a| < 0x8000_0000 && 16 * i + 32 <= |a| && |first| == 16
    ensures var b := Colliding(a, seed, i, first);
      && AgreeOutside(a, b, 16 * i, 16 * i + 32) && b[16 * i..16 * i + 16] == first
      && Hash(b, seed) == Hash(a, seed)
  {
    hide Hash, Word, Body, Colliding;
    var b, start := Colliding(a, seed, i, first), State(seed as bv64, seed as bv64);
    CollidingAgrees(a, seed, i, first);
    BodyRejoins(a, seed, i, first);
    SameFrom(a, b, i + 2, seed);
  }

  /** Keys that have led to one state and go on alike have one hash. */
  lemma SameFrom(a: seq<byte>, b: seq<byte>, m: nat, seed: bv32)
    requires 16 * m <= |a| == |b| < 0x8000_0000 && forall j :: 16 * m <= j < |a| ==> a[j] == b[j]
    requires var start := State(seed as bv64, seed as bv64); Body(a, m, start) == Body(b, m, start)
    ensures Hash(a, seed) == Hash(b, seed)
  {
    hide Word, Body, Padded, Absorb, Finish;
    var n := |a| / 16;
    BodyStaysEqual(a, b, m, n, State(seed as bv64, seed as bv64));
    assert a[16 * n..] == b[16 * n..];
  }

  /** Two keys of one length that differ only inside `m` consecutive blocks, from `i` on, and have the same hash. */
  ghost predicate Collision(a: seq<byte>, b: seq<byte>, seed: bv32, i: nat, m: nat)
  {
    && |a| < 0x8000_0000 && 16 * (i + m) <= |a| && AgreeOutside(a, b, 16 * i, 16 * (i + m)) && a != b
    && Hash(a, seed) == Hash(b, seed)
  }

  /** The guarantee for one block is as far as it goes. */
  lemma BlocksApartExactly(m: nat)
    requires 16 * m < 0x8000_0000
    ensures (forall a, b, seed, i :: !Collision(a, b, seed, i, m)) <==> m <= 1
  {
    hide Collision;
    if m <= 1 {
      forall a, b, seed, i ensures !Collision(a, b, seed, i, m) {
        NoCollision(a, b, seed, i, m);
      }
    } else {
      var a, first: seq<byte> := seq(16 * m, _ => 0), seq(16, _ => 1);
      assert a[16 * 0..16 * 0 + 16][0] == 0 && first[0] == 1;
      SomeCollision(a, 0, 0, m, first);
    }
  }

  lemma SameKey(a: seq<byte>, b: seq<byte>, i: nat)
    requires AgreeOutside(a, b, 16 * i, 16 * i)
    ensures a == b
  {
  }

  lemma NoCollision(a: seq<byte>, b: seq<byte>, seed: bv32, i: nat, m: nat)
    requires m <= 1
    ensures !Collision(a, b, seed, i, m)
  {
    hide Hash;
    if Collision(a, b, seed, i, m) {
      if m == 0 {
        SameKey(a, b, i);
      } else {
        OneBlockNoCollision(a, b, seed, i);
      }
    }
  }

  lemma SomeCollision(a: seq<byte>, seed: bv32, i: nat, m: nat, first: seq<byte>)
    requires |a| < 0x8000_0000 && m >= 2 && 16 * (i + m) <= |a|
    requires |first| == 16 && first != a[16 * i..16 * i + 16]
    ensures Collision(a, Colliding(a, seed, i, first), seed, i, m)
  {
    hide Hash, Colliding;
    TwoBlocksCollide(a, seed, i, first);
  }
}
