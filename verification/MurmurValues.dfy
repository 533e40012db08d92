/**
  Values of the 128-bit hash, worked out step by step: the published ones of the pangram and of the
  empty key.  They fix the constants and rotations of `Murmur.Hash`, about which the theorems on
  bijections and collisions say nothing.
*/
module MurmurValues {
  import opened Murmur

  /** "The quick brown fox jumps over the lazy dog" */
  const FOX: seq<byte> := BLOCK1 + BLOCK2 + TAIL
  const BLOCK1: seq<byte> :=
    [0x54, 0x68, 0x65, 0x20, 0x71, 0x75, 0x69, 0x63, 0x6b, 0x20, 0x62, 0x72, 0x6f, 0x77, 0x6e, 0x20]
  const BLOCK2: seq<byte> :=
    [0x66, 0x6f, 0x78, 0x20, 0x6a, 0x75, 0x6d, 0x70, 0x73, 0x20, 0x6f, 0x76, 0x65, 0x72, 0x20, 0x74]
  const TAIL: seq<byte> := [0x68, 0x65, 0x20, 0x6c, 0x61, 0x7a, 0x79, 0x20, 0x64, 0x6f, 0x67]

  const ZERO := State(0, 0)
  const FIRST := State(0x065f54070009580c, 0x1185bfe0bc383732)
  const SECOND := State(0xef7ef36e84b36d66, 0x20112c4dac59411d)

  /** A word of eight bytes, lowest first. */
  function Eight(b0: byte, b1: byte, b2: byte, b3: byte, b4: byte, b5: byte, b6: byte, b7: byte): bv64
  {
    Word([b0, b1, b2, b3, b4, b5, b6, b7], 0)
  }

  lemma EightAre()
    ensures Eight(0x54, 0x68, 0x65, 0x20, 0x71, 0x75, 0x69, 0x63) == 0x6369757120656854
    ensures Eight(0x6b, 0x20, 0x62, 0x72, 0x6f, 0x77, 0x6e, 0x20) == 0x206e776f7262206b
    ensures Eight(0x66, 0x6f, 0x78, 0x20, 0x6a, 0x75, 0x6d, 0x70) == 0x706d756a20786f66
    ensures Eight(0x73, 0x20, 0x6f, 0x76, 0x65, 0x72, 0x20, 0x74) == 0x74207265766f2073
    ensures Eight(0x68, 0x65, 0x20, 0x6c, 0x61, 0x7a, 0x79, 0x20) == 0x20797a616c206568
    ensures Eight(0x64, 0x6f, 0x67, 0x00, 0x00, 0x00, 0x00, 0x00) == 0x676f64
  {
  }

  lemma WordIsEight(data: seq<byte>, at: nat)
    requires at + 8 <= |data|
    ensures Word(data, at) == Eight(data[at], data[at + 1], data[at + 2], data[at + 3],
      data[at + 4], data[at + 5], data[at + 6], data[at + 7])
  {
    hide Or, Lane;
  }

  lemma BlockWords()
    ensures Word(BLOCK1, 0) == 0x6369757120656854 && Word(BLOCK1, 8) == 0x206e776f7262206b
    ensures Word(BLOCK2, 0) == 0x706d756a20786f66 && Word(BLOCK2, 8) == 0x74207265766f2073
  {
    hide Word, Eight;
    EightAre();
    WordIsEight(BLOCK1, 0);
    WordIsEight(BLOCK1, 8);
    WordIsEight(BLOCK2, 0);
    WordIsEight(BLOCK2, 8);
  }

  lemma FoxParts()
    ensures |FOX| == 43 && FOX[0..16] == BLOCK1 && FOX[16..32] == BLOCK2 && FOX[32..] == TAIL
  {
  }

  lemma TailWords()
    ensures Word(Padded(TAIL), 0) == 0x20797a616c206568 && Word(Padded(TAIL), 8) == 0x676f64
  {
    hide Word, Eight;
    var p := Padded(TAIL);
    assert p == [0x68, 0x65, 0x20, 0x6c, 0x61, 0x7a, 0x79, 0x20, 0x64, 0x6f, 0x67, 0, 0, 0, 0, 0];
    EightAre();
    WordIsEight(p, 0);
    WordIsEight(p, 8);
  }

  lemma FirstMix()
    ensures Mix(ZERO, 0x6369757120656854, 0x206e776f7262206b) == FIRST
  {
  }

  lemma SecondMix()
    ensures Mix(FIRST, 0x706d756a20786f66, 0x74207265766f2073) == SECOND
  {
  }

  lemma LastMix()
    ensures Finish(Absorb(SECOND, 0x20797a616c206568, 0x676f64), 43) == State(0xe34bbc7bbc071b6c, 0x7a433ca9c49a9347)
  {
  }

  /** The hash of the pangram: two blocks, both words of the tail, and the finalization. */
  lemma FoxValue()
    ensures |FOX| == 43 && Hash(FOX, 0) == State(0xe34bbc7bbc071b6c, 0x7a433ca9c49a9347)
  {
    hide Word, Mix, Absorb, Finish, Padded, FOX, BLOCK1, BLOCK2, TAIL;
    FoxParts();
    BlockWords();
    TailWords();
    WordsSliced(FOX, 0, BLOCK1);
    WordsSliced(FOX, 16, BLOCK2);
    FirstMix();
    SecondMix();
    LastMix();
    assert Body(FOX, 0, ZERO) == ZERO;
    assert Body(FOX, 1, ZERO) == FIRST;
    assert Body(FOX, 2, ZERO) == SECOND;
    assert (|FOX| as bv64) == 43;
  }

  lemma SeedFinished()
    ensures Finish(State(1, 1), 0) == State(0x4610abe56eff5cb5, 0x51622daa78f83583)
  {
  }

  /** The hash of the empty key is the seed finalized. */
  lemma EmptyValue()
    ensures Hash([], 1) == State(0x4610abe56eff5cb5, 0x51622daa78f83583)
  {
    hide Word, Absorb, Finish, Padded, Xor, Scramble1, Scramble2;
    var none: seq<byte> := [];
    assert none[0..] == none;
    AbsentTailIsNeutral(none, 1, 1);
    AbsorbNothing(Word(Padded(none), 0), Word(Padded(none), 8));
    SeedFinished();
  }

  lemma AbsorbNothing(k1: bv64, k2: bv64)
    requires Xor(1, Scramble1(k1)) == 1 && Xor(1, Scramble2(k2)) == 1
    ensures Absorb(State(1, 1), k1, k2) == State(1, 1)
  {
    hide Xor, Scramble1, Scramble2;
  }
}
