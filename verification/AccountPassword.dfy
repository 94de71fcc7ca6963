/**
 * The keyed block transform behind the certificate password, the password derivation, and the
 * candidate list the certificate provider tries. The transform has the shape of SM4
 * (GB/T 32907-2016, sections 6 and 7) with injected S-box and round keys.
 */
module AccountPassword {
  import opened Wrappers
  import opened Base64

  const LONGEST := 4096

  /** Parameters that passed the constructor's checks. */
  datatype Resolver = Resolver(rounds: seq<bv32>, sbox: seq<bv8>, fallbacks: seq<string>)

  function NewResolver(roundKeys: seq<int>, sbox: seq<int>, fallbacks: seq<string>): Option<Resolver> {
    if || |roundKeys| != 32 || (exists v <- roundKeys :: !(0 <= v < 0x1_0000_0000))
       || |sbox| != 256 || (exists v <- sbox :: !(0 <= v < 256))
       || |Elements(sbox)| != 256
    then None
    else if |fallbacks| > 6 || exists p <- fallbacks :: |p| > LONGEST then None
    else
      Some(Resolver(seq(32, i requires 0 <= i < 32 => assert roundKeys[i] in roundKeys; roundKeys[i] as bv32),
                    seq(256, i requires 0 <= i < 256 => assert sbox[i] in sbox; sbox[i] as bv8),
                    fallbacks))
  }

  // ----- the block transform

  datatype Words = Words(a: bv32, b: bv32, c: bv32, d: bv32)

  function Reversed(w: Words): Words { Words(w.d, w.c, w.b, w.a) }

  function Xor(x: bv32, y: bv32): bv32 { x ^ y }

  function Rol2(x: bv32): bv32 { (x << 2) | (x >> 30) }

  function Rol10(x: bv32): bv32 { (x << 10) | (x >> 22) }

  function Rol18(x: bv32): bv32 { (x << 18) | (x >> 14) }

  function Rol24(x: bv32): bv32 { (x << 24) | (x >> 8) }

  /** The bytes of a word, most significant first. */
  function Byte3(x: bv32): bv8 { (x >> 24) as bv8 }

  function Byte2(x: bv32): bv8 { ((x >> 16) & 255) as bv8 }

  function Byte1(x: bv32): bv8 { ((x >> 8) & 255) as bv8 }

  function Byte0(x: bv32): bv8 { (x & 255) as bv8 }

  /** Bit `i` of a word, counted from the least significant. */
  function Bit(x: bv32, i: bv32): bv32
    requires i < 32
  {
    (x >> i) & 1
  }

  /** A rotation moves every bit up by its amount, past the top to the bottom. */
  lemma Rol2MovesBits(x: bv32, i: bv32)
    requires i < 32
    ensures Bit(Rol2(x), i) == Bit(x, (i - 2) & 31)
  {
  }

  lemma Rol10MovesBits(x: bv32, i: bv32)
    requires i < 32
    ensures Bit(Rol10(x), i) == Bit(x, (i - 10) & 31)
  {
  }

  lemma Rol18MovesBits(x: bv32, i: bv32)
    requires i < 32
    ensures Bit(Rol18(x), i) == Bit(x, (i - 18) & 31)
  {
  }

  lemma Rol24MovesBits(x: bv32, i: bv32)
    requires i < 32
    ensures Bit(Rol24(x), i) == Bit(x, (i - 24) & 31)
  {
  }

  lemma BitOfXor(x: bv32, y: bv32, i: bv32)
    requires i < 32
    ensures Bit(Xor(x, y), i) == Bit(x, i) ^ Bit(y, i)
  {
  }

  /** Four bytes as one word. Their bits do not meet, so this is also the sum of the shifted bytes. */
  function Pack(a: bv8, b: bv8, c: bv8, d: bv8): bv32 {
    (a as bv32 << 24) | (b as bv32 << 16) | (c as bv32 << 8) | (d as bv32)
  }

  lemma PackIsSum(a: bv8, b: bv8, c: bv8, d: bv8)
    ensures Pack(a, b, c, d)
         == (a as bv32 << 24) + (b as bv32 << 16) + (c as bv32 << 8) + (d as bv32)
  {
  }

  /** The S-box applied to the four bytes of a word. */
  function Substitute(sbox: seq<bv8>, t: bv32): bv32
    requires |sbox| == 256
  {
    Pack(sbox[Byte3(t) as int], sbox[Byte2(t) as int],
         sbox[Byte1(t) as int], sbox[Byte0(t) as int])
  }

  function Diffuse(b: bv32): bv32 {
    Xor(Xor(Xor(Xor(b, Rol2(b)), Rol10(b)), Rol18(b)), Rol24(b))
  }

  /** Bit `i` of a diffused word is the parity of the bits 0, 2, 10, 18 and 24 places below, around the end. */
  lemma DiffusedBits(x: bv32, i: bv32)
    requires i < 32
    ensures Bit(Diffuse(x), i)
         == Bit(x, i) ^ Bit(x, (i - 2) & 31) ^ Bit(x, (i - 10) & 31) ^ Bit(x, (i - 18) & 31) ^ Bit(x, (i - 24) & 31)
  {
    Rol2MovesBits(x, i);
    Rol10MovesBits(x, i);
    Rol18MovesBits(x, i);
    Rol24MovesBits(x, i);
    BitOfXor(x, Rol2(x), i);
    BitOfXor(Xor(x, Rol2(x)), Rol10(x), i);
    BitOfXor(Xor(Xor(x, Rol2(x)), Rol10(x)), Rol18(x), i);
    BitOfXor(Xor(Xor(Xor(x, Rol2(x)), Rol10(x)), Rol18(x)), Rol24(x), i);
  }

  function Mix(sbox: seq<bv8>, t: bv32): bv32
    requires |sbox| == 256
  {
    Diffuse(Substitute(sbox, t))
  }

  /** One round, for any mixing of a word: the Feistel structure does not depend on it. */
  function Round(mix: bv32 -> bv32, w: Words, key: bv32): Words {
    Words(w.b, w.c, w.d, Xor(w.a, mix(Xor(Xor(Xor(w.b, w.c), w.d), key))))
  }

  function Rounds(mix: bv32 -> bv32, w: Words, keys: seq<bv32>): Words
    decreases |keys|
  {
    if keys == [] then w else Rounds(mix, Round(mix, w, keys[0]), keys[1..])
  }

  function Mixing(sbox: seq<bv8>): bv32 -> bv32
    requires |sbox| == 256
  {
    t => Mix(sbox, t)
  }

  function FromBytes(block: seq<bv8>): Words
    requires |block| == 16
  {
    Words(Pack(block[0], block[1], block[2], block[3]), Pack(block[4], block[5], block[6], block[7]),
          Pack(block[8], block[9], block[10], block[11]), Pack(block[12], block[13], block[14], block[15]))
  }

  function BigEndian(x: bv32): (bytes: seq<bv8>)
    ensures |bytes| == 4
  {
    [Byte3(x), Byte2(x), Byte1(x), Byte0(x)]
  }

  function ToBytes(w: Words): (block: seq<bv8>)
    ensures |block| == 16
  {
    BigEndian(w.a) + BigEndian(w.b) + BigEndian(w.c) + BigEndian(w.d)
  }

  /** What `TransformBlock` computes. */
  function Transformed(sbox: seq<bv8>, keys: seq<bv32>, block: seq<bv8>): (out: seq<bv8>)
    requires |sbox| == 256 && |block| == 16
    ensures |out| == 16
  {
    ToBytes(Reversed(Rounds(Mixing(sbox), FromBytes(block), keys)))
  }

  /** The transform as the resolver runs it: one loop over the round keys. */
  method TransformBlock(sbox: seq<bv8>, keys: seq<bv32>, block: seq<bv8>) returns (out: seq<bv8>)
    requires |sbox| == 256 && |block| == 16
    ensures out == Transformed(sbox, keys, block)
  {
    ghost var mix := Mixing(sbox);
    var words := FromBytes(block);
    for i := 0 to |keys|
      invariant Rounds(mix, words, keys[i..]) == Rounds(mix, FromBytes(block), keys)
    {
      var t := Xor(Xor(Xor(words.b, words.c), words.d), keys[i]);
      var next := Xor(words.a, Diffuse(Substitute(sbox, t)));
      words := Words(words.b, words.c, words.d, next);
    }
    out := ToBytes(Reversed(words));
  }

  // ----- inversion by the reversed keys

  function Backwards(keys: seq<bv32>): (back: seq<bv32>)
    ensures |back| == |keys|
    ensures forall i :: 0 <= i < |keys| ==> back[i] == keys[|keys| - 1 - i]
  {
    seq(|keys|, i requires 0 <= i < |keys| => keys[|keys| - 1 - i])
  }

  lemma {:induction false} RoundsAppend(mix: bv32 -> bv32, w: Words, front: seq<bv32>, back: seq<bv32>)
    ensures Rounds(mix, w, front + back) == Rounds(mix, Rounds(mix, w, front), back)
    decreases |front|
  {
    if front == [] {
      assert front + back == back;
    } else {
      assert (front + back)[1..] == front[1..] + back;
      RoundsAppend(mix, Round(mix, w, front[0]), front[1..], back);
    }
  }

  lemma XorAssociates(x: bv32, y: bv32, z: bv32)
    ensures Xor(Xor(x, y), z) == Xor(x, Xor(y, z))
  {
  }

  lemma XorCommutes(x: bv32, y: bv32)
    ensures Xor(x, y) == Xor(y, x)
  {
  }

  lemma MiddleWords(b: bv32, c: bv32, d: bv32)
    ensures Xor(Xor(d, c), b) == Xor(Xor(b, c), d)
  {
    XorCommutes(Xor(d, c), b);
    XorCommutes(d, c);
    XorAssociates(b, c, d);
  }

  lemma XorTwice(x: bv32, y: bv32)
    ensures Xor(Xor(x, y), y) == x
  {
  }

  /** One round with the words and the direction reversed undoes a round. */
  lemma RoundUndone(mix: bv32 -> bv32, w: Words, key: bv32)
    ensures Round(mix, Reversed(Round(mix, w, key)), key) == Reversed(w)
  {
    MiddleWords(w.b, w.c, w.d);
    XorTwice(w.a, mix(Xor(Xor(Xor(w.b, w.c), w.d), key)));
  }

  lemma {:induction false} RoundsUndone(mix: bv32 -> bv32, w: Words, keys: seq<bv32>)
    ensures Rounds(mix, Reversed(Rounds(mix, w, keys)), Backwards(keys)) == Reversed(w)
    decreases |keys|
  {
    if keys != [] {
      var first := Round(mix, w, keys[0]);
      RoundsUndone(mix, first, keys[1..]);
      assert Backwards(keys) == Backwards(keys[1..]) + [keys[0]];
      RoundsAppend(mix, Reversed(Rounds(mix, w, keys)), Backwards(keys[1..]), [keys[0]]);
      RoundUndone(mix, w, keys[0]);
    }
  }

  lemma PackOfBytes(x: bv32)
    ensures Pack(Byte3(x), Byte2(x), Byte1(x), Byte0(x)) == x
  {
  }

  lemma PackedBytes(a: bv8, b: bv8, c: bv8, d: bv8, x: bv32)
    requires x == Pack(a, b, c, d)
    ensures Byte3(x) == a && Byte2(x) == b && Byte1(x) == c && Byte0(x) == d
  {
  }

  lemma BytesOfPack(a: bv8, b: bv8, c: bv8, d: bv8)
    ensures BigEndian(Pack(a, b, c, d)) == [a, b, c, d]
  {
    PackedBytes(a, b, c, d, Pack(a, b, c, d));
  }

  lemma FromToBytes(w: Words)
    ensures FromBytes(ToBytes(w)) == w
  {
    PackOfBytes(w.a);
    PackOfBytes(w.b);
    PackOfBytes(w.c);
    PackOfBytes(w.d);
  }

  lemma ToFromBytes(block: seq<bv8>)
    requires |block| == 16
    ensures ToBytes(FromBytes(block)) == block
  {
    BytesOfPack(block[0], block[1], block[2], block[3]);
    BytesOfPack(block[4], block[5], block[6], block[7]);
    BytesOfPack(block[8], block[9], block[10], block[11]);
    BytesOfPack(block[12], block[13], block[14], block[15]);
    assert block == block[..4] + block[4..8] + block[8..12] + block[12..];
  }

  /** The transform with the round keys reversed is its inverse: any keys, any S-box, any block. */
  lemma TransformIsInverted(sbox: seq<bv8>, keys: seq<bv32>, block: seq<bv8>)
    requires |sbox| == 256 && |block| == 16
    ensures Transformed(sbox, Backwards(keys), Transformed(sbox, keys, block)) == block
  {
    var w := FromBytes(block);
    FromToBytes(Reversed(Rounds(Mixing(sbox), w, keys)));
    RoundsUndone(Mixing(sbox), w, keys);
    ToFromBytes(block);
  }

  // ----- what the transform computes

  /** The bytes of a word are its digits to base 256, the most significant first. */
  lemma BytesAreDigits(x: bv32)
    ensures var b := BigEndian(x);
            (b[0] as bv32 << 24) + (b[1] as bv32 << 16) + (b[2] as bv32 << 8) + (b[3] as bv32) == x
  {
    PackOfBytes(x);
    PackIsSum(Byte3(x), Byte2(x), Byte1(x), Byte0(x));
  }

  /** Each byte of a substituted word is the S-box at the same byte of the word. */
  lemma SubstitutedBytes(sbox: seq<bv8>, t: bv32, k: nat)
    requires |sbox| == 256 && k < 4
    ensures BigEndian(Substitute(sbox, t))[k] == sbox[BigEndian(t)[k] as int]
  {
    BytesOfPack(sbox[Byte3(t) as int], sbox[Byte2(t) as int], sbox[Byte1(t) as int], sbox[Byte0(t) as int]);
  }

  predicate StepAt<T(==)>(next: (T, T, T, T, T) -> T, keys: seq<T>, x: seq<T>, i: nat)
    requires i < |keys| && |x| == |keys| + 4
  {
    x[i + 4] == next(x[i], x[i + 1], x[i + 2], x[i + 3], keys[i])
  }

  /** Each element comes from the four before it and a key. */
  ghost predicate Recurs<T>(next: (T, T, T, T, T) -> T, keys: seq<T>, x: seq<T>) {
    |x| == |keys| + 4 && forall i: nat :: i < |keys| ==> StepAt(next, keys, x, i)
  }

  /** One element after the other, keeping the last four. */
  function Run<T>(next: (T, T, T, T, T) -> T, a: T, b: T, c: T, d: T, keys: seq<T>): (T, T, T, T) {
    if keys == [] then (a, b, c, d) else Run(next, b, c, d, next(a, b, c, d, keys[0]), keys[1..])
  }

  lemma {:induction false} RunRecurs<T>(next: (T, T, T, T, T) -> T, a: T, b: T, c: T, d: T, keys: seq<T>)
    returns (x: seq<T>)
    ensures Recurs(next, keys, x) && x[0] == a && x[1] == b && x[2] == c && x[3] == d
    ensures Run(next, a, b, c, d, keys) == (x[|keys|], x[|keys| + 1], x[|keys| + 2], x[|keys| + 3])
    decreases |keys|
  {
    if keys == [] {
      x := [a, b, c, d];
    } else {
      var rest := RunRecurs(next, b, c, d, next(a, b, c, d, keys[0]), keys[1..]);
      x := [a] + rest;
      forall i: nat | i < |keys| ensures StepAt(next, keys, x, i) {
        if i > 0 {
          assert StepAt(next, keys[1..], rest, i - 1);
        }
      }
    }
  }

  /** The next word: the fourth before it, XORed with the mixed sum of the three between and the key. */
  function NextWord(mix: bv32 -> bv32): (bv32, bv32, bv32, bv32, bv32) -> bv32 {
    (a: bv32, b: bv32, c: bv32, d: bv32, key: bv32) => Xor(a, mix(Xor(Xor(Xor(b, c), d), key)))
  }

  lemma {:induction false} RoundsAreARun(mix: bv32 -> bv32, w: Words, keys: seq<bv32>)
    ensures var end := Rounds(mix, w, keys);
            Run(NextWord(mix), w.a, w.b, w.c, w.d, keys) == (end.a, end.b, end.c, end.d)
    decreases |keys|
  {
    if keys != [] {
      RoundsAreARun(mix, Round(mix, w, keys[0]), keys[1..]);
    }
  }

  /** What a round mixes in is the substituted word, diffused. */
  lemma MixingIs(sbox: seq<bv8>, t: bv32)
    requires |sbox| == 256
    ensures Mixing(sbox)(t) == Diffuse(Substitute(sbox, t))
  {
  }

  /** Word `j` of a block. */
  function WordAt(block: seq<bv8>, j: nat): seq<bv8>
    requires |block| == 16 && j < 4
  {
    block[4 * j..4 * j + 4]
  }

  lemma BytesOfWords(block: seq<bv8>)
    requires |block| == 16
    ensures var w := FromBytes(block);
            && BigEndian(w.a) == WordAt(block, 0) && BigEndian(w.b) == WordAt(block, 1)
            && BigEndian(w.c) == WordAt(block, 2) && BigEndian(w.d) == WordAt(block, 3)
  {
    BytesOfPack(block[0], block[1], block[2], block[3]);
    BytesOfPack(block[4], block[5], block[6], block[7]);
    BytesOfPack(block[8], block[9], block[10], block[11]);
    BytesOfPack(block[12], block[13], block[14], block[15]);
  }

  lemma WordsOfBytes(w: Words)
    ensures WordAt(ToBytes(w), 0) == BigEndian(w.a) && WordAt(ToBytes(w), 1) == BigEndian(w.b)
    ensures WordAt(ToBytes(w), 2) == BigEndian(w.c) && WordAt(ToBytes(w), 3) == BigEndian(w.d)
  {
  }

  /**
   * The transform is the recurrence of GB/T 32907-2016: it starts from the block's four words, takes the keys in
   * order, and gives the last four words in reverse.
   */
  lemma TransformIsTheRecurrence(sbox: seq<bv8>, keys: seq<bv32>, block: seq<bv8>) returns (x: seq<bv32>)
    requires |sbox| == 256 && |block| == 16
    ensures Recurs(NextWord(Mixing(sbox)), keys, x)
    ensures BigEndian(x[0]) == WordAt(block, 0) && BigEndian(x[1]) == WordAt(block, 1)
    ensures BigEndian(x[2]) == WordAt(block, 2) && BigEndian(x[3]) == WordAt(block, 3)
    ensures var n, out := |keys|, Transformed(sbox, keys, block);
            && WordAt(out, 0) == BigEndian(x[n + 3]) && WordAt(out, 1) == BigEndian(x[n + 2])
            && WordAt(out, 2) == BigEndian(x[n + 1]) && WordAt(out, 3) == BigEndian(x[n])
  {
    var mix, w := Mixing(sbox), FromBytes(block);
    var end := Rounds(mix, w, keys);
    x := RunRecurs(NextWord(mix), w.a, w.b, w.c, w.d, keys);
    RoundsAreARun(mix, w, keys);
    BytesOfWords(block);
    WordsOfBytes(Reversed(end));
  }

  // ----- diffusion is a bijection

  lemma Medial(a: bv32, b: bv32, c: bv32, d: bv32)
    ensures Xor(Xor(a, b), Xor(c, d)) == Xor(Xor(a, c), Xor(b, d))
  {
    XorAssociates(Xor(a, b), c, d);
    XorAssociates(Xor(a, c), b, d);
    XorAssociates(a, b, c);
    XorAssociates(a, c, b);
    XorCommutes(b, c);
  }

  lemma Rol2Additive(x: bv32, y: bv32)
    ensures Rol2(Xor(x, y)) == Xor(Rol2(x), Rol2(y))
  {
  }

  lemma Rol10Additive(x: bv32, y: bv32)
    ensures Rol10(Xor(x, y)) == Xor(Rol10(x), Rol10(y))
  {
  }

  lemma Rol18Additive(x: bv32, y: bv32)
    ensures Rol18(Xor(x, y)) == Xor(Rol18(x), Rol18(y))
  {
  }

  lemma Rol24Additive(x: bv32, y: bv32)
    ensures Rol24(Xor(x, y)) == Xor(Rol24(x), Rol24(y))
  {
  }

  lemma DiffuseAdditive(x: bv32, y: bv32)
    ensures Diffuse(Xor(x, y)) == Xor(Diffuse(x), Diffuse(y))
  {
    Rol2Additive(x, y);
    Rol10Additive(x, y);
    Rol18Additive(x, y);
    Rol24Additive(x, y);
    var x2, y2 := Xor(x, Rol2(x)), Xor(y, Rol2(y));
    var x10, y10 := Xor(x2, Rol10(x)), Xor(y2, Rol10(y));
    var x18, y18 := Xor(x10, Rol18(x)), Xor(y10, Rol18(y));
    Medial(x, y, Rol2(x), Rol2(y));
    Medial(x2, y2, Rol10(x), Rol10(y));
    Medial(x10, y10, Rol18(x), Rol18(y));
    Medial(x18, y18, Rol24(x), Rol24(y));
  }

  lemma BytesJoin(x: bv32)
    ensures x == Xor(Xor(Byte3(x) as bv32 << 24, Byte2(x) as bv32 << 16),
                     Xor(Byte1(x) as bv32 << 8, Byte0(x) as bv32))
  {
  }

  /** Three more diffusions and a rotation undo a diffusion, because four make one rotation by eight. */
  function Undiffuse(y: bv32): bv32 {
    Rol24(Diffuse(Diffuse(Diffuse(y))))
  }

  lemma UndiffuseAdditive(x: bv32, y: bv32)
    ensures Undiffuse(Xor(x, y)) == Xor(Undiffuse(x), Undiffuse(y))
  {
    DiffuseAdditive(x, y);
    DiffuseAdditive(Diffuse(x), Diffuse(y));
    DiffuseAdditive(Diffuse(Diffuse(x)), Diffuse(Diffuse(y)));
    Rol24Additive(Diffuse(Diffuse(Diffuse(x))), Diffuse(Diffuse(Diffuse(y))));
  }

  predicate Undone(x: bv32) { Undiffuse(Diffuse(x)) == x }

  predicate Redone(x: bv32) { Diffuse(Undiffuse(x)) == x }

  lemma SumUndone(x: bv32, y: bv32)
    requires Undone(x) && Undone(y)
    ensures Undone(Xor(x, y))
  {
    DiffuseAdditive(x, y);
    UndiffuseAdditive(Diffuse(x), Diffuse(y));
  }

  lemma SumRedone(x: bv32, y: bv32)
    requires Redone(x) && Redone(y)
    ensures Redone(Xor(x, y))
  {
    UndiffuseAdditive(x, y);
    DiffuseAdditive(Undiffuse(x), Undiffuse(y));
  }

  lemma FourUndone(a: bv32, b: bv32, c: bv32, d: bv32)
    requires Undone(a) && Undone(b) && Undone(c) && Undone(d)
    ensures Undone(Xor(Xor(a, b), Xor(c, d)))
  {
    SumUndone(a, b);
    SumUndone(c, d);
    SumUndone(Xor(a, b), Xor(c, d));
  }

  lemma FourRedone(a: bv32, b: bv32, c: bv32, d: bv32)
    requires Redone(a) && Redone(b) && Redone(c) && Redone(d)
    ensures Redone(Xor(Xor(a, b), Xor(c, d)))
  {
    SumRedone(a, b);
    SumRedone(c, d);
    SumRedone(Xor(a, b), Xor(c, d));
  }

  lemma Undone0(b: bv8)
    ensures Undone(b as bv32)
  {
  }

  lemma Undone8(b: bv8)
    ensures Undone(b as bv32 << 8)
  {
  }

  lemma Undone16(b: bv8)
    ensures Undone(b as bv32 << 16)
  {
  }

  lemma Undone24(b: bv8)
    ensures Undone(b as bv32 << 24)
  {
  }

  lemma Redone0(b: bv8)
    ensures Redone(b as bv32)
  {
  }

  lemma Redone8(b: bv8)
    ensures Redone(b as bv32 << 8)
  {
  }

  lemma Redone16(b: bv8)
    ensures Redone(b as bv32 << 16)
  {
  }

  lemma Redone24(b: bv8)
    ensures Redone(b as bv32 << 24)
  {
  }

  lemma AllUndone(x: bv32)
    ensures Undone(x)
  {
    BytesJoin(x);
    Undone24(Byte3(x));
    Undone16(Byte2(x));
    Undone8(Byte1(x));
    Undone0(Byte0(x));
    FourUndone(Byte3(x) as bv32 << 24, Byte2(x) as bv32 << 16, Byte1(x) as bv32 << 8, Byte0(x) as bv32);
  }

  lemma AllRedone(x: bv32)
    ensures Redone(x)
  {
    BytesJoin(x);
    Redone24(Byte3(x));
    Redone16(Byte2(x));
    Redone8(Byte1(x));
    Redone0(Byte0(x));
    FourRedone(Byte3(x) as bv32 << 24, Byte2(x) as bv32 << 16, Byte1(x) as bv32 << 8, Byte0(x) as bv32);
  }

  /** The diffusion of a round is a bijection on words, with `Undiffuse` its inverse. */
  lemma DiffuseIsBijective(x: bv32)
    ensures Undiffuse(Diffuse(x)) == x
    ensures Diffuse(Undiffuse(x)) == x
  {
    AllUndone(x);
    AllRedone(x);
  }

  // ----- the accepted S-box is a permutation, so mixing is a bijection

  lemma EmptyRange(values: set<int>)
    requires forall v <- values :: 0 <= v < 0
    ensures values == {}
  {
    forall v ensures v !in values {}
  }

  lemma {:induction false} FullRange(values: set<int>, bound: nat)
    requires forall v <- values :: 0 <= v < bound
    ensures |values| <= bound
    ensures |values| == bound ==> forall v :: 0 <= v < bound ==> v in values
  {
    if bound == 0 {
      EmptyRange(values);
    } else {
      FullRange(values - {bound - 1}, bound - 1);
    }
  }

  /** An S-box that holds every byte exactly once. */
  ghost predicate Permutation(sbox: seq<bv8>) {
    && |sbox| == 256
    && (forall i, j :: 0 <= i < j < 256 ==> sbox[i] != sbox[j])
    && (forall b: bv8 :: b in sbox)
  }

  /** The constructor's length, range and set-size checks amount to a permutation. */
  lemma AcceptedSboxIsPermutation(roundKeys: seq<int>, sbox: seq<int>, fallbacks: seq<string>)
    requires NewResolver(roundKeys, sbox, fallbacks).Some?
    ensures Permutation(NewResolver(roundKeys, sbox, fallbacks).value.sbox)
  {
    var stored := NewResolver(roundKeys, sbox, fallbacks).value.sbox;
    DistinctBySize(sbox);
    FullRange(Elements(sbox), 256);
    forall i, j | 0 <= i < j < 256 ensures stored[i] != stored[j] {
      assert sbox[i] in sbox && sbox[j] in sbox;
      ByteOfInt(sbox[i]);
      ByteOfInt(sbox[j]);
    }
    forall b: bv8 ensures b in stored {
      assert b as int in Elements(sbox);
      var i :| 0 <= i < 256 && sbox[i] == b as int;
      assert stored[i] == b;
    }
  }

  lemma LookupIsInjective(sbox: seq<bv8>, a: bv8, b: bv8)
    requires Permutation(sbox)
    ensures sbox[a as int] == sbox[b as int] ==> a == b
  {
    IntOfByte(a);
    IntOfByte(b);
  }

  lemma InRange(values: seq<int>, bound: int)
    ensures (exists v <- values :: !(0 <= v < bound)) <==> !(forall i :: 0 <= i < |values| ==> 0 <= values[i] < bound)
  {
    if i :| 0 <= i < |values| && !(0 <= values[i] < bound) {
      assert values[i] in values;
    }
  }

  /** Parameters are accepted exactly if they are in range and the S-box repeats nothing, and kept as they are. */
  lemma AcceptedParametersAreKept(roundKeys: seq<int>, sbox: seq<int>, fallbacks: seq<string>)
    ensures var made := NewResolver(roundKeys, sbox, fallbacks);
            && (made.Some? <==>
                  && |roundKeys| == 32 && (forall i :: 0 <= i < 32 ==> 0 <= roundKeys[i] < 0x1_0000_0000)
                  && |sbox| == 256 && (forall i :: 0 <= i < 256 ==> 0 <= sbox[i] < 256) && Distinct(sbox)
                  && |fallbacks| <= 6 && (forall i :: 0 <= i < |fallbacks| ==> |fallbacks[i]| <= 4096))
            && (made.Some? ==>
                  && |made.value.rounds| == 32
                  && (forall i :: 0 <= i < 32 ==> made.value.rounds[i] == roundKeys[i] as bv32)
                  && |made.value.sbox| == 256
                  && (forall i :: 0 <= i < 256 ==> made.value.sbox[i] == sbox[i] as bv8)
                  && made.value.fallbacks == fallbacks)
  {
    DistinctBySize(sbox);
    InRange(roundKeys, 0x1_0000_0000);
    InRange(sbox, 256);
  }

  lemma SubstituteIsInjective(sbox: seq<bv8>, x: bv32, y: bv32)
    requires Permutation(sbox)
    requires Substitute(sbox, x) == Substitute(sbox, y)
    ensures x == y
  {
    BytesOfPack(sbox[Byte3(x) as int], sbox[Byte2(x) as int],
                sbox[Byte1(x) as int], sbox[Byte0(x) as int]);
    BytesOfPack(sbox[Byte3(y) as int], sbox[Byte2(y) as int],
                sbox[Byte1(y) as int], sbox[Byte0(y) as int]);
    LookupIsInjective(sbox, Byte3(x), Byte3(y));
    LookupIsInjective(sbox, Byte2(x), Byte2(y));
    LookupIsInjective(sbox, Byte1(x), Byte1(y));
    LookupIsInjective(sbox, Byte0(x), Byte0(y));
    PackOfBytes(x);
    PackOfBytes(y);
  }

  lemma LookupIsSurjective(sbox: seq<bv8>, b: bv8) returns (a: bv8)
    requires Permutation(sbox)
    ensures sbox[a as int] == b
  {
    assert b in sbox;
    var i :| 0 <= i < 256 && sbox[i] == b;
    ByteOfInt(i);
    a := i as bv8;
  }

  lemma SubstituteIsSurjective(sbox: seq<bv8>, y: bv32) returns (x: bv32)
    requires Permutation(sbox)
    ensures Substitute(sbox, x) == y
  {
    var a := LookupIsSurjective(sbox, Byte3(y));
    var b := LookupIsSurjective(sbox, Byte2(y));
    var c := LookupIsSurjective(sbox, Byte1(y));
    var d := LookupIsSurjective(sbox, Byte0(y));
    x := Pack(a, b, c, d);
    BytesOfPack(a, b, c, d);
    assert BigEndian(x)[0] == a && BigEndian(x)[1] == b && BigEndian(x)[2] == c && BigEndian(x)[3] == d;
    PackOfBytes(y);
  }

  /** Whether some word mixes to `y`. */
  ghost predicate Reached(sbox: seq<bv8>, y: bv32)
    requires |sbox| == 256
  {
    exists x :: Mix(sbox, x) == y
  }

  /** With an accepted S-box the mixing of a round is a bijection on words. */
  lemma MixIsBijective(sbox: seq<bv8>)
    requires Permutation(sbox)
    ensures forall x, y :: Mix(sbox, x) == Mix(sbox, y) ==> x == y
    ensures forall y: bv32 :: Reached(sbox, y)
  {
    forall x, y | Mix(sbox, x) == Mix(sbox, y) ensures x == y {
      DiffuseIsBijective(Substitute(sbox, x));
      DiffuseIsBijective(Substitute(sbox, y));
      SubstituteIsInjective(sbox, x, y);
    }
    forall y: bv32 ensures Reached(sbox, y) {
      DiffuseIsBijective(y);
      var x := SubstituteIsSurjective(sbox, Undiffuse(y));
      assert Mix(sbox, x) == y;
    }
  }

  lemma XorKeepsApart(x: bv32, y: bv32, z: bv32)
    requires y != z
    ensures Xor(x, y) != Xor(x, z)
  {
    XorTwice(y, x);
    XorTwice(z, x);
    XorCommutes(x, y);
    XorCommutes(x, z);
  }

  /** A round shows its key: another key gives another output word. */
  lemma RoundShowsItsKey(sbox: seq<bv8>, w: Words, k: bv32, other: bv32)
    requires Permutation(sbox) && k != other
    ensures Round(Mixing(sbox), w, k).d != Round(Mixing(sbox), w, other).d
  {
    MixIsBijective(sbox);
    var t := Xor(Xor(w.b, w.c), w.d);
    XorKeepsApart(t, k, other);
    XorKeepsApart(w.a, Mix(sbox, Xor(t, k)), Mix(sbox, Xor(t, other)));
  }

  lemma RoundsKeepApart(mix: bv32 -> bv32, v: Words, w: Words, keys: seq<bv32>)
    requires v != w
    ensures Rounds(mix, v, keys) != Rounds(mix, w, keys)
  {
    RoundsUndone(mix, v, keys);
    RoundsUndone(mix, w, keys);
  }

  lemma OneRoundOut(mix: bv32 -> bv32, w: Words, front: seq<bv32>, k: bv32, back: seq<bv32>)
    ensures Rounds(mix, w, front + [k] + back) == Rounds(mix, Round(mix, Rounds(mix, w, front), k), back)
  {
    assert front + [k] + back == front + ([k] + back);
    RoundsAppend(mix, w, front, [k] + back);
    assert ([k] + back)[1..] == back;
  }

  /** Two schedules that differ in one round key, wherever it stands, differ on every block. */
  lemma OneKeyChangesEveryBlock(sbox: seq<bv8>, front: seq<bv32>, k: bv32, other: bv32,
                                back: seq<bv32>, block: seq<bv8>)
    requires Permutation(sbox) && |block| == 16 && k != other
    ensures Transformed(sbox, front + [k] + back, block) != Transformed(sbox, front + [other] + back, block)
  {
    var w := FromBytes(block);
    var mix := Mixing(sbox);
    var met := Rounds(mix, w, front);
    OneRoundOut(mix, w, front, k, back);
    OneRoundOut(mix, w, front, other, back);
    RoundShowsItsKey(sbox, met, k, other);
    RoundsKeepApart(mix, Round(mix, met, k), Round(mix, met, other), back);
    FromToBytes(Reversed(Rounds(mix, w, front + [k] + back)));
    FromToBytes(Reversed(Rounds(mix, w, front + [other] + back)));
  }

  // ----- the derived password

  /** MD5 as lower-case hexadecimal digits and SHA-256 as bytes; nothing else about them is used. */
  datatype Digests = Digests(md5: string -> string, sha256: string -> seq<bv8>)

  ghost predicate Sound(digests: Digests) {
    && (forall s :: |digests.md5(s)| == 32)
    && (forall s :: |digests.sha256(s)| == 32)
  }

  /** An account identifier as the login data gives it: a number, a text, or something else. */
  datatype Account = Number(n: int) | Name(text: string) | Unusable

  predicate Ascii(text: string) {
    forall c <- text :: c < 128 as char
  }

  /** Python's `text[start::2]`. */
  function EveryOther(text: string, start: nat): string
    decreases |text| - start
  {
    if start < |text| then [text[start]] + EveryOther(text, start + 2) else ""
  }

  lemma {:induction false} EveryOtherAt(text: string, start: nat, i: nat)
    ensures i < |EveryOther(text, start)| <==> start + 2 * i < |text|
    ensures i < |EveryOther(text, start)| ==> EveryOther(text, start)[i] == text[start + 2 * i]
    decreases i
  {
    if i > 0 && start < |text| {
      EveryOtherAt(text, start + 2, i - 1);
    }
  }

  lemma TwelveBytesNeedNoPadding(bytes: seq<bv8>)
    requires |bytes| == 12
    ensures Sextets(bytes) == Quantum(bytes[0], bytes[1], bytes[2]) + Quantum(bytes[3], bytes[4], bytes[5])
                              + Quantum(bytes[6], bytes[7], bytes[8]) + Quantum(bytes[9], bytes[10], bytes[11])
    ensures Encode(bytes, Standard) == Symbols(Sextets(bytes), Standard)
    ensures |Encode(bytes, Standard)| == 16
  {
    var six := bytes[3..];
    assert Sextets(bytes) == Quantum(bytes[0], bytes[1], bytes[2]) + Sextets(six);
    assert Sextets(six) == Quantum(six[0], six[1], six[2]) + Sextets(six[3..]);
    var nine := six[3..];
    assert Sextets(nine) == Quantum(nine[0], nine[1], nine[2]) + Sextets(nine[3..]);
    var last := nine[3..];
    assert Sextets(last) == Quantum(last[0], last[1], last[2]) + Sextets(last[3..]);
    assert last[3..] == [];
  }

  /** The first fifteen symbols of the first twelve transformed bytes. */
  function Password(transformed: seq<bv8>): string
    requires |transformed| == 16
  {
    TwelveBytesNeedNoPadding(transformed[..12]);
    Encode(transformed[..12], Standard)[..15]
  }

  function Derive(r: Resolver, account: Account, uid: string, digests: Digests): Option<string>
    requires |r.sbox| == 256
  {
    if account.Unusable? then None
    else
      var identifier := if account.Number? then Decimal(account.n) else account.text;
      if || identifier == "" || uid == "" || !Ascii(identifier) || !Ascii(uid)
         || |identifier| > LONGEST || |uid| > LONGEST
      then None
      else
        var digest := digests.md5(identifier);
        var hash := digests.sha256(digest + EveryOther(digest, 0) + EveryOther(uid, 1));
        if |hash| < 16 then None
        else Some(Password(Transformed(r.sbox, r.rounds, hash[..16])))
  }

  /** Ninety bits: eleven bytes and the two high bits of the twelfth. */
  predicate SameNinetyBits(x: seq<bv8>, y: seq<bv8>)
    requires |x| == |y| == 16
  {
    x[..11] == y[..11] && x[11] >> 6 == y[11] >> 6
  }

  lemma QuantumIsInjective(a: bv8, b: bv8, c: bv8, x: bv8, y: bv8, z: bv8)
    ensures Quantum(a, b, c) == Quantum(x, y, z) <==> a == x && b == y && c == z
  {
    QuantumBits(a, b, c);
    QuantumBits(x, y, z);
  }

  lemma FirstThree(p: seq<bv8>, q: seq<bv8>)
    requires |p| == |q| == 4
    ensures p[..3] == q[..3] <==> p[0] == q[0] && p[1] == q[1] && p[2] == q[2]
  {
    assert p[..3] == [p[0], p[1], p[2]] && q[..3] == [q[0], q[1], q[2]];
  }

  function LastOfThree(b: bv8, top: bv8): bv8 { ((b & 15) << 2) | top }

  /** The third value of a group holds the high bits of its third byte and nothing else of it. */
  lemma ThirdShowsHighBits(a: bv8, b: bv8, c: bv8)
    ensures Quantum(a, b, c)[2] == LastOfThree(b, c >> 6) && Quantum(a, b, c)[2] & 3 == c >> 6
  {
  }

  /** The first two values of a group do not depend on its third byte. */
  lemma FirstTwoIgnoreThird(a: bv8, b: bv8, c: bv8, z: bv8)
    ensures Quantum(a, b, c)[0] == Quantum(a, b, z)[0] && Quantum(a, b, c)[1] == Quantum(a, b, z)[1]
  {
  }

  lemma SameHighBitsSameThree(a: bv8, b: bv8, c: bv8, z: bv8)
    requires c >> 6 == z >> 6
    ensures Quantum(a, b, c)[..3] == Quantum(a, b, z)[..3]
  {
    FirstThree(Quantum(a, b, c), Quantum(a, b, z));
    FirstTwoIgnoreThird(a, b, c, z);
    ThirdShowsHighBits(a, b, c);
    ThirdShowsHighBits(a, b, z);
  }

  lemma SameThreeSameBytes(a: bv8, b: bv8, c: bv8, x: bv8, y: bv8, z: bv8)
    requires Quantum(a, b, c)[..3] == Quantum(x, y, z)[..3]
    ensures a == x && b == y && c >> 6 == z >> 6
  {
    FirstThree(Quantum(a, b, c), Quantum(x, y, z));
    QuantumBits(a, b, c);
    QuantumBits(x, y, z);
    ThirdShowsHighBits(a, b, c);
    ThirdShowsHighBits(x, y, z);
  }

  lemma ThreeSextets(a: bv8, b: bv8, c: bv8, x: bv8, y: bv8, z: bv8)
    ensures Quantum(a, b, c)[..3] == Quantum(x, y, z)[..3] <==> a == x && b == y && c >> 6 == z >> 6
  {
    if Quantum(a, b, c)[..3] == Quantum(x, y, z)[..3] {
      SameThreeSameBytes(a, b, c, x, y, z);
    }
    if a == x && b == y && c >> 6 == z >> 6 {
      SameHighBitsSameThree(a, b, c, z);
    }
  }

  /** Four groups of four agree on their first fifteen elements when the groups do, the last but for its end. */
  lemma FifteenOfSixteen(a: seq<bv8>, b: seq<bv8>, c: seq<bv8>, d: seq<bv8>,
                         w: seq<bv8>, x: seq<bv8>, y: seq<bv8>, z: seq<bv8>)
    requires |a| == |b| == |c| == |d| == 4 && |w| == |x| == |y| == |z| == 4
    ensures (a + b + c + d)[..15] == (w + x + y + z)[..15]
       <==> a == w && b == x && c == y && d[..3] == z[..3]
  {
    var s, t := a + b + c + d, w + x + y + z;
    assert s[..15] == a + b + c + d[..3] && t[..15] == w + x + y + z[..3];
    assert a == s[..15][..4] && w == t[..15][..4];
    assert b == s[..15][4..8] && x == t[..15][4..8];
    assert c == s[..15][8..12] && y == t[..15][8..12];
    assert d[..3] == s[..15][12..] && z[..3] == t[..15][12..];
  }

  /** If each group shows its own bytes, fifteen elements of four groups show eleven bytes and `end`. */
  lemma Assembled(x: seq<bv8>, y: seq<bv8>, a: seq<bv8>, b: seq<bv8>, c: seq<bv8>, d: seq<bv8>,
                  p: seq<bv8>, q: seq<bv8>, r: seq<bv8>, s: seq<bv8>, end: bool)
    requires |x| == |y| == 12
    requires |a| == |b| == |c| == |d| == 4 && |p| == |q| == |r| == |s| == 4
    requires a == p <==> x[0] == y[0] && x[1] == y[1] && x[2] == y[2]
    requires b == q <==> x[3] == y[3] && x[4] == y[4] && x[5] == y[5]
    requires c == r <==> x[6] == y[6] && x[7] == y[7] && x[8] == y[8]
    requires d[..3] == s[..3] <==> x[9] == y[9] && x[10] == y[10] && end
    ensures (a + b + c + d)[..15] == (p + q + r + s)[..15] <==> x[..11] == y[..11] && end
  {
    FifteenOfSixteen(a, b, c, d, p, q, r, s);
    forall i | 0 <= i < 11 ensures x[..11][i] == x[i] && y[..11][i] == y[i] {}
  }

  lemma FifteenSextets(a: seq<bv8>, b: seq<bv8>)
    requires |a| == |b| == 12
    ensures |Sextets(a)| == |Sextets(b)| == 16
    ensures Sextets(a)[..15] == Sextets(b)[..15] <==> a[..11] == b[..11] && a[11] >> 6 == b[11] >> 6
  {
    TwelveBytesNeedNoPadding(a);
    TwelveBytesNeedNoPadding(b);
    QuantumIsInjective(a[0], a[1], a[2], b[0], b[1], b[2]);
    QuantumIsInjective(a[3], a[4], a[5], b[3], b[4], b[5]);
    QuantumIsInjective(a[6], a[7], a[8], b[6], b[7], b[8]);
    ThreeSextets(a[9], a[10], a[11], b[9], b[10], b[11]);
    Assembled(a, b, Quantum(a[0], a[1], a[2]), Quantum(a[3], a[4], a[5]), Quantum(a[6], a[7], a[8]),
              Quantum(a[9], a[10], a[11]),
              Quantum(b[0], b[1], b[2]), Quantum(b[3], b[4], b[5]), Quantum(b[6], b[7], b[8]),
              Quantum(b[9], b[10], b[11]), a[11] >> 6 == b[11] >> 6);
  }

  /** The password is fifteen symbols and shows exactly the first ninety bits of the transformed block. */
  lemma PasswordShowsNinetyBits(x: seq<bv8>, y: seq<bv8>)
    requires |x| == |y| == 16
    ensures |Password(x)| == 15
    ensures Password(x) == Password(y) <==> SameNinetyBits(x, y)
  {
    var a, b := x[..12], y[..12];
    TwelveBytesNeedNoPadding(a);
    TwelveBytesNeedNoPadding(b);
    var s, t := Sextets(a), Sextets(b);
    assert Password(x) == Symbols(s[..15], Standard) && Password(y) == Symbols(t[..15], Standard);
    SymbolsAreInjective(s[..15], t[..15], Standard);
    FifteenSextets(a, b);
    assert x[..11] == a[..11] && y[..11] == b[..11];
  }

  /**
   * With sound digests a derivation is refused exactly for unusable, empty, overlong or non-ASCII
   * inputs; otherwise it gives fifteen symbols that depend on every other character of the uid only.
   */
  lemma DerivedPassword(r: Resolver, account: Account, uid: string, other: string, digests: Digests)
    requires |r.sbox| == 256 && Sound(digests)
    requires EveryOther(uid, 1) == EveryOther(other, 1)
    ensures Derive(r, account, uid, digests).Some? <==>
            && !account.Unusable? && (account.Name? ==> account.text != "")
            && uid != "" && |uid| <= 4096 && Ascii(uid)
            && var name := if account.Number? then Decimal(account.n) else account.text;
               |name| <= 4096 && Ascii(name)
    ensures Derive(r, account, uid, digests).Some? ==> |Derive(r, account, uid, digests).value| == 15
    ensures Derive(r, account, uid, digests).Some? && Derive(r, account, other, digests).Some? ==>
              Derive(r, account, uid, digests) == Derive(r, account, other, digests)
  {
    if Derive(r, account, uid, digests).Some? {
      var identifier := if account.Number? then Decimal(account.n) else account.text;
      var digest := digests.md5(identifier);
      var hash := digests.sha256(digest + EveryOther(digest, 0) + EveryOther(uid, 1));
      var out := Transformed(r.sbox, r.rounds, hash[..16]);
      PasswordShowsNinetyBits(out, out);
    }
  }

  /** Symbol `i` of the password is that of the standard alphabet for bits `6 * i` to `6 * i + 5` of the block. */
  lemma PasswordSymbols(block: seq<bv8>, i: nat)
    requires |block| == 16 && i < 15
    ensures |Password(block)| == 15
    ensures var k := i / 4 * 3;
            Password(block)[i] == TABLE_1[Quantum(block[k], block[k + 1], block[k + 2])[i % 4] as int]
  {
    var bytes := block[..12];
    TwelveBytesNeedNoPadding(bytes);
    SextetsAreByGroups(bytes, i);
    SymbolsAreTheTables(Sextets(bytes)[i]);
    var k := i / 4 * 3;
    assert k + 2 < 12;
    assert bytes[k] == block[k] && bytes[k + 1] == block[k + 1] && bytes[k + 2] == block[k + 2];
  }

  /** What is hashed for an account and a uid: the digest, every other digit of it, every other character of the uid. */
  ghost predicate IsSource(text: string, digest: string, uid: string) {
    && |text| == |digest| + (|digest| + 1) / 2 + |uid| / 2
    && text[..|digest|] == digest
    && (forall i :: 0 <= i < (|digest| + 1) / 2 ==> text[|digest| + i] == digest[2 * i])
    && (forall i :: 0 <= i < |uid| / 2 ==> text[|digest| + (|digest| + 1) / 2 + i] == uid[2 * i + 1])
  }

  lemma EveryOtherLength(text: string, start: nat)
    requires start <= 1
    ensures |EveryOther(text, start)| == (|text| + 1 - start) / 2
  {
    var n := |EveryOther(text, start)|;
    EveryOtherAt(text, start, n);
    if n > 0 {
      EveryOtherAt(text, start, n - 1);
    }
  }

  lemma SourceOf(digest: string, uid: string)
    ensures IsSource(digest + EveryOther(digest, 0) + EveryOther(uid, 1), digest, uid)
  {
    EveryOtherLength(digest, 0);
    EveryOtherLength(uid, 1);
    forall i | 0 <= i < (|digest| + 1) / 2 ensures EveryOther(digest, 0)[i] == digest[2 * i] {
      EveryOtherAt(digest, 0, i);
    }
    forall i | 0 <= i < |uid| / 2 ensures EveryOther(uid, 1)[i] == uid[2 * i + 1] {
      EveryOtherAt(uid, 1, i);
    }
  }

  /**
   * The password shows the transform, under the resolver's own S-box and keys, of the first half of the SHA-256
   * of that text, where the digest is the MD5 of the account's own name or number.
   */
  lemma WhatIsDerived(r: Resolver, account: Account, uid: string, digests: Digests) returns (text: string)
    requires |r.sbox| == 256 && Sound(digests) && Derive(r, account, uid, digests).Some?
    ensures account.Number? || account.Name?
    ensures IsSource(text, digests.md5(if account.Number? then Decimal(account.n) else account.text), uid)
    ensures Derive(r, account, uid, digests)
         == Some(Password(Transformed(r.sbox, r.rounds, digests.sha256(text)[..16])))
  {
    var digest := digests.md5(if account.Number? then Decimal(account.n) else account.text);
    text := digest + EveryOther(digest, 0) + EveryOther(uid, 1);
    SourceOf(digest, uid);
  }
}
