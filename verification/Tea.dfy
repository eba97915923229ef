/** The Tiny Encryption Algorithm: a Feistel cipher on two 32-bit words, undone round by round. */
module Tea {
  const DELTA: bv32 := 0x9E37_79B9
  const ROUNDS: nat := 32

  datatype Block = Block(y: bv32, z: bv32)

  function TeaFunc(x: bv32, sum: bv32, k0: bv32, k1: bv32): bv32 {
    ((x << 4) + k0) ^ (x + sum) ^ ((x >> 5) + k1)
  }

  /** Each part of the round function by itself: the key words and the sum on an empty word, then the
      word shifted up by four and down by five, on a sum that cancels it. */
  lemma RoundFunctionOfNothing(sum: bv32, k0: bv32, k1: bv32)
    ensures TeaFunc(0, sum, k0, k1) == k0 ^ sum ^ k1
  {
  }

  lemma RoundFunctionShifts(x: bv32)
    ensures TeaFunc(x, -x, 0, 0) == (x << 4) ^ (x >> 5)
  {
  }

  lemma RoundFunctionKeys(x: bv32, k0: bv32, k1: bv32)
    ensures TeaFunc(x, -x, -(x << 4), k1) == (x >> 5) + k1
    ensures TeaFunc(x, -x, k0, -(x >> 5)) == (x << 4) + k0
  {
  }

  function Plus(a: bv32, b: bv32): bv32 { a + b }

  function Minus(a: bv32, b: bv32): bv32 { a - b }

  lemma PlusMinus(a: bv32, b: bv32)
    ensures Minus(Plus(a, b), b) == a && Plus(Minus(a, b), b) == a
  {
    assert Minus(a + b, b) == a;
    assert Plus(a - b, b) == a;
  }

  /** The words as the cipher uses them: byte-swapped on a big-endian processor. */
  function Le32(bigEndian: bool, x: bv32): bv32 {
    if bigEndian then
      (x << 24) | ((x << 8) & 0xFF_0000) | ((x >> 8) & 0xFF00) | (x >> 24)
    else x
  }

  /** On a big-endian processor the four bytes change places end for end. */
  lemma Le32Reverses(x: bv32)
    ensures Le32(true, x) >> 24 == x & 0xFF && Le32(true, x) & 0xFF == x >> 24
    ensures (Le32(true, x) >> 16) & 0xFF == (x >> 8) & 0xFF && (Le32(true, x) >> 8) & 0xFF == (x >> 16) & 0xFF
    ensures Le32(false, x) == x
  {
  }

  lemma Le32Twice(bigEndian: bool, x: bv32)
    ensures Le32(bigEndian, Le32(bigEndian, x)) == x
  {
  }

  /** Key words in processor order after conversion. */
  datatype Key = Key(k0: bv32, k1: bv32, k2: bv32, k3: bv32)

  function EncRound(b: Block, sum: bv32, k: Key): Block {
    var y := Plus(b.y, TeaFunc(b.z, sum, k.k0, k.k1));
    Block(y, Plus(b.z, TeaFunc(y, sum, k.k2, k.k3)))
  }

  function DecRound(b: Block, sum: bv32, k: Key): Block {
    var z := Minus(b.z, TeaFunc(b.y, sum, k.k2, k.k3));
    Block(Minus(b.y, TeaFunc(z, sum, k.k0, k.k1)), z)
  }

  /** One round on given words, from the sum of the first: key words 0 and 1 go into y, 2 and 3 into z. */
  lemma FirstRound()
    ensures EncRound(Block(0x0123_4567, 0x89AB_CDEF), DELTA, Key(0x0011_2233, 0x4455_6677, 0x8899_AABB, 0xCCDD_EEFF))
         == Block(0xF6B2_C7D4, 0x3D6B_B13A)
  {
  }

  /** The running sum after n rounds: n times DELTA, wrapped to 32 bits. */
  function Sum(n: nat): bv32 {
    if n == 0 then 0 else Plus(Sum(n - 1), DELTA)
  }

  function Encrypt(b: Block, k: Key, n: nat): Block {
    if n == 0 then b else EncRound(Encrypt(b, k, n - 1), Sum(n), k)
  }

  /** n rounds backwards, from the sum that n rounds forward end with. */
  function Decrypt(b: Block, k: Key, n: nat): Block
    decreases n
  {
    if n == 0 then b else Decrypt(DecRound(b, Sum(n), k), k, n - 1)
  }

  lemma RoundUndone(b: Block, sum: bv32, k: Key)
    ensures DecRound(EncRound(b, sum, k), sum, k) == b
    ensures EncRound(DecRound(b, sum, k), sum, k) == b
  {
    var y := Plus(b.y, TeaFunc(b.z, sum, k.k0, k.k1));
    PlusMinus(b.y, TeaFunc(b.z, sum, k.k0, k.k1));
    PlusMinus(b.z, TeaFunc(y, sum, k.k2, k.k3));
    var z := Minus(b.z, TeaFunc(b.y, sum, k.k2, k.k3));
    PlusMinus(b.z, TeaFunc(b.y, sum, k.k2, k.k3));
    PlusMinus(b.y, TeaFunc(z, sum, k.k0, k.k1));
  }

  /** For every key, block and number of rounds, each direction undoes the other. */
  lemma {:induction false} DecryptEncrypt(b: Block, k: Key, n: nat)
    ensures Decrypt(Encrypt(b, k, n), k, n) == b
  {
    if n == 0 {
    } else {
      RoundUndone(Encrypt(b, k, n - 1), Sum(n), k);
      DecryptEncrypt(b, k, n - 1);
    }
  }

  lemma {:induction false} EncryptDecrypt(b: Block, k: Key, n: nat)
    ensures Encrypt(Decrypt(b, k, n), k, n) == b
    decreases n
  {
    if n == 0 {
    } else {
      EncryptDecrypt(DecRound(b, Sum(n), k), k, n - 1);
      RoundUndone(b, Sum(n), k);
    }
  }

  /** n as a 32-bit word: n times 1, wrapped. */
  function Word(n: nat): bv32 {
    if n == 0 then 0 else Plus(Word(n - 1), 1)
  }

  function Multiple(c: bv32): bv32 { DELTA * c }

  lemma NextMultiple(c: bv32)
    ensures Multiple(c + 1) == Multiple(c) + DELTA && Multiple(0) == 0
  {
  }

  lemma PlusIs(a: bv32, b: bv32)
    ensures Plus(a, b) == a + b
  {
  }

  lemma MultiplePlus(c: bv32)
    ensures Multiple(Plus(c, 1)) == Plus(Multiple(c), DELTA) && Multiple(0) == 0
  {
    hide Multiple, Plus;
    NextMultiple(c);
    PlusIs(c, 1);
    PlusIs(Multiple(c), DELTA);
  }

  /** The sum after any number of rounds is that multiple of DELTA, in 32-bit arithmetic. */
  lemma {:induction false} SumIsMultiple(n: nat)
    ensures Sum(n) == Multiple(Word(n))
  {
    hide Multiple, Plus;
    if n == 0 {
      MultiplePlus(0);
    } else {
      SumIsMultiple(n - 1);
      MultiplePlus(Word(n - 1));
    }
  }

  /** Decryption starts from the sum that encryption ends with. */
  lemma DecryptionSum()
    ensures Sum(ROUNDS) == DELTA * 32
  {
    assert Sum(8) == DELTA * 8;
    assert Sum(16) == DELTA * 16;
    assert Sum(24) == DELTA * 24;
  }

  /** Four rounds from the sum before them. */
  function FourRounds(b: Block, sum: bv32, k: Key): Block {
    var two := EncRound(EncRound(b, Plus(sum, DELTA), k), Plus(Plus(sum, DELTA), DELTA), k);
    var next := Plus(Plus(Plus(sum, DELTA), DELTA), DELTA);
    EncRound(EncRound(two, next, k), Plus(next, DELTA), k)
  }

  lemma FourRoundsOn(b: Block, k: Key, n: nat)
    ensures Encrypt(b, k, n + 4) == FourRounds(Encrypt(b, k, n), Sum(n), k)
    ensures Sum(n + 4) == Plus(Plus(Plus(Plus(Sum(n), DELTA), DELTA), DELTA), DELTA)
  {
    hide Plus, EncRound;
    assert Sum(n + 3) == Plus(Sum(n + 2), DELTA);
    assert Encrypt(b, k, n + 3) == EncRound(Encrypt(b, k, n + 2), Sum(n + 3), k);
    assert Encrypt(b, k, n + 4) == EncRound(Encrypt(b, k, n + 3), Sum(n + 4), k);
  }

  lemma ZerosHalfWay()
    ensures Encrypt(Block(0, 0), Key(0, 0, 0, 0), 16) == Block(0xA889_F798, 0x182D_8083)
    ensures Sum(16) == 0xE377_9B90
  {
    var b, k := Block(0, 0), Key(0, 0, 0, 0);
    assert Encrypt(b, k, 0) == b && Sum(0) == 0;
    FourRoundsOn(b, k, 0);
    FourRoundsOn(b, k, 4);
    FourRoundsOn(b, k, 8);
    FourRoundsOn(b, k, 12);
    hide Encrypt, Sum;
    assert Encrypt(b, k, 4) == Block(0x420A_1097, 0xBEC5_A929);
    assert Encrypt(b, k, 8) == Block(0xED28_5DA1, 0x455B_33C1);
    assert Encrypt(b, k, 12) == Block(0x39B4_B21B, 0xE032_5966);
  }

  /** A known answer of the whole cipher: the block of zeros under the key of zeros. */
  lemma ZerosEncrypt()
    ensures Encrypt(Block(0, 0), Key(0, 0, 0, 0), ROUNDS) == Block(0x41EA_3A0A, 0x94BA_A940)
  {
    hide Encrypt, Sum;
    var b, k := Block(0, 0), Key(0, 0, 0, 0);
    ZerosHalfWay();
    FourRoundsOn(b, k, 16);
    FourRoundsOn(b, k, 20);
    FourRoundsOn(b, k, 24);
    FourRoundsOn(b, k, 28);
    assert Encrypt(b, k, 20) == Block(0x4231_F59F, 0xFFF8_2958);
    assert Encrypt(b, k, 24) == Block(0x2AB2_3274, 0xF046_037B);
    assert Encrypt(b, k, 28) == Block(0x546C_3C69, 0x096A_4D61);
  }

  // ---- the routines -----------------------------------------------------------------------------

  function BlockOf(bigEndian: bool, v: seq<bv32>): Block
    requires |v| == 2
  {
    Block(Le32(bigEndian, v[0]), Le32(bigEndian, v[1]))
  }

  function KeyOf(bigEndian: bool, k: seq<bv32>): Key
    requires |k| == 4
  {
    Key(Le32(bigEndian, k[0]), Le32(bigEndian, k[1]), Le32(bigEndian, k[2]), Le32(bigEndian, k[3]))
  }

  function Words(bigEndian: bool, b: Block): (v: seq<bv32>)
    ensures |v| == 2
  {
    [Le32(bigEndian, b.y), Le32(bigEndian, b.z)]
  }

  lemma WordsOfBlock(bigEndian: bool, b: Block)
    ensures BlockOf(bigEndian, Words(bigEndian, b)) == b
  {
    Le32Twice(bigEndian, b.y);
    Le32Twice(bigEndian, b.z);
  }

  lemma BlockOfWords(bigEndian: bool, v: seq<bv32>)
    requires |v| == 2
    ensures Words(bigEndian, BlockOf(bigEndian, v)) == v
  {
    Le32Twice(bigEndian, v[0]);
    Le32Twice(bigEndian, v[1]);
  }

  /** What `n` rounds of encryption make of the memory of a block. */
  function EncryptWords(bigEndian: bool, v: seq<bv32>, k: seq<bv32>, n: nat): (w: seq<bv32>)
    requires |v| == 2 && |k| == 4
    ensures |w| == 2
  {
    Words(bigEndian, Encrypt(BlockOf(bigEndian, v), KeyOf(bigEndian, k), n))
  }

  function DecryptWords(bigEndian: bool, v: seq<bv32>, k: seq<bv32>, n: nat): (w: seq<bv32>)
    requires |v| == 2 && |k| == 4
    ensures |w| == 2
  {
    Words(bigEndian, Decrypt(BlockOf(bigEndian, v), KeyOf(bigEndian, k), n))
  }

  /** Encryption followed by decryption leaves the memory of the block as it was, and conversely,
      on processors of either byte order. */
  lemma TeaRoundTrip(bigEndian: bool, v: seq<bv32>, k: seq<bv32>, n: nat)
    requires |v| == 2 && |k| == 4
    ensures DecryptWords(bigEndian, EncryptWords(bigEndian, v, k, n), k, n) == v
    ensures EncryptWords(bigEndian, DecryptWords(bigEndian, v, k, n), k, n) == v
  {
    var key, b := KeyOf(bigEndian, k), BlockOf(bigEndian, v);
    DecryptEncrypt(b, key, n);
    EncryptDecrypt(b, key, n);
    WordsOfBlock(bigEndian, Encrypt(b, key, n));
    WordsOfBlock(bigEndian, Decrypt(b, key, n));
    BlockOfWords(bigEndian, v);
  }

  /** Encrypts the block in place. */
  method TeaEnc(bigEndian: bool, v: array<bv32>, k: array<bv32>)
    requires v.Length == 2 && k.Length == 4
    modifies v
    ensures v[..] == EncryptWords(bigEndian, old(v[..]), old(k[..]), ROUNDS)
  {
    hide TeaFunc, Plus, Le32;
    ghost var b, key := BlockOf(bigEndian, v[..]), KeyOf(bigEndian, k[..]);
    var y, z := Le32(bigEndian, v[0]), Le32(bigEndian, v[1]);
    var k0, k1 := Le32(bigEndian, k[0]), Le32(bigEndian, k[1]);
    var k2, k3 := Le32(bigEndian, k[2]), Le32(bigEndian, k[3]);
    assert key == Key(k0, k1, k2, k3);
    var sum: bv32 := 0;
    var n := ROUNDS;
    while n > 0
      invariant 0 <= n <= ROUNDS && sum == Sum(ROUNDS - n)
      invariant Block(y, z) == Encrypt(b, key, ROUNDS - n)
    {
      n := n - 1;
      sum := Plus(sum, DELTA);
      y := Plus(y, TeaFunc(z, sum, k0, k1));
      z := Plus(z, TeaFunc(y, sum, k2, k3));
    }
    Store(bigEndian, v, y, z);
  }

  /** Decrypts the block in place. */
  method TeaDec(bigEndian: bool, v: array<bv32>, k: array<bv32>)
    requires v.Length == 2 && k.Length == 4
    modifies v
    ensures v[..] == DecryptWords(bigEndian, old(v[..]), old(k[..]), ROUNDS)
  {
    hide TeaFunc, Plus, Minus, Le32;
    ghost var b, key := BlockOf(bigEndian, v[..]), KeyOf(bigEndian, k[..]);
    var y, z := Le32(bigEndian, v[0]), Le32(bigEndian, v[1]);
    var k0, k1 := Le32(bigEndian, k[0]), Le32(bigEndian, k[1]);
    var k2, k3 := Le32(bigEndian, k[2]), Le32(bigEndian, k[3]);
    assert key == Key(k0, k1, k2, k3);
    var sum: bv32 := DELTA * 32;
    DecryptionSum();
    var n := ROUNDS;
    while n > 0
      invariant 0 <= n <= ROUNDS && sum == Sum(n)
      invariant Decrypt(Block(y, z), key, n) == Decrypt(b, key, ROUNDS)
    {
      PlusMinus(Sum(n - 1), DELTA);
      n := n - 1;
      z := Minus(z, TeaFunc(y, sum, k2, k3));
      y := Minus(y, TeaFunc(z, sum, k0, k1));
      sum := Minus(sum, DELTA);
    }
    Store(bigEndian, v, y, z);
  }

  method Store(bigEndian: bool, v: array<bv32>, y: bv32, z: bv32)
    requires v.Length == 2
    modifies v
    ensures v[..] == Words(bigEndian, Block(y, z))
  {
    v[0] := Le32(bigEndian, y);
    v[1] := Le32(bigEndian, z);
  }
}
