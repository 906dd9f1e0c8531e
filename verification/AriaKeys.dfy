/** The key schedule of ARIA, aria.c and section 2.2 of RFC 5794. */
module AriaKeys {
  import opened AriaField
  import opened Aria

  const BAD_INPUT_DATA := -0x005c

  // ---- words of a block ----

  /** ARIA_P3, the word as a big-endian number. */
  function Big(w: Word): bv32 {
    ((w.b0 as bv32) << 24) | ((w.b1 as bv32) << 16) | ((w.b2 as bv32) << 8) | (w.b3 as bv32)
  }

  /** And back. */
  function FromBig(v: bv32): Word {
    Word((v >> 24) as bv8, ((v >> 16) & 0xff) as bv8, ((v >> 8) & 0xff) as bv8, (v & 0xff) as bv8)
  }

  lemma BigBack(v: bv32)
    ensures Big(FromBig(v)) == v
  {
  }

  function WordAt(x: Block, j: bv32): Word {
    if j == 0 then x.a else if j == 1 then x.b else if j == 2 then x.c else x.d
  }

  /** Bit q of a word, the lowest one first. */
  function BitOf(v: bv32, q: bv32): bv32
    requires q < 32
  {
    (v >> q) & 1
  }

  /** Bit p of a block, counted from the highest bit of its first byte. */
  function BlockBit(x: Block, p: bv32): bv32
    requires p < 128
  {
    BitOf(Big(WordAt(x, p >> 5)), 31 - (p & 31))
  }

  // ---- rotation ----

  function Left(t: bv32, n: bv32): bv32
    requires n < 32
  {
    t << n
  }

  function Right(t: bv32, n: bv32): bv32
    requires n < 32
  {
    t >> n
  }

  function Or(x: bv32, y: bv32): bv32 {
    x | y
  }

  /** The low bits of one word and the high bits of the next one. For n1 = 0 these are all bits of both. */
  function Shifted(t: bv32, u: bv32, n1: bv32): bv32
    requires n1 < 32
  {
    Or(Left(t, n1), Right(u, if n1 != 0 then 32 - n1 else 0))
  }

  /** Word k of a block rotated to the left by n bits, as aria_rot128 puts it together. */
  function RotatedWord(b: Block, n: bv32, k: bv32): Word {
    var j := (n >> 5) + k;
    FromBig(Shifted(Big(WordAt(b, j & 3)), Big(WordAt(b, (j + 1) & 3)), n & 31))
  }

  function Rotated(b: Block, n: bv32): Block {
    Block(RotatedWord(b, n, 0), RotatedWord(b, n, 1), RotatedWord(b, n, 2), RotatedWord(b, n, 3))
  }

  lemma ShiftLeft(t: bv32, n: bv32, q: bv32)
    requires n < 32 && q < 32
    ensures ((t << n) >> q) & 1 == if q < n then 0 else (t >> (q - n)) & 1
  {
  }

  lemma BitLeft(t: bv32, n: bv32, q: bv32)
    requires n < 32 && q < 32
    ensures BitOf(Left(t, n), q) == if q < n then 0 else BitOf(t, q - n)
  {
    ShiftLeft(t, n, q);
  }

  lemma ShiftRight(t: bv32, n: bv32, q: bv32)
    requires n < 32 && q < 32
    ensures ((t >> n) >> q) & 1 == if n < 32 - q then (t >> (q + n)) & 1 else 0
  {
  }

  lemma BitRight(t: bv32, n: bv32, q: bv32)
    requires n < 32 && q < 32
    ensures BitOf(Right(t, n), q) == if n < 32 - q then BitOf(t, q + n) else 0
  {
    ShiftRight(t, n, q);
  }

  lemma BitOr(x: bv32, y: bv32, q: bv32)
    requires q < 32
    ensures BitOf(Or(x, y), q) == Or(BitOf(x, q), BitOf(y, q))
  {
    // bit by bit
    if q & 0x01 != 0 {} if q & 0x02 != 0 {} if q & 0x04 != 0 {} if q & 0x08 != 0 {} if q & 0x10 != 0 {}
  }

  lemma OrZero(x: bv32)
    ensures Or(x, 0) == x && Or(0, x) == x
  {
  }

  lemma ShiftedBit(t: bv32, u: bv32, n1: bv32, q: bv32)
    requires 0 < n1 < 32 && q < 32
    ensures BitOf(Shifted(t, u, n1), q) == if q >= n1 then BitOf(t, q - n1) else BitOf(u, q + (32 - n1))
  {
    hide BitOf, Left, Right, Or;
    var x, y := Left(t, n1), Right(u, 32 - n1);
    BitOr(x, y, q);
    BitLeft(t, n1, q);
    BitRight(u, 32 - n1, q);
    OrZero(BitOf(x, q));
    OrZero(BitOf(y, q));
  }

  /** A bit of the rotated word k is one of word j + k or of the one behind it. */
  lemma RotatedBit(b: Block, n: bv32, k: bv32, q: bv32)
    requires n & 31 != 0 && q < 32
    ensures
      var j, n1 := (n >> 5) + k, n & 31;
      BitOf(Big(RotatedWord(b, n, k)), q) ==
        if q >= n1 then BitOf(Big(WordAt(b, j & 3)), q - n1) else BitOf(Big(WordAt(b, (j + 1) & 3)), q + (32 - n1))
  {
    hide BitOf, Shifted, Big, FromBig, WordAt;
    var j, n1 := (n >> 5) + k, n & 31;
    var t, u := Big(WordAt(b, j & 3)), Big(WordAt(b, (j + 1) & 3));
    BigBack(Shifted(t, u, n1));
    ShiftedBit(t, u, n1, q);
  }

  /** Where a bit comes from. */
  lemma Source(n: bv32, p: bv32)
    requires n & 31 != 0 && n < 256 && p < 128
    ensures
      var j, n1, q, r := (n >> 5) + (p >> 5), n & 31, 31 - (p & 31), (p + n) & 127;
      if q >= n1 then r >> 5 == j & 3 && 31 - (r & 31) == q - n1
      else r >> 5 == (j + 1) & 3 && 31 - (r & 31) == q + (32 - n1)
  {
  }

  lemma RotatedAt(b: Block, n: bv32, p: bv32)
    requires p < 128
    ensures WordAt(Rotated(b, n), p >> 5) == RotatedWord(b, n, p >> 5)
  {
    hide RotatedWord;
    assert p >> 5 < 4;
  }

  /** Unless n is a multiple of 32, bit p of the rotated block is bit p + n of the block, for all 128 bits. */
  lemma RotatesLeft(b: Block, n: bv32, p: bv32)
    requires n & 31 != 0 && n < 256 && p < 128
    ensures BlockBit(Rotated(b, n), p) == BlockBit(b, (p + n) & 127)
  {
    hide BitOf, Big, WordAt, RotatedWord, Rotated;
    RotatedAt(b, n, p);
    RotatedBit(b, n, p >> 5, 31 - (p & 31));
    Source(n, p);
  }

  /** A block whose word j is zero, all others being ones. */
  function ZeroAt(j: bv32): Block {
    var zero, ones := Word(0, 0, 0, 0), Word(0xff, 0xff, 0xff, 0xff);
    Block(if j == 0 then zero else ones, if j == 1 then zero else ones,
          if j == 2 then zero else ones, if j == 3 then zero else ones)
  }

  lemma NotRotated(n: bv32)
    requires n & 31 == 0 && n < 256
    ensures BlockBit(Rotated(ZeroAt((n >> 5) & 3), n), 0) != BlockBit(ZeroAt((n >> 5) & 3), n & 127)
  {
    hide BitOf, Shifted, Big, FromBig;
    var j := (n >> 5) & 3;
    var b := ZeroAt(j);
    assert n & 127 == j << 5 && (n & 127) >> 5 == j && (n & 127) & 31 == 0;
    assert WordAt(b, j) == Word(0, 0, 0, 0) && WordAt(b, (j + 1) & 3) == Word(0xff, 0xff, 0xff, 0xff);
    assert ((n >> 5) + 0) & 3 == j && ((n >> 5) + 0 + 1) & 3 == (j + 1) & 3;
    BigBack(Shifted(0, 0xffff_ffff, 0));
    Ends();
    RotatedAt(b, n, 0);
  }

  lemma Ends()
    ensures Big(Word(0, 0, 0, 0)) == 0 && Big(Word(0xff, 0xff, 0xff, 0xff)) == 0xffff_ffff
    ensures Shifted(0, 0xffff_ffff, 0) == 0xffff_ffff && BitOf(0xffff_ffff, 31) == 1 && BitOf(0, 31) == 0
  {
  }

  /** The words are put together right exactly when n is not a multiple of 32, and it never is one. */
  lemma RotatesExactly(n: bv32)
    requires n < 256
    ensures n & 31 != 0 <==>
      forall b: Block, p: bv32 | p < 128 :: BlockBit(Rotated(b, n), p) == BlockBit(b, (p + n) & 127)
  {
    hide BlockBit, Rotated;
    if n & 31 != 0 {
      forall b: Block, p: bv32 | p < 128
        ensures BlockBit(Rotated(b, n), p) == BlockBit(b, (p + n) & 127)
      {
        RotatesLeft(b, n, p);
      }
    } else {
      NotRotated(n);
      assert (0 + n) & 127 == n & 127;
    }
  }

  /** aria_rot128: a and the other block rotated, added up. */
  method Rot128(a: Block, b: Block, n: bv32) returns (r: Block)
    requires n < 256
    ensures r == Xor(a, Rotated(b, n))
  {
    hide Big, FromBig, Shifted, XorW;
    var n1 := n & 31;
    var j := (n >> 5) & 3;
    ghost var first := j;
    var t := Big(WordAt(b, j));
    r := a;
    var i: bv32 := 0;
    while i < 4
      invariant i <= 4 && j == (first + i) & 3 && t == Big(WordAt(b, j))
      invariant r.a == if i > 0 then XorW(a.a, RotatedWord(b, n, 0)) else a.a
      invariant r.b == if i > 1 then XorW(a.b, RotatedWord(b, n, 1)) else a.b
      invariant r.c == if i > 2 then XorW(a.c, RotatedWord(b, n, 2)) else a.c
      invariant r.d == if i > 3 then XorW(a.d, RotatedWord(b, n, 3)) else a.d
      decreases 4 - i as int
    {
      assert j == ((n >> 5) + i) & 3 && (j + 1) & 3 == ((n >> 5) + i + 1) & 3;
      j := (j + 1) & 3;
      var u := Big(WordAt(b, j));
      var w := FromBig(Shifted(t, u, n1));
      assert w == RotatedWord(b, n, i);
      if i == 0 {
        r := r.(a := XorW(a.a, w));
      } else if i == 1 {
        r := r.(b := XorW(a.b, w));
      } else if i == 2 {
        r := r.(c := XorW(a.c, w));
      } else {
        r := r.(d := XorW(a.d, w));
      }
      t := u;
      i := i + 1;
    }
  }

  // ---- the keys ----

  /** FO (odd) or FE of p and k, with x added. */
  function Mixed(p: Block, k: Block, x: Block, odd: bool): Block {
    Xor(Diffuse(Substitute(Xor(p, k), odd)), x)
  }

  /** aria_fo_xor and aria_fe_xor. */
  method MixXor(p: Block, k: Block, x: Block, odd: bool) returns (r: Block)
    ensures r == Mixed(p, k, x, odd)
  {
    hide Diffuse, Substitute, Xor;
    r := AriaA(Substitute(Xor(p, k), odd));
    r := Xor(r, x);
  }

  /** The three constants of section 2.2, 32 bytes of 1/PI each. */
  function Constant(i: nat): Block {
    if i % 3 == 0 then
      Block(Word(0x51, 0x7c, 0xc1, 0xb7), Word(0x27, 0x22, 0x0a, 0x94),
            Word(0xfe, 0x13, 0xab, 0xe8), Word(0xfa, 0x9a, 0x6e, 0xe0))
    else if i % 3 == 1 then
      Block(Word(0x6d, 0xb1, 0x4a, 0xcc), Word(0x9e, 0x21, 0xc8, 0x20),
            Word(0xff, 0x28, 0xb1, 0xd5), Word(0xef, 0x5d, 0xe2, 0xb0))
    else
      Block(Word(0xdb, 0x92, 0x37, 0x1d), Word(0x21, 0x26, 0xe9, 0x70),
            Word(0x03, 0x24, 0x97, 0x75), Word(0x04, 0xe8, 0xc9, 0x0e))
  }

  predicate KeyBits(bits: int) {
    bits == 128 || bits == 192 || bits == 256
  }

  function WordOf(s: seq<bv8>, i: nat): Word
    requires i + 4 <= |s|
  {
    Word(s[i], s[i + 1], s[i + 2], s[i + 3])
  }

  /** The first 16 bytes of the key. */
  function KeyLeft(key: seq<bv8>): Block
    requires |key| >= 16
  {
    Block(WordOf(key, 0), WordOf(key, 4), WordOf(key, 8), WordOf(key, 12))
  }

  /** The rest of the key, filled up with zeros. */
  function KeyRight(key: seq<bv8>, bits: int): Block
    requires KeyBits(bits) && |key| >= bits / 8
  {
    var zero := Word(0, 0, 0, 0);
    Block(if bits >= 192 then WordOf(key, 16) else zero, if bits >= 192 then WordOf(key, 20) else zero,
          if bits == 256 then WordOf(key, 24) else zero, if bits == 256 then WordOf(key, 28) else zero)
  }

  /** W0 to W3. */
  function Generators(key: seq<bv8>, bits: int): (w: seq<Block>)
    requires KeyBits(bits) && |key| >= bits / 8
    ensures |w| == 4
  {
    var i := (bits - 128) / 64;
    var w0, kr := KeyLeft(key), KeyRight(key, bits);
    var w1 := Mixed(w0, Constant(i), kr, true);
    var w2 := Mixed(w1, Constant(i + 1), w0, false);
    var w3 := Mixed(w2, Constant(i + 2), w1, true);
    [w0, w1, w2, w3]
  }

  /** By how much the next generator is rotated for round key k: 19 and 31 to the right, then 61, 31 and 19 to
      the left. */
  function Turn(k: nat): bv32 {
    if k < 4 then 109 else if k < 8 then 97 else if k < 12 then 61 else if k < 16 then 31 else 19
  }

  function RoundKey(w: seq<Block>, k: nat): Block
    requires |w| == 4
  {
    Xor(w[k % 4], Rotated(w[(k + 1) % 4], Turn(k)))
  }

  /** The 17 round keys. */
  function RoundKeys(w: seq<Block>): (rk: seq<Block>)
    requires |w| == 4
    ensures |rk| == 17
  {
    seq(17, k requires 0 <= k < 17 => RoundKey(w, k))
  }

  /** The number of rounds. */
  function Rounds(bits: int): nat
    requires KeyBits(bits)
  {
    12 + 2 * ((bits - 128) / 64)
  }

  /** The round keys that the rounds use. */
  function Schedule(key: seq<bv8>, bits: int): (rk: seq<Block>)
    requires KeyBits(bits) && |key| >= bits / 8
    ensures |rk| == Rounds(bits) + 1
  {
    RoundKeys(Generators(key, bits))[..Rounds(bits) + 1]
  }

  /** Round keys i, i + 4, i + 8 and i + 12. */
  method FourKeys(ctx: Context, i: nat, w: Block, w2: Block, ghost g: seq<Block>)
    requires ctx.rk.Length >= 17 && i < 4 && |g| == 4 && w == g[i] && w2 == g[(i + 1) % 4]
    modifies ctx.rk
    ensures forall k | 0 <= k < 16 :: ctx.rk[k] == if k % 4 == i then RoundKey(g, k) else old(ctx.rk[k])
  {
    hide Xor, Rotated;
    ctx.rk[i] := Rot128(w, w2, 128 - 19);
    ctx.rk[i + 4] := Rot128(w, w2, 128 - 31);
    ctx.rk[i + 8] := Rot128(w, w2, 61);
    ctx.rk[i + 12] := Rot128(w, w2, 31);
    forall k | 0 <= k < 16 && k % 4 == i
      ensures ctx.rk[k] == RoundKey(g, k)
    {
      EveryFourth(k, i);
    }
  }

  lemma EveryFourth(k: nat, i: nat)
    requires k < 16 && k % 4 == i
    ensures k == i || k == i + 4 || k == i + 8 || k == i + 12
    ensures (k + 1) % 4 == (i + 1) % 4
  {
  }

  /** mbedtls_aria_setkey_enc. */
  method SetkeyEnc(ctx: Context, key: seq<bv8>, bits: int) returns (ret: int)
    requires ctx.rk.Length >= 17 && (KeyBits(bits) ==> |key| >= bits / 8)
    modifies ctx, ctx.rk
    ensures ret == if KeyBits(bits) then 0 else BAD_INPUT_DATA
    ensures ret == 0 ==> ctx.Valid() && ctx.nr == Rounds(bits) && ctx.rk[..ctx.nr + 1] == Schedule(key, bits)
    ensures ret != 0 ==> ctx.nr == old(ctx.nr) && ctx.rk[..] == old(ctx.rk[..])
  {
    hide Mixed, RoundKey, Constant, KeyLeft, KeyRight, Rotated, Xor;
    if !KeyBits(bits) {
      return BAD_INPUT_DATA;
    }
    var w0, kr := KeyLeft(key), KeyRight(key, bits);
    var i := (bits - 128) / 64;
    ctx.nr := 12 + 2 * i;
    var w1 := MixXor(w0, Constant(i), kr, true);
    var w2 := MixXor(w1, Constant(i + 1), w0, false);
    var w3 := MixXor(w2, Constant(i + 2), w1, true);
    var w := [w0, w1, w2, w3];
    assert w == Generators(key, bits);
    for k := 0 to 4
      invariant ctx.nr == Rounds(bits)
      invariant forall j | 0 <= j < 16 && j % 4 < k :: ctx.rk[j] == RoundKey(w, j)
    {
      FourKeys(ctx, k, w[k], w[(k + 1) % 4], w);
    }
    LastKey(w);
    ctx.rk[16] := Rot128(w[0], w[1], 19);
    assert ctx.rk[..17] == RoundKeys(w);
    assert ctx.rk[..17][..ctx.nr + 1] == ctx.rk[..ctx.nr + 1];
    ret := 0;
  }

  lemma LastKey(w: seq<Block>)
    requires |w| == 4
    ensures RoundKey(w, 16) == Xor(w[0], Rotated(w[1], 19))
  {
  }

  /** mbedtls_aria_setkey_dec. */
  method SetkeyDec(ctx: Context, key: seq<bv8>, bits: int) returns (ret: int)
    requires ctx.rk.Length >= 17 && (KeyBits(bits) ==> |key| >= bits / 8)
    modifies ctx, ctx.rk
    ensures ret == if KeyBits(bits) then 0 else BAD_INPUT_DATA
    ensures ret == 0 ==> ctx.Valid() && ctx.nr == Rounds(bits) && ctx.rk[..ctx.nr + 1] == DecKeys(Schedule(key, bits))
    ensures ret != 0 ==> ctx.nr == old(ctx.nr) && ctx.rk[..] == old(ctx.rk[..])
  {
    hide Schedule, DecKeys;
    ret := SetkeyEnc(ctx, key, bits);
    if ret == 0 {
      ctx.SetkeyDec();
    }
  }

  predicate Encrypts(key: seq<bv8>, bits: int, x: Block, y: Block) {
    KeyBits(bits) && |key| >= bits / 8 && Cipher(Schedule(key, bits), x) == y
  }

  predicate Decrypts(key: seq<bv8>, bits: int, y: Block, x: Block) {
    KeyBits(bits) && |key| >= bits / 8 && Cipher(DecKeys(Schedule(key, bits)), y) == x
  }

  /** With a key set up either way, decryption undoes encryption, and nothing else. */
  lemma KeyInverts(key: seq<bv8>, bits: int, x: Block, y: Block)
    ensures Encrypts(key, bits, x, y) <==> Decrypts(key, bits, y, x)
  {
    hide Schedule, Cipher, DecKeys;
    if KeyBits(bits) && |key| >= bits / 8 {
      DecryptInverts(Schedule(key, bits), x);
      EncryptInverts(Schedule(key, bits), y);
    }
  }
}
