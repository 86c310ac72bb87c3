/** The word-at-a-time name hash of namei.c on a 64-bit little-endian machine, with the word-at-a-time
    helpers in their usual form: bit tricks that find the first NUL or '/' among eight bytes at once. */
module NameHash {
  const ONES: bv64 := 0x0101_0101_0101_0101
  const HIGHS: bv64 := 0x8080_8080_8080_8080
  const SLASHES: bv64 := 0x2F2F_2F2F_2F2F_2F2F
  const ALL: bv64 := 0xFFFF_FFFF_FFFF_FFFF
  const GOLDEN_RATIO_64: bv64 := 0x61C8_8646_80B5_83EB

  type Byte = bv8

  // ---- Helpers on words ----

  /** has_zero */
  function HasZero(a: bv64): bv64 { (a - ONES) & !a & HIGHS }

  /** create_zero_mask */
  function ZeroMask(bits: bv64): bv64 { ((bits - 1) & !bits) >> 7 }

  /** find_zero */
  function FindZero(mask: bv64): bv64 { (mask * 0x0001_0203_0405_0608) >> 56 }

  /** bytemask_from_count: the lowest k bytes. */
  function Low(k: nat): bv64
    requires k <= 7
  {
    match k
    case 0 => 0
    case 1 => 0xFF
    case 2 => 0xFFFF
    case 3 => 0xFF_FFFF
    case 4 => 0xFFFF_FFFF
    case 5 => 0xFF_FFFF_FFFF
    case 6 => 0xFFFF_FFFF_FFFF
    case 7 => 0xFF_FFFF_FFFF_FFFF
  }

  /** The marks that hash_name looks for: bytes that are NUL or '/'. */
  function Marks(a: bv64): bv64 { HasZero(a) | HasZero(Flip(a)) }

  /** find_zero, as a length */
  function CountBytes(mask: bv64): nat { FindZero(mask) as nat }

  /** The last, partial word. */
  function Absorb(x: bv64, a: bv64, mask: bv64): bv64 { x ^ (a & mask) }

  /** HASH_MIX */
  function Mix(x: bv64, y: bv64, a: bv64): (bv64, bv64) {
    var x1 := Xor(x, a);
    var y1 := Xor(y, x1);
    (Plus(Rotate12(x1), y1), Nine(Rotate45(y1)))
  }

  // The operations of HASH_MIX one by one, so that each can be undone by itself.

  function Xor(x: bv64, y: bv64): bv64 { x ^ y }

  function Plus(x: bv64, y: bv64): bv64 { x + y }

  function Rotate12(x: bv64): bv64 { x.RotateLeft(12) }

  function Rotate45(y: bv64): bv64 { y.RotateLeft(45) }

  function Nine(y: bv64): bv64 { y * 9 }

  /** fold_hash */
  function Fold(x: bv64, y: bv64): bv32 {
    (((y ^ (x * GOLDEN_RATIO_64)) * GOLDEN_RATIO_64) >> 32) as bv32
  }

  // ---- Memory ----

  /** A byte of memory; past the end of what is mapped the load pads with zeros. */
  function At(mem: seq<Byte>, i: nat): Byte {
    if i < |mem| then mem[i] else 0
  }

  /** load_unaligned_zeropad */
  function Load(mem: seq<Byte>, i: nat): bv64 {
    Join(At(mem, i), At(mem, i + 1), At(mem, i + 2), At(mem, i + 3),
         At(mem, i + 4), At(mem, i + 5), At(mem, i + 6), At(mem, i + 7))
  }

  function Join(b0: Byte, b1: Byte, b2: Byte, b3: Byte, b4: Byte, b5: Byte, b6: Byte, b7: Byte): bv64 {
    (b0 as bv64) | ((b1 as bv64) << 8) | ((b2 as bv64) << 16) | ((b3 as bv64) << 24)
    | ((b4 as bv64) << 32) | ((b5 as bv64) << 40) | ((b6 as bv64) << 48) | ((b7 as bv64) << 56)
  }

  predicate Ends(b: Byte) { b == 0 || b == 0x2F }

  /** Where the component that starts at i ends: at the first NUL or '/'. */
  function End(mem: seq<Byte>, i: nat): (n: nat)
    requires i <= |mem|
    ensures i <= n <= |mem| && Ends(At(mem, n)) && forall j :: i <= j < n ==> !Ends(mem[j])
    decreases |mem| - i
  {
    if Ends(At(mem, i)) then i else End(mem, i + 1)
  }

  /** The hash of a name, eight bytes at a time and the rest, which may be nothing, as one padded word. */
  function Hash(x: bv64, y: bv64, name: seq<Byte>): bv32
    decreases |name|
  {
    if |name| < 8 then Fold(Absorb(x, Load(name, 0), ALL), y)
    else
      var (x', y') := Mix(x, y, Load(name, 0));
      Hash(x', y', name[8..])
  }

  // ---- The bit tricks ----

  predicate Zero(a: bv64, mask: bv64) { a & mask == 0 }

  /** b in hash_name: its NUL bytes are the slashes of a. */
  function Flip(a: bv64): bv64 { a ^ SLASHES }

  function FlipByte(b: Byte): Byte { b ^ 0x2F }

  predicate EndsIn(a: bv64, mask: bv64) { Zero(a, mask) || Zero(Flip(a), mask) }

  /** The number of bytes of a word below its first NUL or '/'. */
  function Before(a: bv64): (k: nat)
    ensures k <= 8
  {
    if EndsIn(a, 0xFF) then 0
    else if EndsIn(a, 0xFF00) then 1
    else if EndsIn(a, 0xFF_0000) then 2
    else if EndsIn(a, 0xFF00_0000) then 3
    else if EndsIn(a, 0xFF_0000_0000) then 4
    else if EndsIn(a, 0xFF00_0000_0000) then 5
    else if EndsIn(a, 0xFF_0000_0000_0000) then 6
    else if EndsIn(a, 0xFF00_0000_0000_0000) then 7
    else 8
  }

  /** The test is exact: false marks occur only above a true one. */
  lemma TestIsExact(a: bv64)
    ensures Marks(a) == 0 <==> Before(a) == 8
  {
  }

  /** The mask covers the bytes below the first mark, and the multiplication counts them. */
  lemma MaskIsExact(a: bv64)
    requires Before(a) < 8
    ensures ZeroMask(Marks(a)) == Low(Before(a))
  {
  }

  lemma CountIsExact(a: bv64)
    requires Before(a) < 8
    ensures CountBytes(Low(Before(a))) == Before(a)
  {
  }

  lemma BytesOfJoin(b0: Byte, b1: Byte, b2: Byte, b3: Byte, b4: Byte, b5: Byte, b6: Byte, b7: Byte)
    ensures Join(b0, b1, b2, b3, b4, b5, b6, b7) & 0xFF == 0 <==> b0 == 0
    ensures Join(b0, b1, b2, b3, b4, b5, b6, b7) & 0xFF00 == 0 <==> b1 == 0
    ensures Join(b0, b1, b2, b3, b4, b5, b6, b7) & 0xFF_0000 == 0 <==> b2 == 0
    ensures Join(b0, b1, b2, b3, b4, b5, b6, b7) & 0xFF00_0000 == 0 <==> b3 == 0
    ensures Join(b0, b1, b2, b3, b4, b5, b6, b7) & 0xFF_0000_0000 == 0 <==> b4 == 0
    ensures Join(b0, b1, b2, b3, b4, b5, b6, b7) & 0xFF00_0000_0000 == 0 <==> b5 == 0
    ensures Join(b0, b1, b2, b3, b4, b5, b6, b7) & 0xFF_0000_0000_0000 == 0 <==> b6 == 0
    ensures Join(b0, b1, b2, b3, b4, b5, b6, b7) & 0xFF00_0000_0000_0000 == 0 <==> b7 == 0
  {
  }

  lemma ZeroInJoin(b0: Byte, b1: Byte, b2: Byte, b3: Byte, b4: Byte, b5: Byte, b6: Byte, b7: Byte)
    ensures Zero(Join(b0, b1, b2, b3, b4, b5, b6, b7), 0xFF) <==> b0 == 0
    ensures Zero(Join(b0, b1, b2, b3, b4, b5, b6, b7), 0xFF00) <==> b1 == 0
    ensures Zero(Join(b0, b1, b2, b3, b4, b5, b6, b7), 0xFF_0000) <==> b2 == 0
    ensures Zero(Join(b0, b1, b2, b3, b4, b5, b6, b7), 0xFF00_0000) <==> b3 == 0
    ensures Zero(Join(b0, b1, b2, b3, b4, b5, b6, b7), 0xFF_0000_0000) <==> b4 == 0
    ensures Zero(Join(b0, b1, b2, b3, b4, b5, b6, b7), 0xFF00_0000_0000) <==> b5 == 0
    ensures Zero(Join(b0, b1, b2, b3, b4, b5, b6, b7), 0xFF_0000_0000_0000) <==> b6 == 0
    ensures Zero(Join(b0, b1, b2, b3, b4, b5, b6, b7), 0xFF00_0000_0000_0000) <==> b7 == 0
  {
    hide Join;
    BytesOfJoin(b0, b1, b2, b3, b4, b5, b6, b7);
  }

  lemma FlipJoin(b0: Byte, b1: Byte, b2: Byte, b3: Byte, b4: Byte, b5: Byte, b6: Byte, b7: Byte)
    ensures Flip(Join(b0, b1, b2, b3, b4, b5, b6, b7))
      == Join(FlipByte(b0), FlipByte(b1), FlipByte(b2), FlipByte(b3),
              FlipByte(b4), FlipByte(b5), FlipByte(b6), FlipByte(b7))
  {
  }

  lemma EndsIsFlipped(b: Byte)
    ensures Ends(b) <==> b == 0 || FlipByte(b) == 0
  {
  }

  lemma EndsInJoin(b0: Byte, b1: Byte, b2: Byte, b3: Byte, b4: Byte, b5: Byte, b6: Byte, b7: Byte)
    ensures var a := Join(b0, b1, b2, b3, b4, b5, b6, b7);
      && (EndsIn(a, 0xFF) <==> Ends(b0)) && (EndsIn(a, 0xFF00) <==> Ends(b1))
      && (EndsIn(a, 0xFF_0000) <==> Ends(b2)) && (EndsIn(a, 0xFF00_0000) <==> Ends(b3))
      && (EndsIn(a, 0xFF_0000_0000) <==> Ends(b4)) && (EndsIn(a, 0xFF00_0000_0000) <==> Ends(b5))
      && (EndsIn(a, 0xFF_0000_0000_0000) <==> Ends(b6)) && (EndsIn(a, 0xFF00_0000_0000_0000) <==> Ends(b7))
  {
    hide Join, Zero, Flip, FlipByte, Ends;
    ZeroInJoin(b0, b1, b2, b3, b4, b5, b6, b7);
    FlipJoin(b0, b1, b2, b3, b4, b5, b6, b7);
    ZeroInJoin(FlipByte(b0), FlipByte(b1), FlipByte(b2), FlipByte(b3),
               FlipByte(b4), FlipByte(b5), FlipByte(b6), FlipByte(b7));
    forall b ensures Ends(b) <==> b == 0 || FlipByte(b) == 0 {
      EndsIsFlipped(b);
    }
  }

  /** A word of memory shows the end of the component if it is among its bytes. */
  lemma WordShowsEnd(mem: seq<Byte>, i: nat)
    requires i <= |mem|
    ensures var k := Before(Load(mem, i));
      if k < 8 then End(mem, i) == i + k else End(mem, i) >= i + 8
  {
    hide EndsIn, Ends, Join, End;
    var k := Before(Load(mem, i));
    EndsInJoin(At(mem, i), At(mem, i + 1), At(mem, i + 2), At(mem, i + 3),
               At(mem, i + 4), At(mem, i + 5), At(mem, i + 6), At(mem, i + 7));
    assert k < 8 ==> Ends(At(mem, i + k));
    forall j | i <= j < i + k ensures !Ends(At(mem, j)) {
    }
  }

  lemma LowOfWord(mem: seq<Byte>, i: nat, k: nat)
    requires k <= 7 && i + k <= |mem|
    ensures Load(mem, i) & Low(k) == Load(mem[i..i + k], 0)
  {
  }

  // ---- The two hashes ----

  /** full_name_hash: what lies in memory after the name does not matter. */
  method FullNameHash(salt: bv64, mem: seq<Byte>, len: nat) returns (h: bv32)
    requires len <= |mem|
    ensures h == Hash(0, salt, mem[..len])
  {
    hide Mix, Fold, Load, Low, Absorb, Hash;
    var x: bv64, y, p, left := 0, salt, 0, len;
    while true
      invariant p + left == len && Hash(x, y, mem[p..len]) == Hash(0, salt, mem[..len])
      decreases left
    {
      HashStep(x, y, mem, p, len);
      if left == 0 {
        break;
      }
      var a := Load(mem, p);
      if left < 8 {
        x := Absorb(x, a, Low(left));
        break;
      }
      var m := Mix(x, y, a);
      x, y := m.0, m.1;
      p, left := p + 8, left - 8;
    }
    h := Fold(x, y);
  }

  /** One turn of the hash on a part of memory. */
  lemma HashStep(x: bv64, y: bv64, mem: seq<Byte>, p: nat, n: nat)
    requires p <= n <= |mem|
    ensures n - p == 0 ==> Hash(x, y, mem[p..n]) == Fold(x, y)
    ensures n - p < 8 ==> Hash(x, y, mem[p..n]) == Fold(Absorb(x, Load(mem, p), Low(n - p)), y)
    ensures n - p >= 8 ==>
      var (x', y') := Mix(x, y, Load(mem, p)); Hash(x, y, mem[p..n]) == Hash(x', y', mem[p + 8..n])
  {
    hide Mix, Fold, Load, Low, Absorb;
    if n - p < 8 {
      LastWord(x, mem, p, n - p);
    } else {
      SameWord(mem, p, n);
      assert mem[p..n][8..] == mem[p + 8..n];
    }
  }

  lemma LastWord(x: bv64, mem: seq<Byte>, p: nat, k: nat)
    requires k <= 7 && p + k <= |mem|
    ensures Absorb(x, Load(mem, p), Low(k)) == Absorb(x, Load(mem[p..p + k], 0), ALL)
    ensures k == 0 ==> Absorb(x, Load(mem, p), Low(k)) == x
  {
    hide Load, Low, Absorb;
    LowOfWord(mem, p, k);
    AbsorbMasked(x, Load(mem, p), Low(k));
    AbsorbNothing(x, Load(mem, p));
  }

  lemma AbsorbMasked(x: bv64, a: bv64, mask: bv64)
    ensures Absorb(x, a, mask) == Absorb(x, a & mask, ALL)
  {
  }

  lemma AbsorbNothing(x: bv64, a: bv64)
    ensures Absorb(x, a, Low(0)) == x
  {
  }

  lemma SameWord(mem: seq<Byte>, p: nat, n: nat)
    requires p + 8 <= n <= |mem|
    ensures Load(mem[p..n], 0) == Load(mem, p)
  {
    hide Join;
  }

  /** hash_name finds the end of the component and the hash that full_name_hash gives it, at every length. */
  method HashName(salt: bv64, mem: seq<Byte>) returns (h: bv32, len: nat)
    ensures len == End(mem, 0) && h == Hash(0, salt, mem[..len])
  {
    hide Mix, Fold, Load, Low, Marks, ZeroMask, CountBytes, Absorb, Before, End, Hash;
    ghost var n := End(mem, 0);
    var x: bv64, y := 0, salt;
    len := 0;
    var a := Load(mem, 0);
    assert mem[0..n] == mem[..n];
    WordShowsEnd(mem, 0);
    TestIsExact(a);
    while Marks(a) == 0
      invariant len <= n && End(mem, len) == n && a == Load(mem, len)
      invariant Marks(a) == 0 <==> Before(a) == 8
      invariant if Before(a) < 8 then n == len + Before(a) else n >= len + 8
      invariant Hash(x, y, mem[len..n]) == Hash(0, salt, mem[..n])
      decreases n - len
    {
      HashStep(x, y, mem, len, n);
      EndFrom(mem, len, len + 8);
      var m := Mix(x, y, a);
      x, y := m.0, m.1;
      len := len + 8;
      a := Load(mem, len);
      WordShowsEnd(mem, len);
      TestIsExact(a);
    }
    HashStep(x, y, mem, len, n);
    MaskIsExact(a);
    CountIsExact(a);
    var mask := ZeroMask(Marks(a));
    x := Absorb(x, a, mask);
    h := Fold(x, y);
    len := len + CountBytes(mask);
  }

  lemma EndFrom(mem: seq<Byte>, i: nat, j: nat)
    requires i <= |mem| && i <= j <= End(mem, i)
    ensures j <= |mem| && End(mem, j) == End(mem, i)
  {
    var m, n := End(mem, i), End(mem, j);
    assert m < n ==> !Ends(At(mem, m));
  }

  /** The byte loop of the other configuration counts the first byte without looking at it, so it finds the
      same length exactly for a component that is not empty. */
  method ByteLoopLength(mem: seq<Byte>) returns (len: nat)
    requires mem != []
    ensures len == End(mem, 1)
    ensures len == End(mem, 0) <==> !Ends(mem[0])
  {
    len := 1;
    while !Ends(At(mem, len))
      invariant len <= |mem| && End(mem, len) == End(mem, 1)
      decreases |mem| - len
    {
      len := len + 1;
    }
  }

  // ---- The mixing function ----

  lemma TimesNine(u: bv64, v: bv64)
    requires u * 9 == v * 9
    ensures u == v
  {
    assert (u * 9) * 0x8E38_E38E_38E3_8E39 == u;
    assert (v * 9) * 0x8E38_E38E_38E3_8E39 == v;
  }

  lemma NineBack(u: bv64, v: bv64)
    requires Nine(u) == Nine(v)
    ensures u == v
  {
    TimesNine(u, v);
  }

  lemma RotationsBack(u: bv64, v: bv64)
    ensures Rotate12(u) == Rotate12(v) ==> u == v
    ensures Rotate45(u) == Rotate45(v) ==> u == v
  {
  }

  lemma SpreadBack(s: bv64, t: bv64)
    requires Nine(Rotate45(s)) == Nine(Rotate45(t))
    ensures s == t
  {
    hide Nine, Rotate45;
    NineBack(Rotate45(s), Rotate45(t));
    RotationsBack(s, t);
  }

  function Minus(x: bv64, y: bv64): bv64 { x - y }

  lemma MinusSum(u: bv64, s: bv64)
    ensures Minus(u + s, s) == u
  {
  }

  lemma PlusBack(u: bv64, v: bv64, s: bv64)
    requires Plus(u, s) == Plus(v, s)
    ensures u == v
  {
    hide Minus;
    MinusSum(u, s);
    MinusSum(v, s);
  }

  lemma XorBack(y: bv64, y': bv64, u: bv64)
    ensures Xor(y, u) == Xor(y', u) ==> y == y'
    ensures Xor(u, y) == Xor(u, y') ==> y == y'
  {
  }

  /** What entered a turn can be told from what leaves it. */
  lemma MixBack(x: bv64, y: bv64, a: bv64, x': bv64, y': bv64, a': bv64)
    requires Mix(x, y, a) == Mix(x', y', a')
    ensures y == y' && Xor(x, a) == Xor(x', a')
  {
    hide Nine, Rotate12, Rotate45, Xor, Plus;
    var u, v := Xor(x, a), Xor(x', a');
    SpreadBack(Xor(y, u), Xor(y', v));
    PlusBack(Rotate12(u), Rotate12(v), Xor(y, u));
    RotationsBack(u, v);
    XorBack(y, y', u);
  }

  /** Two words mixed into a state never give the state that two other words give. */
  lemma NoCollisionInTwo(x: bv64, y: bv64, a1: bv64, a2: bv64, b1: bv64, b2: bv64)
    requires var p, q := Mix(x, y, a1), Mix(x, y, b1); Mix(p.0, p.1, a2) == Mix(q.0, q.1, b2)
    ensures a1 == b1 && a2 == b2
  {
    hide Mix, Xor;
    var p, q := Mix(x, y, a1), Mix(x, y, b1);
    MixBack(p.0, p.1, a2, q.0, q.1, b2);
    SecondTells(x, y, a1, b1);
    XorBack(a2, b2, p.0);
  }

  lemma SecondTells(x: bv64, y: bv64, a: bv64, b: bv64)
    requires Mix(x, y, a).1 == Mix(x, y, b).1
    ensures a == b
  {
    hide Nine, Rotate12, Rotate45, Xor, Plus;
    SpreadBack(Xor(y, Xor(x, a)), Xor(y, Xor(x, b)));
    XorBack(Xor(x, a), Xor(x, b), y);
    XorBack(a, b, x);
  }

  /** The operations in numbers. */
  lemma MixInNumbers()
    ensures Mix(0x0123_4567_89AB_CDEF, 0xFEDC_BA98_7654_3210, 0x6867_6665_6463_6261)
      == (0xd9c8_c877_2695_8432, 0x3152_6a8b_accd_ef0b)
  {
  }

  lemma FoldInNumbers()
    ensures Fold(0xd9c8_c877_2695_8432, 0x3152_6a8b_accd_ef0b) == 0x46ee_130a
  {
  }

  /** The bytes of "abcdefgh" as a word, the first one lowest. */
  lemma LoadInNumbers()
    ensures Load([0x61, 0x62, 0x63, 0x64, 0x65, 0x66, 0x67, 0x68], 0) == 0x6867_6665_6463_6261
    ensures Load([0x35], 0) == 0x35
  {
  }
}
