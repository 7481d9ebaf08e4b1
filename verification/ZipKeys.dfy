/** Traditional PKWARE encryption: PKWARE APPNOTE.TXT section 6.1 and the code of `crypt.h`. */
module ZipKeys {

  const WORD: int := 0x1_0000_0000
  const LONG: int := 0x1_0000_0000_0000_0000

  // ----- PKWARE APPNOTE sections 6.1.5 and 6.1.6, in 32-bit words, with the checksum computed bit by bit

  datatype Keys32 = Keys32(k0: bv32, k1: nat, k2: bv32)

  function Xor(x: bv32, y: bv32): bv32 {
    x ^ y
  }

  function Half(x: bv32): bv32 {
    x >> 1
  }

  function Lowest(x: bv32): bv32 {
    x & 1
  }

  function WithPolynomial(x: bv32): bv32 {
    x ^ 0xEDB8_8320
  }

  /** One bit of the CRC-32 with the reversed polynomial. */
  function BitStep(x: bv32): bv32 {
    if Lowest(x) == 1 then WithPolynomial(Half(x)) else Half(x)
  }

  function BitSteps(x: bv32, n: nat): bv32
    decreases n
  {
    if n == 0 then x else BitSteps(BitStep(x), n - 1)
  }

  const BITS: nat := 8

  /** The checksum `c` after one more byte. */
  function Crc32(c: bv32, b: bv8): bv32 {
    BitSteps(Mixed(c, b), BITS)
  }

  function Mixed(c: bv32, b: bv8): bv32 {
    c ^ (b as bv32)
  }

  function Low32(c: bv32): bv8 {
    (c & 0xFF) as bv8
  }

  function Update32(k: Keys32, c: bv8): Keys32 {
    var k0 := Crc32(k.k0, c);
    var k1 := ((k.k1 + Low32(k0) as int) * 134775813 + 1) % WORD;
    Keys32(k0, k1, Crc32(k.k2, (k1 / 0x100_0000 % 256) as bv8))
  }

  function LowHalf32(c: bv32): bv16 {
    (c & 0xFFFF) as bv16
  }

  /** The low half of the third key, its second bit set. */
  function Temp32(k2: bv32): bv16 {
    WithSecond32(LowHalf32(k2))
  }

  function WithSecond32(h: bv16): bv16 {
    h | 2
  }

  function Other32(temp: bv16): bv16 {
    temp ^ 1
  }

  function Stream32(k: Keys32): bv8 {
    (Temp32(k.k2) as int * Other32(Temp32(k.k2)) as int / 256 % 256) as bv8
  }

  const INITIAL32 := Keys32(0x12345678, 0x23456789, 0x34567890)

  // ----- the code, where `unsigned long` has 64 bits and nothing is masked

  datatype Keys = Keys(k0: bv64, k1: nat, k2: bv64)

  /** `pcrc_32_tab`. */
  type CrcTable = t: seq<bv32> | |t| == 256 witness seq(256, _ => 0)

  /** Each entry is what eight bit steps make of its index. */
  ghost predicate IsCrcTable(t: CrcTable) {
    forall i | 0 <= i < 256 :: t[i] == BitSteps(Word(i), BITS)
  }

  function Word(i: nat): bv32
    requires i < 256
  {
    i as bv32
  }

  function Index(b: bv8): (i: nat)
    ensures i < 256
  {
    b as int
  }

  function Entry(t: CrcTable, low: bv8, b: bv8): bv32 {
    t[Index(low ^ b)]
  }

  /** The macro `CRC32`; the cast to int and the mask leave the low byte of the key. */
  function CrcLong(t: CrcTable, c: bv64, b: bv8): bv64 {
    ShiftedLong(Entry(t, LowLong(c), b), c)
  }

  function LowLong(c: bv64): bv8 {
    (c & 0xFF) as bv8
  }

  function ShiftedLong(x: bv32, c: bv64): bv64 {
    (x as bv64) ^ (c >> 8)
  }

  /** `update_keys`. */
  function Updated(t: CrcTable, k: Keys, c: bv8): Keys {
    var k0 := CrcLong(t, k.k0, c);
    var k1 := Mix(k.k1, k0);
    Keys(k0, k1, CrcLong(t, k.k2, TopByte(k1) as bv8))
  }

  function Mix(k1: nat, k0: bv64): nat {
    ((k1 + LowLong(k0) as int) % LONG * 134775813 + 1) % LONG
  }

  /** The cast of `key1 >> 24` to int keeps 32 bits, of which the macro looks at eight. */
  function TopByte(k1: nat): (r: int)
    ensures 0 <= r < 256
  {
    var keyshift := k1 / 0x100_0000 % WORD;
    keyshift % 256
  }

  /** `temp` of `decrypt_byte`: masked, its value has 16 bits, though the variable and the product have 32. */
  function Temp(k: Keys): bv16 {
    SecondBitSet(HalfLong(k.k2))
  }

  function SecondBitSet(h: bv16): bv16 {
    h | 2
  }

  function HalfLong(c: bv64): bv16 {
    (c & 0xFFFF) as bv16
  }

  function Flipped(temp: bv16): bv16 {
    temp ^ 1
  }

  /** `decrypt_byte`, with the product taken modulo 2^32. */
  function StreamByte(k: Keys): bv8 {
    WrappedByte(Temp(k) as int, Flipped(Temp(k)) as int) as bv8
  }

  function WrappedByte(x: nat, y: nat): (r: int)
    ensures 0 <= r < 256
  {
    x * y % WORD / 256 % 256
  }

  const INITIAL := Keys(305419896, 591751049, 878082192)

  function Keyed(t: CrcTable, k: Keys, bytes: seq<bv8>): Keys
    decreases bytes
  {
    if bytes == [] then k else Keyed(t, Updated(t, k, bytes[0]), bytes[1..])
  }

  function Keyed32(k: Keys32, bytes: seq<bv8>): Keys32
    decreases bytes
  {
    if bytes == [] then k else Keyed32(Update32(k, bytes[0]), bytes[1..])
  }

  // ----- the table saves the bit steps

  function Halved(x: bv32, n: nat): bv32
    decreases n
  {
    if n == 0 then x else Halved(Half(x), n - 1)
  }

  /** The lowest `n` bits are zero. */
  predicate LowZeros(x: bv32, n: nat)
    decreases n
  {
    n > 0 ==> Lowest(x) == 0 && LowZeros(Half(x), n - 1)
  }

  lemma ParityApart(lo: bv32, hi: bv32)
    requires Lowest(hi) == 0
    ensures Lowest(Xor(lo, hi)) == Lowest(lo)
  {
  }

  lemma HalfApart(lo: bv32, hi: bv32)
    ensures Half(Xor(lo, hi)) == Xor(Half(lo), Half(hi))
  {
  }

  lemma PolynomialApart(lo: bv32, hi: bv32)
    ensures WithPolynomial(Xor(lo, hi)) == Xor(WithPolynomial(lo), hi)
  {
  }

  /** Bits above the lowest one only move down. */
  lemma StepApart(lo: bv32, hi: bv32)
    requires Lowest(hi) == 0
    ensures BitStep(Xor(lo, hi)) == Xor(BitStep(lo), Half(hi))
  {
    ParityApart(lo, hi);
    HalfApart(lo, hi);
    PolynomialApart(Half(lo), Half(hi));
  }

  lemma {:induction false} StepsApart(lo: bv32, hi: bv32, n: nat)
    requires LowZeros(hi, n)
    ensures BitSteps(Xor(lo, hi), n) == Xor(BitSteps(lo, n), Halved(hi, n))
    decreases n
  {
    if n > 0 {
      StepApart(lo, hi);
      StepsApart(BitStep(lo), Half(hi), n - 1);
    }
  }

  function And(x: bv32, y: bv32): bv32 {
    x & y
  }

  lemma HalfMasked(x: bv32, mask: bv32)
    requires Lowest(mask) == 0
    ensures Lowest(And(x, mask)) == 0 && Half(And(x, mask)) == And(Half(x), Half(mask))
  {
  }

  lemma {:induction false} HalvedMasked(x: bv32, mask: bv32, n: nat)
    requires LowZeros(mask, n)
    ensures LowZeros(And(x, mask), n) && Halved(And(x, mask), n) == And(Halved(x, n), Halved(mask, n))
    decreases n
  {
    if n > 0 {
      HalfMasked(x, mask);
      HalvedMasked(Half(x), Half(mask), n - 1);
    }
  }

  const HIGH: bv32 := 0xFFFF_FF00

  lemma HighMask()
    ensures LowZeros(HIGH, BITS) && Halved(HIGH, BITS) == 0x00FF_FFFF
  {
  }

  lemma EightHalves(x: bv32)
    ensures Halved(x, BITS) == x >> 8
  {
    var y := Half(Half(Half(Half(x))));
    FourHalves(x, y);
    assert Halved(x, BITS) == Halved(y, BITS - 4);
    assert Halved(y, BITS - 4) == Half(Half(Half(Half(y))));
  }

  lemma FourHalves(x: bv32, y: bv32)
    requires y == Half(Half(Half(Half(x))))
    ensures y == x >> 4 && Half(Half(Half(Half(y)))) == x >> 8
  {
  }

  lemma HighBitsFall(x: bv32)
    ensures And(x >> 8, 0x00FF_FFFF) == x >> 8
  {
  }

  function Wide(b: bv8): bv32 {
    b as bv32
  }

  lemma WideValue(b: bv8)
    ensures Wide(b) as int == Index(b)
  {
  }

  lemma WordOf(x: bv32, i: nat)
    requires i < 256 && x as int == i
    ensures Word(i) == x
  {
  }

  lemma ByteApart(c: bv32, b: bv8)
    ensures Mixed(c, b) == Xor(Wide(Low32(c) ^ b), And(c, HIGH))
  {
  }

  /** The lookup does eight steps at once. */
  lemma LookupIsSteps(t: CrcTable, c: bv32, b: bv8)
    requires IsCrcTable(t)
    ensures Xor(Entry(t, Low32(c), b), c >> 8) == Crc32(c, b)
  {
    ByteApart(c, b);
    WideValue(Low32(c) ^ b);
    WordOf(Wide(Low32(c) ^ b), Index(Low32(c) ^ b));
    HighMask();
    HalvedMasked(c, HIGH, BITS);
    EightHalves(c);
    HighBitsFall(c);
    StepsApart(Wide(Low32(c) ^ b), And(c, HIGH), BITS);
  }

  // ----- the code's keys are the standard's, modulo 2^32

  ghost predicate Agree(k: Keys, s: Keys32) {
    k.k0 == s.k0 as bv64 && k.k2 == s.k2 as bv64 && k.k1 % WORD == s.k1
  }

  lemma LowByteAgrees(wide: bv64, c: bv32)
    requires wide == c as bv64
    ensures LowLong(wide) == Low32(c)
  {
  }

  lemma ShiftAgrees(x: bv32, wide: bv64, c: bv32, r: bv32)
    requires wide == c as bv64 && r == Xor(x, c >> 8)
    ensures ShiftedLong(x, wide) == r as bv64
  {
  }

  /** The macro, in 32 bits, gives `r`. */
  ghost predicate Looks(t: CrcTable, c: bv32, b: bv8, r: bv32) {
    r == Xor(Entry(t, Low32(c), b), c >> 8)
  }

  lemma LongAgrees(t: CrcTable, wide: bv64, c: bv32, b: bv8, r: bv32)
    requires wide == c as bv64 && Looks(t, c, b, r)
    ensures CrcLong(t, wide, b) == r as bv64
  {
    LowByteAgrees(wide, c);
    ShiftAgrees(Entry(t, Low32(c), b), wide, c, r);
  }

  lemma LooksSteps(t: CrcTable, c: bv32, b: bv8, r: bv32)
    requires IsCrcTable(t) && r == Crc32(c, b)
    ensures Looks(t, c, b, r)
  {
    LookupIsSteps(t, c, b);
  }

  lemma CrcAgreesWith(t: CrcTable, wide: bv64, c: bv32, b: bv8, r: bv32)
    requires IsCrcTable(t) && wide == c as bv64 && r == Crc32(c, b)
    ensures CrcLong(t, wide, b) == r as bv64
  {
    LooksSteps(t, c, b, r);
    LongAgrees(t, wide, c, b, r);
  }

  lemma CrcAgrees(t: CrcTable, wide: bv64, c: bv32, b: bv8)
    requires IsCrcTable(t) && wide == c as bv64
    ensures CrcLong(t, wide, b) == Crc32(c, b) as bv64
  {
    CrcAgreesWith(t, wide, c, b, Crc32(c, b));
  }

  lemma SameWord(p: int, q: int, m: int)
    requires p == q + m * WORD
    ensures p % WORD == q % WORD
  {
  }

  lemma LongToWord(p: nat)
    ensures p % LONG % WORD == p % WORD
  {
    SameWord(p, p % LONG, p / LONG * WORD);
  }

  lemma MultiplyAgrees(a: nat, b: nat, low: nat)
    requires a % WORD == b
    ensures ((a + low) % LONG * 134775813 + 1) % LONG % WORD == ((b + low) * 134775813 + 1) % WORD
  {
    var x := (a + low) % LONG;
    LongToWord(a + low);
    SameWord(a + low, b + low, a / WORD);
    LongToWord(x * 134775813 + 1);
    SameWord(x * 134775813 + 1, (b + low) * 134775813 + 1, (x / WORD - (b + low) / WORD) * 134775813);
  }

  lemma MixAgrees(a: nat, b: nat, wide: bv64, k0: bv32)
    requires a % WORD == b && wide == k0 as bv64
    ensures Mix(a, wide) % WORD == ((b + Low32(k0) as int) * 134775813 + 1) % WORD
  {
    LowByteAgrees(wide, k0);
    MultiplyAgrees(a, b, Low32(k0) as int);
  }

  lemma TopByteAgrees(k1: nat)
    ensures TopByte(k1) == k1 % WORD / 0x100_0000 % 256
  {
    assert k1 == k1 / WORD * WORD + k1 % WORD;
    assert k1 / 0x100_0000 == k1 / WORD * 256 + k1 % WORD / 0x100_0000;
  }

  lemma FirstAgrees(t: CrcTable, k: Keys, s: Keys32, c: bv8)
    requires IsCrcTable(t) && Agree(k, s)
    ensures Updated(t, k, c).k0 == Update32(s, c).k0 as bv64
  {
    CrcAgrees(t, k.k0, s.k0, c);
  }

  lemma SecondAgrees(t: CrcTable, k: Keys, s: Keys32, c: bv8)
    requires IsCrcTable(t) && Agree(k, s)
    ensures Updated(t, k, c).k1 % WORD == Update32(s, c).k1
  {
    FirstAgrees(t, k, s, c);
    MixAgrees(k.k1, s.k1, Updated(t, k, c).k0, Update32(s, c).k0);
  }

  lemma ThirdAgrees(t: CrcTable, k2: bv64, s2: bv32, k1: nat, s1: nat)
    requires IsCrcTable(t) && k2 == s2 as bv64 && k1 % WORD == s1
    ensures CrcLong(t, k2, TopByte(k1) as bv8) == Crc32(s2, (s1 / 0x100_0000 % 256) as bv8) as bv64
  {
    TopByteAgrees(k1);
    CrcAgrees(t, k2, s2, (s1 / 0x100_0000 % 256) as bv8);
  }

  /** One byte changes the code's keys, with the table, as it changes the standard's, bit by bit. */
  lemma UpdateAgrees(t: CrcTable, k: Keys, s: Keys32, c: bv8)
    requires IsCrcTable(t) && Agree(k, s)
    ensures Agree(Updated(t, k, c), Update32(s, c))
  {
    FirstAgrees(t, k, s, c);
    SecondAgrees(t, k, s, c);
    ThirdAgrees(t, k.k2, s.k2, Updated(t, k, c).k1, Update32(s, c).k1);
  }

  /** After any bytes the three keys agree modulo 2^32. */
  lemma {:induction false} KeyedAgrees(t: CrcTable, k: Keys, s: Keys32, bytes: seq<bv8>)
    requires IsCrcTable(t) && Agree(k, s)
    ensures Agree(Keyed(t, k, bytes), Keyed32(s, bytes))
    decreases bytes
  {
    if bytes != [] {
      UpdateAgrees(t, k, s, bytes[0]);
      KeyedAgrees(t, Updated(t, k, bytes[0]), Update32(s, bytes[0]), bytes[1..]);
    }
  }

  lemma InitialAgrees()
    ensures Agree(INITIAL, INITIAL32)
  {
    assert 0x12345678 == 305419896 && 0x23456789 == 591751049 && 0x34567890 == 878082192;
  }

  lemma TempAgrees(k: Keys, s: Keys32)
    requires k.k2 == s.k2 as bv64
    ensures Temp(k) == Temp32(s.k2)
  {
    HalfAgrees(k.k2, s.k2);
    SetAgrees(HalfLong(k.k2));
  }

  lemma SetAgrees(h: bv16)
    ensures SecondBitSet(h) == WithSecond32(h)
  {
  }

  lemma HalfAgrees(wide: bv64, c: bv32)
    requires wide == c as bv64
    ensures HalfLong(wide) == LowHalf32(c)
  {
  }

  lemma NotNegative(a: nat, b: nat)
    ensures a * b >= 0
  {
  }

  lemma ProductFits(x: nat, y: nat)
    requires x < 0x10000 && y < 0x10000
    ensures x * y < WORD
  {
    var u, v := 0xFFFF - x, 0xFFFF - y;
    NotNegative(u, y);
    assert u * y == 0xFFFF * y - x * y;
  }

  lemma Unwrapped(p: nat)
    requires p < WORD
    ensures p % WORD == p
  {
  }

  lemma SameByte(x: nat, y: nat)
    requires x * y < WORD
    ensures WrappedByte(x, y) == x * y / 256 % 256
  {
    NotNegative(x, y);
    Unwrapped(x * y);
  }

  /** The 32-bit product of `decrypt_byte` never overflows, so its byte is the standard's. */
  lemma StreamAgrees(k: Keys, s: Keys32)
    requires Agree(k, s)
    ensures Temp(k) as int * Flipped(Temp(k)) as int < WORD
    ensures StreamByte(k) == Stream32(s)
  {
    TempAgrees(k, s);
    ProductFits(Temp(k) as int, Flipped(Temp(k)) as int);
    SameByte(Temp(k) as int, Flipped(Temp(k)) as int);
  }
}
