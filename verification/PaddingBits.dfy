/** The padding of FIPS 180-4 section 5.1.1, as the standard has it: in bits. */
module PaddingBits {
  import opened Words
  import opened Numerals
  import opened HashPadding

  type Bit = x: int | 0 <= x < 2

  /** The number in `n` binary digits, without those that do not fit. */
  function Binary(v: nat, n: nat): (r: seq<Bit>)
    ensures |r| == n
  {
    if n == 0 then [] else Binary(v / 2, n - 1) + [v % 2]
  }

  function Bits(s: seq<Byte>): (r: seq<Bit>)
    ensures |r| == 8 * |s|
  {
    if s == [] then [] else Binary(s[0], 8) + Bits(s[1..])
  }

  function ZeroBits(k: nat): (r: seq<Bit>)
    ensures |r| == k
  {
    seq(k, _ => 0)
  }

  lemma {:induction false} BitsConcat(a: seq<Byte>, b: seq<Byte>)
    ensures Bits(a + b) == Bits(a) + Bits(b)
  {
    if a == [] {
      assert a + b == b;
    } else {
      assert (a + b)[1..] == a[1..] + b;
      BitsConcat(a[1..], b);
    }
  }

  lemma OneByte(b: Byte)
    ensures Bits([b]) == Binary(b, 8)
  {
    assert [b][1..] == [];
  }

  lemma {:induction false} ZerosBits(k: nat)
    ensures Bits(Zeros(k)) == ZeroBits(8 * k)
  {
    if k > 0 {
      assert Zeros(k)[1..] == Zeros(k - 1);
      ZerosBits(k - 1);
    }
  }

  lemma HalfThen(v: nat, p: nat)
    requires p > 0
    ensures v / (2 * p) == v / 2 / p && v % (2 * p) / 2 == v / 2 % p && v % (2 * p) % 2 == v % 2
  {
    var q, r := v / 2 / p, v / 2 % p;
    assert v / 2 == q * p + r && v == (2 * p) * q + (2 * r + v % 2);
    Remainder(v, 2 * p, q, 2 * r + v % 2);
  }

  /** The last `m` digits, and the others. */
  lemma {:induction false} BinarySplit(v: nat, n: nat, m: nat)
    ensures Binary(v, n + m) == Binary(v / Power(2, m), n) + Binary(v % Power(2, m), m)
    decreases m
  {
    if m > 0 {
      HalfThen(v, Power(2, m - 1));
      BinarySplit(v / 2, n, m - 1);
    }
  }

  lemma BinaryByte(v: nat, n: nat, m: nat)
    requires m == 8
    ensures Binary(v, n + m) == Binary(v / 256, n) + Binary(v % 256, m)
  {
    BinarySplit(v, n, m);
    assert Power(2, m - 4) == 16;
  }

  lemma {:induction false} BigEndianBits(v: nat, k: nat)
    ensures Bits(BigEndian(v, k)) == Binary(v, 8 * k)
  {
    if k > 0 {
      BigEndianBits(v / 256, k - 1);
      BitsConcat(BigEndian(v / 256, k - 1), [v % 256]);
      OneByte(v % 256);
      BinaryByte(v, 8 * (k - 1), 8);
    }
  }

  function Reversed(s: seq<Byte>): (r: seq<Byte>)
    ensures |r| == |s|
  {
    if s == [] then [] else Reversed(s[1..]) + [s[0]]
  }

  lemma {:induction false} ReversedSnoc(s: seq<Byte>, b: Byte)
    ensures Reversed(s + [b]) == [b] + Reversed(s)
  {
    if s != [] {
      assert (s + [b])[1..] == s[1..] + [b];
      ReversedSnoc(s[1..], b);
    }
  }

  /** The little-endian field is the big-endian one backwards. */
  lemma {:induction false} LittleIsReversed(v: nat, k: nat)
    ensures LittleEndian(v, k) == Reversed(BigEndian(v, k))
  {
    if k > 0 {
      LittleIsReversed(v / 256, k - 1);
      ReversedSnoc(BigEndian(v / 256, k - 1), v % 256);
    }
  }

  /** `k` is the least number of zero bits that, behind `l` bits and a one, leaves 64 to the end of a block of `c`. */
  ghost predicate LeastZeros(l: nat, k: nat, c: nat)
    requires c > 0
  {
    Fill(l, k, c) && forall j | 0 <= j < k :: !Fill(l, j, c)
  }

  predicate Fill(l: nat, k: nat, c: nat)
    requires c > 0
  {
    (l + 1 + k + 64) % c == 0
  }

  lemma GapIsMultiple(n: nat, b: nat)
    requires b > 8
    ensures 0 <= Gap(n, b) < b && (n + 9 + Gap(n, b)) % b == 0
  {
    if (n + 9) % b != 0 {
      Remainder(n + 9 + Gap(n, b), b, (n + 9) / b + 1, 0);
    }
  }

  /** Two multiples of `b` are not less than `b` apart. */
  lemma Apart(x: int, y: int, b: nat)
    requires b > 0 && x < y < x + b && x % b == 0
    ensures y % b != 0
  {
    var q := x / b;
    assert x == q * b;
    Remainder(y, b, q, y - x);
  }

  lemma FillBytes(n: nat, j: nat, b: nat)
    requires b > 0
    ensures Fill(8 * n, j, 8 * b) <==> j % 8 == 7 && (n + 9 + j / 8) % b == 0
  {
    var x := n + 9 + j / 8;
    if Fill(8 * n, j, 8 * b) {
      var q := (8 * n + 65 + j) / (8 * b);
      assert 8 * n + 65 + j == q * (8 * b);
      Eights(8 * n + 65 + j, q, b);
      Remainder(x, b, q, 0);
    } else if j % 8 == 7 && x % b == 0 {
      var q := x / b;
      assert x == q * b;
      Eights(8 * x, q, b);
      Remainder(8 * x, 8 * b, q, 0);
    }
  }

  lemma Eights(x: int, q: int, b: nat)
    ensures x == q * (8 * b) <==> x == 8 * (q * b)
  {
  }

  lemma LeastBits(n: nat, b: nat)
    requires b > 8
    ensures LeastZeros(8 * n, 7 + 8 * Gap(n, b), 8 * b)
  {
    var k := 7 + 8 * Gap(n, b);
    GapIsMultiple(n, b);
    FillBytes(n, k, b);
    forall j | 0 <= j < k ensures !Fill(8 * n, j, 8 * b) {
      FillBytes(n, j, b);
      if j % 8 == 7 && (n + 9 + j / 8) % b == 0 {
        Apart(n + 9 + j / 8, n + 9 + Gap(n, b), b);
      }
    }
  }

  lemma OneAndZeros(g: nat)
    ensures Bits([0x80]) + Bits(Zeros(g)) == [1] + ZeroBits(7 + 8 * g)
  {
    OneByte(0x80);
    ZerosBits(g);
    assert Binary(0x80, 8) == [1, 0, 0, 0, 0, 0, 0, 0];
  }

  lemma PaddedParts(m: seq<Byte>, g: nat, field: seq<Byte>)
    ensures Bits(m + [0x80] + Zeros(g) + field) == Bits(m) + [1] + ZeroBits(7 + 8 * g) + Bits(field)
  {
    BitsConcat(m + [0x80] + Zeros(g), field);
    BitsConcat(m + [0x80], Zeros(g));
    BitsConcat(m, [0x80]);
    OneAndZeros(g);
    Regroup(Bits(m), Bits([0x80]), Bits(Zeros(g)));
    Regroup(Bits(m), [1], ZeroBits(7 + 8 * g));
  }

  lemma Regroup(a: seq<Bit>, b: seq<Bit>, c: seq<Bit>)
    ensures a + b + c == a + (b + c)
  {
  }

  /**
   The message, a one bit, as many zero bits as it takes and no more, and the 64-bit number of bits in the
   message; for the little-endian hash functions the last eight bytes come backwards.
   */
  lemma PaddedIsStandard(m: seq<Byte>, b: nat, big: bool) returns (k: nat, field: seq<Byte>)
    requires b > 8
    ensures LeastZeros(8 * |m|, k, 8 * b)
    ensures |field| == 8 && Bits(Padded(m, b, big)) == Bits(m) + [1] + ZeroBits(k) + Bits(field)
    ensures Bits(if big then field else Reversed(field)) == Binary(8 * |m| % 0x1_0000_0000_0000_0000, 64)
  {
    k := 7 + 8 * Gap(|m|, b);
    field := Field(8 * |m| % DOUBLE_WORD, 8, big);
    LeastBits(|m|, b);
    PaddedParts(m, Gap(|m|, b), field);
    FieldIsNumber(8 * |m| % DOUBLE_WORD, big);
  }

  lemma {:induction false} ReversedTwice(s: seq<Byte>)
    ensures Reversed(Reversed(s)) == s
  {
    if s != [] {
      ReversedTwice(s[1..]);
      ReversedSnoc(Reversed(s[1..]), s[0]);
    }
  }

  lemma FieldIsNumber(v: nat, big: bool)
    ensures Bits(if big then Field(v, 8, big) else Reversed(Field(v, 8, big))) == Binary(v, 64)
  {
    FieldDigits(v, 8, big);
  }

  lemma FieldDigits(v: nat, k: nat, big: bool)
    ensures Bits(if big then Field(v, k, big) else Reversed(Field(v, k, big))) == Binary(v, 8 * k)
  {
    BigEndianBits(v, k);
    LittleIsReversed(v, k);
    ReversedTwice(BigEndian(v, k));
  }
}
