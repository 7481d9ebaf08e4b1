/** The specification of the collector: block folding, the length field and the padded message. */
module HashPadding {
  import opened Words
  import opened Numerals

  const WORD: int := 0x1_0000_0000
  const DOUBLE_WORD: int := 0x1_0000_0000_0000_0000

  type BlockFunction<!H> = (H, seq<Byte>) -> H

  /** The chaining value after all whole blocks of `s`. */
  function Blocks<H>(f: BlockFunction<H>, h: H, s: seq<Byte>, b: nat): H
    requires b > 0
  {
    if |s| < b then h else Blocks(f, f(h, s[..b]), s[b..], b)
  }

  lemma BlocksStep<H>(f: BlockFunction<H>, h: H, s: seq<Byte>, b: nat)
    requires b > 0 && |s| >= b
    ensures Blocks(f, h, s, b) == Blocks(f, f(h, s[..b]), s[b..], b)
  {
  }

  lemma {:induction false} WholeBlocksConcat<H>(f: BlockFunction<H>, h: H, s: seq<Byte>, t: seq<Byte>, b: nat, k: nat)
    requires b > 0 && |s| == k * b
    ensures Blocks(f, h, s + t, b) == Blocks(f, Blocks(f, h, s, b), t, b)
    decreases k
  {
    if k == 0 {
      assert s + t == t;
    } else {
      OneFewer(k, b);
      assert (s + t)[..b] == s[..b] && (s + t)[b..] == s[b..] + t;
      BlocksStep(f, h, s + t, b);
      BlocksStep(f, h, s, b);
      WholeBlocksConcat(f, f(h, s[..b]), s[b..], t, b, k - 1);
    }
  }

  lemma OneFewer(k: nat, b: nat)
    requires k > 0
    ensures k * b == (k - 1) * b + b && (k - 1) * b >= 0
  {
  }

  lemma BlocksConcat<H>(f: BlockFunction<H>, h: H, s: seq<Byte>, t: seq<Byte>, b: nat)
    requires b > 0 && |s| % b == 0
    ensures Blocks(f, h, s + t, b) == Blocks(f, Blocks(f, h, s, b), t, b)
  {
    assert |s| == |s| / b * b;
    WholeBlocksConcat(f, h, s, t, b, |s| / b);
  }

  lemma PlusOne(n: int, b: nat)
    requires b > 0
    ensures (n + b) % b == n % b
  {
    var q, r := n / b, n % b;
    assert n + b == (q + 1) * b + r;
    Remainder(n + b, b, q + 1, r);
  }

  lemma Remainder(n: int, b: nat, q: int, r: int)
    requires b > 0 && n == q * b + r && 0 <= r < b
    ensures n % b == r && n / b == q
  {
    var d := n / b - q;
    assert d * b == r - n % b;
    Monotone(1, d, b);
    Monotone(d, -1, b);
  }

  lemma Monotone(x: int, y: int, b: nat)
    ensures x <= y ==> x * b <= y * b
  {
  }

  /** The tail that no whole block has taken yet. */
  function Tail(s: seq<Byte>, b: nat): (r: seq<Byte>)
    requires b > 0
    ensures |r| == |s| % b
  {
    s[|s| - |s| % b..]
  }

  // ----- the length field

  /** `k` bytes, the most significant first. */
  function BigEndian(v: nat, k: nat): (r: seq<Byte>)
    ensures |r| == k
  {
    if k == 0 then [] else BigEndian(v / 256, k - 1) + [v % 256]
  }

  /** `k` bytes, the least significant first. */
  function LittleEndian(v: nat, k: nat): (r: seq<Byte>)
    ensures |r| == k
  {
    if k == 0 then [] else [v % 256] + LittleEndian(v / 256, k - 1)
  }

  function Field(v: nat, k: nat, big: bool): (r: seq<Byte>)
    ensures |r| == k
  {
    if big then BigEndian(v, k) else LittleEndian(v, k)
  }

  /** Fields tell numbers apart that fit. */
  lemma {:induction false} FieldInjective(v: nat, w: nat, k: nat, big: bool)
    requires Field(v, k, big) == Field(w, k, big) && v < Power(256, k) && w < Power(256, k)
    ensures v == w
  {
    if k > 0 {
      if big {
        assert BigEndian(v, k)[..k - 1] == BigEndian(v / 256, k - 1);
        assert BigEndian(w, k)[..k - 1] == BigEndian(w / 256, k - 1);
        assert BigEndian(v, k)[k - 1] == v % 256 && BigEndian(w, k)[k - 1] == w % 256;
      } else {
        assert LittleEndian(v, k)[1..] == LittleEndian(v / 256, k - 1);
        assert LittleEndian(w, k)[1..] == LittleEndian(w / 256, k - 1);
        assert LittleEndian(v, k)[0] == v % 256 && LittleEndian(w, k)[0] == w % 256;
      }
      FieldInjective(v / 256, w / 256, k - 1, big);
    }
  }

  // ----- the padded message

  function Zeros(k: nat): (r: seq<Byte>)
    ensures |r| == k && forall i | 0 <= i < k :: r[i] == 0
  {
    seq(k, _ => 0)
  }

  /** The fewest zero bytes that end the message, its mark and its length field on a block boundary. */
  function Gap(n: nat, b: nat): nat
    requires b > 8
  {
    if (n + 9) % b == 0 then 0 else b - (n + 9) % b
  }

  /** FIPS 180-4 section 5.1.1 (big-endian) and RFC 1321 sections 3.1 and 3.2 (little-endian). */
  function Padded(msg: seq<Byte>, b: nat, big: bool): seq<Byte>
    requires b > 8
  {
    msg + [0x80] + Zeros(Gap(|msg|, b)) + Field(8 * |msg| % DOUBLE_WORD, 8, big)
  }

  /** Padding ends on a block boundary. */
  lemma PaddedLength(msg: seq<Byte>, b: nat, big: bool)
    requires b > 8
    ensures |Padded(msg, b, big)| % b == 0
  {
    var n := |msg| + 9;
    if n % b != 0 {
      assert n + Gap(|msg|, b) == (n / b + 1) * b + 0;
      Remainder(n + Gap(|msg|, b), b, n / b + 1, 0);
    }
  }

  /** It adds at least the mark and the length, and less than one block more than those need. */
  lemma PaddedSlack(msg: seq<Byte>, b: nat, big: bool)
    requires b > 8
    ensures |msg| + 9 <= |Padded(msg, b, big)| < |msg| + 9 + b
  {
  }

  /** What padding makes of the unprocessed tail is one block, or two when mark and length do not fit. */
  lemma PaddedTail(msg: seq<Byte>, b: nat, big: bool)
    requires b > 8
    ensures var whole := |msg| - |msg| % b;
            |Padded(msg, b, big)| - whole == if |msg| % b + 9 <= b then b else 2 * b
  {
    PaddedLength(msg, b, big);
    PaddedSlack(msg, b, big);
    WholeTail(|Padded(msg, b, big)|, |msg|, b);
  }

  /** A whole number of blocks that is the least to hold nine bytes more than `n`. */
  lemma WholeTail(p: nat, n: nat, b: nat)
    requires b > 8 && p % b == 0 && n + 9 <= p < n + 9 + b
    ensures p - (n - n % b) == if n % b + 9 <= b then b else 2 * b
  {
    var x, q, r := p / b, n / b, n % b;
    assert p == x * b && n == q * b + r;
    var k := if r + 9 <= b then 1 else 2;
    assert (q + k - 1) * b == q * b + (k - 1) * b && (q + k + 1) * b == q * b + (k + 1) * b;
    Between(x, q, k, b);
  }

  lemma Between(x: int, q: int, k: int, b: nat)
    requires b > 0 && (q + k - 1) * b < x * b < (q + k + 1) * b
    ensures x == q + k && x * b - q * b == k * b
  {
    Monotone(x, q + k - 1, b);
    Monotone(q + k + 1, x, b);
  }

  /** Messages that pad alike are alike: the mark is the last byte before the length field that is not zero. */
  lemma PaddedInjective(m: seq<Byte>, n: seq<Byte>, b: nat, big: bool)
    requires b > 8 && Padded(m, b, big) == Padded(n, b, big)
    ensures m == n
  {
    if |m| < |n| {
      BehindMark(m, |n|, b, big);
    } else if |n| < |m| {
      BehindMark(n, |m|, b, big);
    }
    assert Padded(m, b, big)[..|m|] == m && Padded(n, b, big)[..|n|] == n;
  }

  /** A byte behind the mark that is not in the length field is zero. */
  lemma BehindMark(m: seq<Byte>, k: nat, b: nat, big: bool)
    requires b > 8 && |m| < k && k + 9 <= |Padded(m, b, big)|
    ensures Padded(m, b, big)[k] == 0
  {
    assert Zeros(Gap(|m|, b))[k - |m| - 1] == 0;
  }

  /** Padded messages, in blocks of any size, have the same length field exactly if their lengths agree modulo 2^61. */
  lemma LengthFieldExact(m: seq<Byte>, n: seq<Byte>, b: nat, c: nat, big: bool)
    requires b > 8 && c > 8
    ensures var p, q := Padded(m, b, big), Padded(n, c, big);
            p[|p| - 8..] == q[|q| - 8..] <==> |m| % 0x2000_0000_0000_0000 == |n| % 0x2000_0000_0000_0000
  {
    var v, w := 8 * |m| % DOUBLE_WORD, 8 * |n| % DOUBLE_WORD;
    LengthField(m, b, big);
    LengthField(n, c, big);
    PowerEight();
    if Field(v, 8, big) == Field(w, 8, big) {
      FieldInjective(v, w, 8, big);
    }
    BitsModulo(|m|);
    BitsModulo(|n|);
  }

  lemma BitsModulo(n: nat)
    ensures 8 * n % DOUBLE_WORD == 8 * (n % 0x2000_0000_0000_0000)
  {
  }

  lemma LengthField(m: seq<Byte>, b: nat, big: bool)
    requires b > 8
    ensures var p := Padded(m, b, big); p[|p| - 8..] == Field(8 * |m| % DOUBLE_WORD, 8, big)
  {
  }

  lemma PowerEight()
    ensures Power(256, 8) == DOUBLE_WORD
  {
    assert Power(256, 4) == 0x1_0000_0000;
    assert Power(256, 8) == 256 * (256 * (256 * (256 * Power(256, 4))));
  }

  // ----- words in byte order

  /** `HOST_l2c`. */
  function WordBytes(l: Word, big: bool): (r: seq<Byte>)
    ensures |r| == 4
  {
    if big then [l / 0x100_0000 % 256, l / 0x1_0000 % 256, l / 256 % 256, l % 256]
    else [l % 256, l / 256 % 256, l / 0x1_0000 % 256, l / 0x100_0000 % 256]
  }

  function FromDigits(a: int, b: int, c: int, d: int): Word
    requires 0 <= a < 256 && 0 <= b < 256 && 0 <= c < 256 && 0 <= d < 256
  {
    a * 0x100_0000 + b * 0x1_0000 + c * 256 + d
  }

  /** `HOST_c2l`; the four shifted bytes do not overlap, so the bitwise or adds them. */
  function BytesWord(c: seq<Byte>, big: bool): Word
    requires |c| == 4
  {
    if big then FromDigits(c[0], c[1], c[2], c[3]) else FromDigits(c[3], c[2], c[1], c[0])
  }

  lemma DigitsOfWord(l: Word)
    ensures FromDigits(l / 0x100_0000 % 256, l / 0x1_0000 % 256, l / 256 % 256, l % 256) == l
  {
    assert l / 0x1_0000 == l / 0x100_0000 * 256 + l / 0x1_0000 % 256;
    assert l / 256 == l / 0x1_0000 * 256 + l / 256 % 256;
  }

  lemma WordOfDigits(a: int, b: int, c: int, d: int)
    requires 0 <= a < 256 && 0 <= b < 256 && 0 <= c < 256 && 0 <= d < 256
    ensures var l := FromDigits(a, b, c, d);
            l / 0x100_0000 % 256 == a && l / 0x1_0000 % 256 == b && l / 256 % 256 == c && l % 256 == d
  {
    var l := FromDigits(a, b, c, d);
    assert l / 256 == a * 0x1_0000 + b * 256 + c;
    assert l / 0x1_0000 == a * 256 + b;
    assert l / 0x100_0000 == a;
  }

  /** Storing a word and loading it are inverse. */
  lemma WordRoundTrip(l: Word, c: seq<Byte>, big: bool)
    requires |c| == 4
    ensures BytesWord(WordBytes(l, big), big) == l
    ensures WordBytes(BytesWord(c, big), big) == c
  {
    DigitsOfWord(l);
    if big {
      WordOfDigits(c[0], c[1], c[2], c[3]);
    } else {
      WordOfDigits(c[3], c[2], c[1], c[0]);
    }
  }

  /** The last four bytes of a big-endian field are a word. */
  lemma BigWord(v: nat, k: nat)
    ensures BigEndian(v, k + 4) == BigEndian(v / WORD, k) + WordBytes(v % WORD, true)
  {
    var a, b, c := v / 256, v / 0x1_0000, v / 0x100_0000;
    assert b == a / 256 && c == b / 256 && v / WORD == c / 256;
    assert BigEndian(c, k + 1) == BigEndian(v / WORD, k) + [c % 256];
    assert BigEndian(b, k + 2) == BigEndian(c, k + 1) + [b % 256];
    assert BigEndian(a, k + 3) == BigEndian(b, k + 2) + [a % 256];
    WordDigits(v);
  }

  lemma LittleStep(v: nat, k: nat)
    ensures LittleEndian(v, k + 1) == [v % 256] + LittleEndian(v / 256, k)
  {
  }

  lemma ByteQuotients(v: nat)
    ensures v / 256 / 256 == v / 0x1_0000 && v / 0x1_0000 / 256 == v / 0x100_0000 && v / 0x100_0000 / 256 == v / WORD
  {
  }

  lemma LittleFour(v: nat, a: nat, b: nat, c: nat, k: nat)
    requires a == v / 256 && b == a / 256 && c == b / 256
    ensures LittleEndian(v, k + 4) == [v % 256, a % 256, b % 256, c % 256] + LittleEndian(c / 256, k)
  {
    LittleStep(v, k + 3);
    LittleStep(a, k + 2);
    LittleStep(b, k + 1);
    LittleStep(c, k);
  }

  lemma LittleWord(v: nat, k: nat)
    ensures LittleEndian(v, k + 4) == WordBytes(v % WORD, false) + LittleEndian(v / WORD, k)
  {
    ByteQuotients(v);
    LittleFour(v, v / 256, v / 0x1_0000, v / 0x100_0000, k);
    WordDigits(v);
  }

  lemma Quotient(n: nat, r: nat, k: nat)
    requires r < k
    ensures (n * k + r) / k == n
  {
    Remainder(n * k + r, k, n, r);
  }

  /** Whole words do not touch the digits below them. */
  lemma DigitBelow(q: nat, w: nat, k: nat, j: nat)
    requires k > 0 && k * (j * 256) == WORD
    ensures (q * WORD + w) / k % 256 == w / k % 256
  {
    var c, r := w / k, w % k;
    var n := q * (j * 256) + c;
    assert w == c * k + r;
    assert q * WORD == q * (j * 256) * k;
    assert n * k == q * (j * 256) * k + c * k;
    Quotient(n, r, k);
    assert n == (q * j) * 256 + c;
    Remainder(n, 256, q * j + c / 256, c % 256);
  }

  lemma WordDigits(v: nat)
    ensures v % WORD % 256 == v % 256
    ensures v % WORD / 256 % 256 == v / 256 % 256
    ensures v % WORD / 0x1_0000 % 256 == v / 0x1_0000 % 256
    ensures v % WORD / 0x100_0000 % 256 == v / 0x100_0000 % 256
  {
    var w, q := v % WORD, v / WORD;
    assert v == q * WORD + w;
    DigitBelow(q, w, 1, 0x100_0000);
    DigitBelow(q, w, 256, 0x1_0000);
    DigitBelow(q, w, 0x1_0000, 256);
    DigitBelow(q, w, 0x100_0000, 1);
  }

  /** The two counter words, stored in the order of their bytes, are the eight-byte field. */
  lemma CounterField(nh: Word, nl: Word, big: bool)
    ensures Field(nh * WORD + nl, 8, big)
         == if big then WordBytes(nh, true) + WordBytes(nl, true) else WordBytes(nl, false) + WordBytes(nh, false)
  {
    var v := nh * WORD + nl;
    assert v / WORD == nh && v % WORD == nl && nh / WORD == 0 && nh % WORD == nh;
    if big {
      BigWord(v, 4);
      BigWord(nh, 0);
    } else {
      LittleWord(v, 4);
      LittleWord(nh, 0);
    }
  }

  // ----- the bit counter

  /** The two-word counter after `len` more bytes, as `HASH_UPDATE` computes it. */
  function NextLow(nl: Word, len: nat): Word {
    (nl + len % WORD * 8 % WORD) % WORD
  }

  function NextHigh(nh: Word, nl: Word, len: nat): Word {
    var carried := if NextLow(nl, len) < nl then (nh + 1) % WORD else nh;
    (carried + len / 0x2000_0000 % WORD) % WORD
  }

  /** The counter counts bits modulo 2^64; a sum smaller than its first term tells that the low word overflowed. */
  lemma CounterAdds(nh: Word, nl: Word, len: nat, total: nat)
    requires nh * WORD + nl == 8 * total % DOUBLE_WORD
    ensures NextHigh(nh, nl, len) * WORD + NextLow(nl, len) == 8 * (total + len) % DOUBLE_WORD
  {
    var carry := if NextLow(nl, len) < nl then 1 else 0;
    var high := nh + carry + len / 0x2000_0000;
    LowWord(nl, len / 0x2000_0000, len % 0x2000_0000);
    NextHighIs(nh, nl, len, carry);
    DoubleWord(8 * total, 8 * len, high, NextLow(nl, len));
  }

  lemma NextHighIs(nh: Word, nl: Word, len: nat, carry: nat)
    requires carry == if NextLow(nl, len) < nl then 1 else 0
    ensures NextHigh(nh, nl, len) == (nh + carry + len / 0x2000_0000) % WORD
  {
    HighWord(nh, carry, len / 0x2000_0000);
  }

  /** What the low word loses by wrapping around is one carry and the high part of the length. */
  lemma LowWord(nl: Word, q: nat, r: nat)
    requires r < 0x2000_0000
    ensures var len := q * 0x2000_0000 + r;
            nl + 8 * len == ((if NextLow(nl, len) < nl then 1 else 0) + q) * WORD + NextLow(nl, len)
  {
    var len := q * 0x2000_0000 + r;
    ShiftedLength(q, r);
    assert nl + 8 * r == (if NextLow(nl, len) < nl then 1 else 0) * WORD + NextLow(nl, len);
  }

  lemma ShiftedLength(q: nat, r: nat)
    requires r < 0x2000_0000
    ensures (q * 0x2000_0000 + r) % WORD * 8 % WORD == 8 * r
  {
  }

  lemma HighWord(nh: Word, carry: nat, q: nat)
    ensures ((nh + carry) % WORD + q % WORD) % WORD == (nh + carry + q) % WORD
  {
  }

  lemma DoubleWord(before: nat, more: nat, high: nat, low: Word)
    requires before % DOUBLE_WORD + more == high * WORD + low
    ensures high % WORD * WORD + low == (before + more) % DOUBLE_WORD
  {
    var k, q := before / DOUBLE_WORD, high / WORD;
    assert before + more == (k + q) * DOUBLE_WORD + (high % WORD * WORD + low);
    Remainder(before + more, DOUBLE_WORD, k + q, high % WORD * WORD + low);
  }
}
