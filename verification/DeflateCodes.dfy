/** The codes that `trees.h` gives distances and lengths, and their ranges in RFC 1951 section 3.2.5. */
module DeflateCodes {
  import opened Words
  import opened Numerals
  import opened DeflateTally
  import opened TreeTables

  // ----- distances

  /** The `size` distances from `first` on, each less one, are among those of the code `c`. */
  predicate InDist(c: nat, first: int, size: nat) {
    c < D_CODES && BaseDist(c) <= first && first + size <= BaseDist(c + 1)
  }

  /** An entry of `_dist_code` stands for one distance in the first half of the table, and for 128 in the second. */
  predicate DistEntry(c: nat, i: nat) {
    && c < D_CODES
    && (i < 256 ==> InDist(c, i, 1))
    && (i >= 258 ==> InDist(c, 128 * (i - 256), 128))
  }

  ghost predicate DistLine(n: nat) {
    forall k | 0 <= k < |DistCodeLine(n)| :: DistEntry(DistCodeLine(n)[k], 20 * n + k)
  }

  // A line of the table at a time; all of it at once is too much.
  lemma DistLine0() ensures DistLine(0) {}
  lemma DistLine1() ensures DistLine(1) {}
  lemma DistLine2() ensures DistLine(2) {}
  lemma DistLine3() ensures DistLine(3) {}
  lemma DistLine4() ensures DistLine(4) {}
  lemma DistLine5() ensures DistLine(5) {}
  lemma DistLine6() ensures DistLine(6) {}
  lemma DistLine7() ensures DistLine(7) {}
  lemma DistLine8() ensures DistLine(8) {}
  lemma DistLine9() ensures DistLine(9) {}
  lemma DistLine10() ensures DistLine(10) {}
  lemma DistLine11() ensures DistLine(11) {}
  lemma DistLine12() ensures DistLine(12) {}
  lemma DistLine13() ensures DistLine(13) {}
  lemma DistLine14() ensures DistLine(14) {}
  lemma DistLine15() ensures DistLine(15) {}
  lemma DistLine16() ensures DistLine(16) {}
  lemma DistLine17() ensures DistLine(17) {}
  lemma DistLine18() ensures DistLine(18) {}
  lemma DistLine19() ensures DistLine(19) {}
  lemma DistLine20() ensures DistLine(20) {}
  lemma DistLine21() ensures DistLine(21) {}
  lemma DistLine22() ensures DistLine(22) {}
  lemma DistLine23() ensures DistLine(23) {}
  lemma DistLine24() ensures DistLine(24) {}
  lemma DistLine25() ensures DistLine(25) {}

  lemma DistLines(n: nat)
    requires n < 26
    ensures DistLine(n)
  {
    DistLine0(); DistLine1(); DistLine2(); DistLine3();
    DistLine4(); DistLine5(); DistLine6(); DistLine7();
    DistLine8(); DistLine9(); DistLine10(); DistLine11();
    DistLine12(); DistLine13(); DistLine14(); DistLine15();
    DistLine16(); DistLine17(); DistLine18(); DistLine19();
    DistLine20(); DistLine21(); DistLine22(); DistLine23();
    DistLine24(); DistLine25();
  }

  /** The extra bits that follow the code `c`. */
  function ExtraDist(c: nat): nat {
    if c < 2 then 0 else c / 2 - 1
  }

  /** Powers of two up to `Power(2, 13)`. */
  lemma Powers()
    ensures Power(2, 0) == 1 && Power(2, 1) == 2 && Power(2, 2) == 4 && Power(2, 3) == 8 && Power(2, 4) == 16
    ensures Power(2, 5) == 32 && Power(2, 6) == 64 && Power(2, 7) == 128 && Power(2, 8) == 256 && Power(2, 9) == 512
    ensures Power(2, 10) == 1024 && Power(2, 11) == 2048 && Power(2, 12) == 4096 && Power(2, 13) == 8192
  {
  }

  /** A code stands for as many distances as its extra bits can tell apart. */
  lemma DistSpan(c: nat)
    requires c < D_CODES
    ensures BaseDist(c + 1) == BaseDist(c) + Power(2, ExtraDist(c))
  {
    Powers();
  }

  // ----- lengths

  /** The length `n`, less three, is one of the code `c`; the longest match has a code to itself. */
  predicate InLength(c: nat, n: nat) {
    if c == LENGTH_CODES - 1 then n == 255 else c < LENGTH_CODES - 1 && BaseLength(c) <= n < LengthEnd(c)
  }

  function LengthEnd(c: nat): nat {
    if c == LENGTH_CODES - 2 then 255 else BaseLength(c + 1)
  }

  ghost predicate LengthLine(n: nat) {
    forall k | 0 <= k < |LengthCodeLine(n)| :: InLength(LengthCodeLine(n)[k], 20 * n + k)
  }

  lemma LengthLine0() ensures LengthLine(0) {}
  lemma LengthLine1() ensures LengthLine(1) {}
  lemma LengthLine2() ensures LengthLine(2) {}
  lemma LengthLine3() ensures LengthLine(3) {}
  lemma LengthLine4() ensures LengthLine(4) {}
  lemma LengthLine5() ensures LengthLine(5) {}
  lemma LengthLine6() ensures LengthLine(6) {}
  lemma LengthLine7() ensures LengthLine(7) {}
  lemma LengthLine8() ensures LengthLine(8) {}
  lemma LengthLine9() ensures LengthLine(9) {}
  lemma LengthLine10() ensures LengthLine(10) {}
  lemma LengthLine11() ensures LengthLine(11) {}
  lemma LengthLine12() ensures LengthLine(12) {}

  lemma LengthLines(n: nat)
    requires n < 13
    ensures LengthLine(n)
  {
    LengthLine0(); LengthLine1(); LengthLine2(); LengthLine3();
    LengthLine4(); LengthLine5(); LengthLine6(); LengthLine7();
    LengthLine8(); LengthLine9(); LengthLine10(); LengthLine11();
    LengthLine12();
  }

  function ExtraLength(c: nat): nat {
    if c < 4 then 0 else c / 4 - 1
  }

  /** So it is with lengths, but the last of the code before the longest match is not used. */
  lemma LengthSpan(c: nat)
    requires c < LENGTH_CODES - 1
    ensures LengthEnd(c) == BaseLength(c) + Power(2, ExtraLength(c)) - (if c == LENGTH_CODES - 2 then 1 else 0)
  {
    Powers();
  }

  // ----- the tables together

  function TreeCodes(): (codes: Codes)
    ensures |codes.length| == 256 && forall i | 0 <= i < 256 :: codes.length[i] == LengthCodeLine(i / 20)[i % 20]
    ensures |codes.dist| == 512 && forall i | 0 <= i < 512 :: codes.dist[i] == DistCodeLine(i / 20)[i % 20]
  {
    Codes(seq(256, i requires 0 <= i < 256 => LengthCodeLine(i / 20)[i % 20]),
          seq(512, i requires 0 <= i < 512 => DistCodeLine(i / 20)[i % 20]))
  }

  lemma DistEntryRight(i: nat)
    requires i < 512
    ensures DistEntry(TreeCodes().dist[i], i)
  {
    DistLines(i / 20);
    assert 20 * (i / 20) + i % 20 == i;
  }

  lemma LengthEntryRight(n: nat)
    requires n < 256
    ensures InLength(TreeCodes().length[n], n)
  {
    LengthLines(n / 20);
    assert 20 * (n / 20) + n % 20 == n;
  }

  /** The tables are of the sizes and ranges that the tally needs. */
  lemma TreesFit()
    ensures Fits(TreeCodes())
  {
    forall i | 0 <= i < 256 ensures TreeCodes().length[i] < LENGTH_CODES {
      LengthEntryRight(i);
    }
    forall i | 0 <= i < 512 ensures TreeCodes().dist[i] < D_CODES {
      DistEntryRight(i);
    }
  }

  /** The two-level lookup finds the code that, with its extra bits, stands for the distance (less one). */
  lemma DCodeIsRange(n: nat)
    requires n < 32768
    ensures Fits(TreeCodes())
    ensures var c := DCode(TreeCodes(), n); BaseDist(c) <= n < BaseDist(c) + Power(2, ExtraDist(c))
  {
    TreesFit();
    DistEntryRight(if n < 256 then n else 256 + n / 128);
    DistSpan(DCode(TreeCodes(), n));
  }

  /** So does the lookup of a length (less three). */
  lemma LCodeIsRange(n: nat)
    requires n < 256
    ensures var c := TreeCodes().length[n];
            && (c == LENGTH_CODES - 1 <==> n == 255)
            && (n < 255 ==> c < LENGTH_CODES - 1 && BaseLength(c) <= n < BaseLength(c) + Power(2, ExtraLength(c)))
  {
    LengthEntryRight(n);
    if n < 255 {
      LengthSpan(TreeCodes().length[n]);
    }
  }

  // ----- one token counts once, under its symbol of RFC 1951

  /** Counter `k` goes up by one, modulo 2^16, and no other changes. */
  ghost predicate CountsOne(before: seq<Half>, now: seq<Half>, k: nat) {
    && |now| == |before| && k < |now| && now[k] as int == (before[k] as int + 1) % 0x1_0000
    && forall j | 0 <= j < |now| && j != k :: now[j] == before[j]
  }

  /** The length `n`, three more in fact and below 258, has the code `c`. */
  ghost predicate LengthHas(n: nat, c: nat) {
    c < 28 && BaseLength(c) <= n < BaseLength(c) + Power(2, ExtraLength(c))
  }

  /** The distance `d` has the code `c`. */
  ghost predicate DistanceHas(d: nat, c: nat) {
    c < 30 && BaseDist(c) <= d - 1 < BaseDist(c) + Power(2, ExtraDist(c))
  }

  lemma OneLengthCode(n: nat, c: nat, d: nat)
    requires n < 255 && LengthHas(n, c) && LengthHas(n, d)
    ensures c == d
  {
    LengthSpan(c);
    LengthSpan(d);
    if c < d {
      BasesGrow(c, d);
    } else if d < c {
      BasesGrow(d, c);
    }
  }

  /** Every code but the last is followed by codes for longer matches. */
  lemma {:induction false} BasesGrow(c: nat, d: nat)
    requires c < d < 28
    ensures LengthEnd(c) <= BaseLength(d)
    decreases d
  {
    if c + 1 < d {
      BasesGrow(c, d - 1);
      LengthSpan(d - 1);
    }
  }

  lemma OneDistanceCode(n: nat, c: nat, d: nat)
    requires DistanceHas(n, c) && DistanceHas(n, d)
    ensures c == d
  {
    DistSpan(c);
    DistSpan(d);
    if c < d {
      DistancesGrow(c, d);
    } else if d < c {
      DistancesGrow(d, c);
    }
  }

  lemma {:induction false} DistancesGrow(c: nat, d: nat)
    requires c < d < 30
    ensures BaseDist(c + 1) <= BaseDist(d)
    decreases d
  {
    if c + 1 < d {
      DistancesGrow(c, d - 1);
      DistSpan(d - 1);
    }
  }

  lemma BumpCountsOne(counts: seq<Half>, k: nat)
    requires k < |counts|
    ensures CountsOne(counts, Bump(counts, k), k)
  {
  }

  /** Whatever the tables, a match counts under the code of its length and the code of its distance. */
  lemma MatchCounts(codes: Codes, b: Block, d: nat, n: Byte)
    requires Fits(codes) && Sized(b) && 1 <= d <= 32768
    ensures var r := Tallied(codes, b, Match(d, n));
            && CountsOne(b.literals, r.literals, 257 + codes.length[n])
            && CountsOne(b.distances, r.distances, DCode(codes, d - 1))
  {
    BumpCountsOne(b.literals, 257 + codes.length[n]);
    BumpCountsOne(b.distances, DCode(codes, d - 1));
  }

  /** The one code of a length. */
  lemma LengthCode(codes: Codes, n: nat, c: nat)
    requires codes == TreeCodes() && n < 255
    ensures LengthHas(n, c) <==> c == codes.length[n]
  {
    LCodeIsRange(n);
    assert LengthHas(n, codes.length[n]);
    if LengthHas(n, c) {
      OneLengthCode(n, c, codes.length[n]);
    }
  }

  /** The one code of a distance. */
  lemma DistanceCode(codes: Codes, d: nat, c: nat)
    requires codes == TreeCodes() && Fits(codes) && 1 <= d <= 32768
    ensures DistanceHas(d, c) <==> c == DCode(codes, d - 1)
  {
    DCodeIsRange(d - 1);
    if DistanceHas(d, c) {
      OneDistanceCode(d, c, DCode(codes, d - 1));
    }
  }

  /** A literal counts under its own byte, and nothing else does. */
  lemma ByteSymbol(codes: Codes, b: Block, c: Byte)
    requires codes == TreeCodes() && Fits(codes) && Sized(b)
    ensures var r := Tallied(codes, b, Literal(c));
            CountsOne(b.literals, r.literals, c) && r.distances == b.distances
  {
    BumpCountsOne(b.literals, c);
  }

  /** The longest match counts under 285, any other under 257 and its one length code on. */
  lemma LengthSymbol(codes: Codes, b: Block, d: nat, n: Byte, c: nat)
    requires codes == TreeCodes() && Fits(codes) && Sized(b) && 1 <= d <= 32768
    ensures n == 255 ==> CountsOne(b.literals, Tallied(codes, b, Match(d, n)).literals, 285)
    ensures n < 255 ==> (exists k :: LengthHas(n, k))
    ensures n < 255 && LengthHas(n, c) ==> CountsOne(b.literals, Tallied(codes, b, Match(d, n)).literals, 257 + c)
  {
    MatchCounts(codes, b, d, n);
    if n == 255 {
      LCodeIsRange(n);
    } else {
      LengthCode(codes, n, c);
      LengthCode(codes, n, codes.length[n]);
      assert LengthHas(n, codes.length[n]);
    }
  }

  /** And a match counts under its one distance code. */
  lemma DistanceSymbol(codes: Codes, b: Block, d: nat, n: Byte, c: nat)
    requires codes == TreeCodes() && Fits(codes) && Sized(b) && 1 <= d <= 32768
    ensures exists k :: DistanceHas(d, k)
    ensures DistanceHas(d, c) ==> CountsOne(b.distances, Tallied(codes, b, Match(d, n)).distances, c)
  {
    MatchCounts(codes, b, d, n);
    DistanceCode(codes, d, c);
    DistanceCode(codes, d, DCode(codes, d - 1));
    assert DistanceHas(d, DCode(codes, d - 1));
  }
}
