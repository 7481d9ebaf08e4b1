/** `_tr_tally_lit` and `_tr_tally_dist`: the symbol buffer and the frequency counters. */
module DeflateTally {
  import opened Words

  const LENGTH_CODES := 29
  const D_CODES := 30
  const LITERALS := 256
  const L_CODES := LITERALS + 1 + LENGTH_CODES
  const HEAP_SIZE := 2 * L_CODES + 1

  /** `_length_code` and `_dist_code` of `trees.h`. */
  datatype Codes = Codes(length: seq<nat>, dist: seq<nat>)

  predicate Fits(codes: Codes) {
    && |codes.length| == 256 && (forall i | 0 <= i < 256 :: codes.length[i] < LENGTH_CODES)
    && |codes.dist| == 512 && (forall i | 0 <= i < 512 :: codes.dist[i] < D_CODES)
  }

  /** `d_code`, for a distance less one. */
  function DCode(codes: Codes, dist: nat): (c: nat)
    requires Fits(codes) && dist < 32768
    ensures c < D_CODES
  {
    if dist < 256 then codes.dist[dist] else codes.dist[256 + dist / 128]
  }

  /** A match has the distance and the length less three. */
  datatype Token = Literal(c: Byte) | Match(distance: int, length: Byte)

  predicate Valid(t: Token) {
    t.Match? ==> 1 <= t.distance <= 32768
  }

  predicate AllValid(ts: seq<Token>) {
    forall i | 0 <= i < |ts| :: Valid(ts[i])
  }

  // ----- what the macros do to the block so far

  datatype Block = Block(buf: seq<Byte>, literals: seq<Half>, distances: seq<Half>)

  predicate Sized(b: Block) {
    |b.literals| == HEAP_SIZE && |b.distances| == 2 * D_CODES + 1
  }

  function Packed(t: Token): seq<Byte>
    requires Valid(t)
  {
    match t
    case Literal(c) => [0, 0, c]
    case Match(d, n) => [d % 256, d / 256, n]
  }

  /** A 16-bit counter goes up by one and wraps around. */
  function Bump(counts: seq<Half>, k: nat): seq<Half>
    requires k < |counts|
  {
    counts[k := (counts[k] as int + 1) % 0x1_0000]
  }

  function LiteralIndex(codes: Codes, t: Token): (k: nat)
    requires Fits(codes)
    ensures k < HEAP_SIZE
  {
    match t
    case Literal(c) => c
    case Match(_, n) => codes.length[n] + LITERALS + 1
  }

  function Tallied(codes: Codes, b: Block, t: Token): (r: Block)
    requires Fits(codes) && Sized(b) && Valid(t)
    ensures Sized(r)
  {
    Block(b.buf + Packed(t), Bump(b.literals, LiteralIndex(codes, t)),
          if t.Match? then Bump(b.distances, DCode(codes, t.distance - 1)) else b.distances)
  }

  function Run(codes: Codes, b: Block, ts: seq<Token>): (r: Block)
    requires Fits(codes) && Sized(b) && AllValid(ts)
    ensures Sized(r)
    decreases |ts|
  {
    if ts == [] then b else Run(codes, Tallied(codes, b, ts[0]), ts[1..])
  }

  // ----- the code

  class DeflateState {
    const symBuf: array<Byte>
    const symEnd: nat
    const codes: Codes
    const dynLtree: array<Half>
    const dynDtree: array<Half>
    var symNext: nat

    ghost predicate Ready()
      reads this
    {
      && symNext <= symEnd <= symBuf.Length
      && dynLtree.Length == HEAP_SIZE && dynDtree.Length == 2 * D_CODES + 1
      && dynLtree != dynDtree && Fits(codes)
    }

    ghost function Now(): (b: Block)
      requires Ready()
      reads this, symBuf, dynLtree, dynDtree
      ensures Sized(b)
    {
      Block(symBuf[..symNext], dynLtree[..], dynDtree[..])
    }

    /** A state just before the first symbol of a block. */
    constructor (symEnd: nat, codes: Codes)
      requires Fits(codes)
      ensures Ready() && this.symEnd == symEnd && this.codes == codes
      ensures fresh(symBuf) && fresh(dynLtree) && fresh(dynDtree)
      ensures Now() == Block([], seq(HEAP_SIZE, _ => 0), seq(2 * D_CODES + 1, _ => 0))
    {
      this.symEnd := symEnd;
      this.codes := codes;
      symNext := 0;
      symBuf := new Byte[symEnd](_ => 0);
      dynLtree := new Half[HEAP_SIZE](_ => 0);
      dynDtree := new Half[2 * D_CODES + 1](_ => 0);
    }

    method Push(b: Byte)
      requires Ready() && symNext < symEnd
      modifies this`symNext, symBuf
      ensures Ready() && symNext == old(symNext) + 1
      ensures symBuf[..symNext] == old(symBuf[..symNext]) + [b]
    {
      symBuf[symNext] := b;
      symNext := symNext + 1;
    }

    method TallyLit(c: Byte) returns (flush: bool)
      requires Ready() && symNext + 3 <= symEnd
      modifies this`symNext, symBuf, dynLtree
      ensures Ready() && Now() == Tallied(codes, old(Now()), Literal(c)) && flush == (symNext == symEnd)
    {
      Push(0);
      Push(0);
      Push(c);
      dynLtree[c] := (dynLtree[c] as int + 1) % 0x1_0000;
      flush := symNext == symEnd;
    }

    method TallyDist(distance: int, length: Byte) returns (flush: bool)
      requires Ready() && symNext + 3 <= symEnd && 1 <= distance <= 32768
      modifies this`symNext, symBuf, dynLtree, dynDtree
      ensures Ready() && Now() == Tallied(codes, old(Now()), Match(distance, length)) && flush == (symNext == symEnd)
    {
      Push(distance % 256);
      Push(distance / 256);
      Push(length);
      var dist := distance - 1;
      var l, d := codes.length[length] + LITERALS + 1, DCode(codes, dist);
      dynLtree[l] := (dynLtree[l] as int + 1) % 0x1_0000;
      dynDtree[d] := (dynDtree[d] as int + 1) % 0x1_0000;
      flush := symNext == symEnd;
    }
  }

  // ----- the buffer decodes to the tokens

  function Unpacked(buf: seq<Byte>): seq<Token>
    requires |buf| % 3 == 0
  {
    if buf == [] then []
    else
      var dist := buf[0] as int + 256 * buf[1] as int;
      [if dist == 0 then Literal(buf[2]) else Match(dist, buf[2])] + Unpacked(buf[3..])
  }

  function PackedAll(ts: seq<Token>): (r: seq<Byte>)
    requires AllValid(ts)
    ensures |r| == 3 * |ts|
  {
    if ts == [] then [] else Packed(ts[0]) + PackedAll(ts[1..])
  }

  lemma {:induction false} UnpackedPacked(ts: seq<Token>)
    requires AllValid(ts)
    ensures Unpacked(PackedAll(ts)) == ts
  {
    if ts != [] {
      UnpackedPacked(ts[1..]);
      assert PackedAll(ts)[3..] == PackedAll(ts[1..]);
    }
  }

  lemma Regroup(a: seq<Byte>, b: seq<Byte>, c: seq<Byte>)
    ensures (a + b) + c == a + (b + c)
  {
  }

  lemma {:induction false} RunBuffer(codes: Codes, b: Block, ts: seq<Token>)
    requires Fits(codes) && Sized(b) && AllValid(ts)
    ensures Run(codes, b, ts).buf == b.buf + PackedAll(ts)
    decreases |ts|
  {
    if ts == [] {
      assert b.buf + [] == b.buf;
    } else {
      var r := Tallied(codes, b, ts[0]);
      assert r.buf == b.buf + Packed(ts[0]);
      RunBuffer(codes, r, ts[1..]);
      Regroup(b.buf, Packed(ts[0]), PackedAll(ts[1..]));
    }
  }

  // ----- the counters count

  function LiteralUses(codes: Codes, ts: seq<Token>, k: nat): nat
    requires Fits(codes)
  {
    if ts == [] then 0 else (if LiteralIndex(codes, ts[0]) == k then 1 else 0) + LiteralUses(codes, ts[1..], k)
  }

  function DistanceUses(codes: Codes, ts: seq<Token>, k: nat): nat
    requires Fits(codes) && AllValid(ts)
  {
    if ts == [] then 0
    else (if ts[0].Match? && DCode(codes, ts[0].distance - 1) == k then 1 else 0) + DistanceUses(codes, ts[1..], k)
  }

  function Matches(ts: seq<Token>): nat {
    if ts == [] then 0 else (if ts[0].Match? then 1 else 0) + Matches(ts[1..])
  }

  /** One use of counter `j` and `u` more uses of counter `k`, modulo the width of the counters. */
  lemma BumpThen(counts: seq<Half>, j: nat, k: nat, u: nat)
    requires j < |counts| && k < |counts|
    ensures (Bump(counts, j)[k] as int + u) % 0x1_0000
         == (counts[k] as int + ((if j == k then 1 else 0) + u)) % 0x1_0000
  {
  }

  lemma {:induction false} LiteralCounts(codes: Codes, b: Block, ts: seq<Token>, k: nat)
    requires Fits(codes) && Sized(b) && AllValid(ts) && k < HEAP_SIZE
    ensures Run(codes, b, ts).literals[k] == (b.literals[k] as int + LiteralUses(codes, ts, k)) % 0x1_0000
    decreases |ts|
  {
    if ts != [] {
      LiteralCounts(codes, Tallied(codes, b, ts[0]), ts[1..], k);
      BumpThen(b.literals, LiteralIndex(codes, ts[0]), k, LiteralUses(codes, ts[1..], k));
    }
  }

  lemma {:induction false} DistanceCounts(codes: Codes, b: Block, ts: seq<Token>, k: nat)
    requires Fits(codes) && Sized(b) && AllValid(ts) && k <= 2 * D_CODES
    ensures Run(codes, b, ts).distances[k] == (b.distances[k] as int + DistanceUses(codes, ts, k)) % 0x1_0000
    decreases |ts|
  {
    if ts != [] {
      DistanceCounts(codes, Tallied(codes, b, ts[0]), ts[1..], k);
      if ts[0].Match? {
        BumpThen(b.distances, DCode(codes, ts[0].distance - 1), k, DistanceUses(codes, ts[1..], k));
      }
    }
  }

  function Total(counts: seq<Half>): nat {
    if counts == [] then 0 else counts[0] + Total(counts[1..])
  }

  lemma {:induction false} TotalBump(counts: seq<Half>, k: nat)
    requires k < |counts| && counts[k] < 0xFFFF
    ensures Total(Bump(counts, k)) == Total(counts) + 1
  {
    if k == 0 {
      assert Bump(counts, k)[1..] == counts[1..];
    } else {
      assert Bump(counts, k)[1..] == Bump(counts[1..], k - 1);
      TotalBump(counts[1..], k - 1);
    }
  }

  /** Every counter can count what `ts` adds to it. */
  ghost predicate Room(codes: Codes, b: Block, ts: seq<Token>)
    requires Fits(codes) && Sized(b) && AllValid(ts)
  {
    && (forall k | 0 <= k < HEAP_SIZE :: b.literals[k] as int + LiteralUses(codes, ts, k) < 0x1_0000)
    && (forall k | 0 <= k <= 2 * D_CODES :: b.distances[k] as int + DistanceUses(codes, ts, k) < 0x1_0000)
  }

  /** Without a wrap the first token adds one to the totals and leaves room for the others. */
  lemma FirstToken(codes: Codes, b: Block, ts: seq<Token>)
    requires Fits(codes) && Sized(b) && AllValid(ts) && ts != [] && Room(codes, b, ts)
    ensures var r := Tallied(codes, b, ts[0]);
            && Total(r.literals) == Total(b.literals) + 1
            && Total(r.distances) == Total(b.distances) + (if ts[0].Match? then 1 else 0)
            && Room(codes, r, ts[1..])
  {
    var t := ts[0];
    var l := LiteralIndex(codes, t);
    assert b.literals[l] as int + LiteralUses(codes, ts, l) < 0x1_0000;
    TotalBump(b.literals, l);
    if t.Match? {
      var d := DCode(codes, t.distance - 1);
      assert b.distances[d] as int + DistanceUses(codes, ts, d) < 0x1_0000;
      TotalBump(b.distances, d);
    }
    RoomLeft(codes, b, ts);
  }

  lemma RoomLeft(codes: Codes, b: Block, ts: seq<Token>)
    requires Fits(codes) && Sized(b) && AllValid(ts) && ts != [] && Room(codes, b, ts)
    ensures Room(codes, Tallied(codes, b, ts[0]), ts[1..])
  {
    var r := Tallied(codes, b, ts[0]);
    forall k | 0 <= k < HEAP_SIZE ensures r.literals[k] as int + LiteralUses(codes, ts[1..], k) < 0x1_0000 {
      assert b.literals[k] as int + LiteralUses(codes, ts, k) < 0x1_0000;
    }
    forall k | 0 <= k <= 2 * D_CODES ensures r.distances[k] as int + DistanceUses(codes, ts[1..], k) < 0x1_0000 {
      assert b.distances[k] as int + DistanceUses(codes, ts, k) < 0x1_0000;
    }
  }

  /** While no counter wraps around, the totals grow by the tokens and by the matches. */
  lemma {:induction false} TotalsGrow(codes: Codes, b: Block, ts: seq<Token>)
    requires Fits(codes) && Sized(b) && AllValid(ts) && Room(codes, b, ts)
    ensures Total(Run(codes, b, ts).literals) == Total(b.literals) + |ts|
    ensures Total(Run(codes, b, ts).distances) == Total(b.distances) + Matches(ts)
    decreases |ts|
  {
    if ts != [] {
      FirstToken(codes, b, ts);
      TotalsGrow(codes, Tallied(codes, b, ts[0]), ts[1..]);
    }
  }

  /** The buffer of a block decodes to the tokens. */
  lemma BufferIsTokens(codes: Codes, b: Block, ts: seq<Token>)
    requires Fits(codes) && Sized(b) && AllValid(ts) && b.buf == []
    ensures |Run(codes, b, ts).buf| == 3 * |ts| && Unpacked(Run(codes, b, ts).buf) == ts
  {
    RunBuffer(codes, b, ts);
    UnpackedPacked(ts);
    assert [] + PackedAll(ts) == PackedAll(ts);
  }

  /** From any block on, a literal or length counter counts exactly when the count fits into it. */
  lemma LiteralExact(codes: Codes, b: Block, ts: seq<Token>, k: nat)
    requires Fits(codes) && Sized(b) && AllValid(ts) && k < HEAP_SIZE
    ensures var n := b.literals[k] as int + LiteralUses(codes, ts, k);
            Run(codes, b, ts).literals[k] == n <==> n < 0x1_0000
  {
    LiteralCounts(codes, b, ts, k);
  }

  /** So does a distance counter. */
  lemma DistanceExact(codes: Codes, b: Block, ts: seq<Token>, k: nat)
    requires Fits(codes) && Sized(b) && AllValid(ts) && k <= 2 * D_CODES
    ensures var n := b.distances[k] as int + DistanceUses(codes, ts, k);
            Run(codes, b, ts).distances[k] == n <==> n < 0x1_0000
  {
    DistanceCounts(codes, b, ts, k);
  }

  lemma {:induction false} UsesBound(codes: Codes, ts: seq<Token>, k: nat)
    requires Fits(codes) && AllValid(ts)
    ensures LiteralUses(codes, ts, k) <= |ts| && DistanceUses(codes, ts, k) <= |ts|
    ensures k == END_BLOCK ==> LiteralUses(codes, ts, k) == 0
  {
    if ts != [] {
      UsesBound(codes, ts[1..], k);
    }
  }

  /** No token uses the code that ends a block. */
  const END_BLOCK := 256

  /** At the start of a block no counter but that of the end code has counted anything. */
  ghost predicate AtStart(b: Block)
    requires Sized(b)
  {
    && (forall k | 0 <= k < HEAP_SIZE && k != END_BLOCK :: b.literals[k] == 0)
    && (forall k | 0 <= k <= 2 * D_CODES :: b.distances[k] == 0)
  }

  /** A block of fewer than 65536 tokens wraps no counter: each holds the uses of its code, and the totals add up. */
  lemma CountersCount(codes: Codes, b: Block, ts: seq<Token>)
    requires Fits(codes) && Sized(b) && AllValid(ts) && AtStart(b) && |ts| < 0x1_0000
    ensures var r := Run(codes, b, ts);
            && (forall k | 0 <= k < HEAP_SIZE ::
                  r.literals[k] as int == b.literals[k] as int + LiteralUses(codes, ts, k))
            && (forall k | 0 <= k <= 2 * D_CODES :: r.distances[k] == DistanceUses(codes, ts, k))
            && Total(r.literals) == Total(b.literals) + |ts|
            && Total(r.distances) == Total(b.distances) + Matches(ts)
  {
    forall k | 0 <= k < HEAP_SIZE ensures b.literals[k] as int + LiteralUses(codes, ts, k) < 0x1_0000 {
      UsesBound(codes, ts, k);
    }
    forall k | 0 <= k <= 2 * D_CODES ensures b.distances[k] as int + DistanceUses(codes, ts, k) < 0x1_0000 {
      UsesBound(codes, ts, k);
    }
    TotalsGrow(codes, b, ts);
    forall k | 0 <= k < HEAP_SIZE
      ensures Run(codes, b, ts).literals[k] as int == b.literals[k] as int + LiteralUses(codes, ts, k)
    {
      LiteralExact(codes, b, ts, k);
    }
    forall k | 0 <= k <= 2 * D_CODES ensures Run(codes, b, ts).distances[k] == DistanceUses(codes, ts, k) {
      DistanceExact(codes, b, ts, k);
    }
  }
}
