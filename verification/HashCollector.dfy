/** `HASH_UPDATE` and `HASH_FINAL` over an arbitrary block function. */
module HashCollector {
  import opened Words
  import opened HashPadding

  // ----- what more bytes do to the chaining value and the tail

  lemma WholeAndTail(m: seq<Byte>, b: nat)
    requires b > 0
    ensures var w := m[..|m| - |m| % b]; |w| % b == 0 && m == w + Tail(m, b) && |Tail(m, b)| == |m| % b < b
  {
    Remainder(|m| - |m| % b, b, |m| / b, 0);
  }

  lemma BlocksOfWhole<H>(f: BlockFunction<H>, h: H, w: seq<Byte>, t: seq<Byte>, b: nat)
    requires b > 0 && |w| % b == 0 && |t| < b
    ensures Blocks(f, h, w + t, b) == Blocks(f, h, w, b) && Tail(w + t, b) == t && |w + t| % b == |t|
  {
    BlocksConcat(f, h, w, t, b);
    Remainder(|w + t|, b, |w| / b, |t|);
  }

  /** Bytes that do not fill the block only lengthen the tail. */
  lemma {:induction false} StillFits<H>(f: BlockFunction<H>, h: H, m: seq<Byte>, x: seq<Byte>, b: nat)
    requires b > 0 && |m| % b + |x| < b
    ensures Blocks(f, h, m + x, b) == Blocks(f, h, m, b)
    ensures Tail(m + x, b) == Tail(m, b) + x && |m + x| % b == |m| % b + |x|
  {
    var w, t := m[..|m| - |m| % b], Tail(m, b);
    WholeAndTail(m, b);
    assert m + x == w + (t + x);
    BlocksOfWhole(f, h, w, t, b);
    BlocksOfWhole(f, h, w, t + x, b);
  }

  lemma FillsBlock<H>(f: BlockFunction<H>, h: H, w: seq<Byte>, u: seq<Byte>, b: nat)
    requires b > 0 && |w| % b == 0 && |u| == b
    ensures Blocks(f, h, w + u, b) == f(Blocks(f, h, w, b), u)
    ensures |w + u| % b == 0 && Tail(w + u, b) == []
  {
    BlocksConcat(f, h, w, u, b);
    OneBlock(f, Blocks(f, h, w, b), u, b);
    PlusOne(|w|, b);
  }

  /** Bytes that just fill the block send it to the block function. */
  lemma JustFills<H>(f: BlockFunction<H>, h: H, m: seq<Byte>, x: seq<Byte>, b: nat)
    requires b > 0 && |m| % b + |x| == b
    ensures Blocks(f, h, m + x, b) == f(Blocks(f, h, m, b), Tail(m, b) + x)
    ensures |m + x| % b == 0 && Tail(m + x, b) == []
  {
    var w, t := m[..|m| - |m| % b], Tail(m, b);
    WholeAndTail(m, b);
    assert m + x == w + (t + x);
    BlocksOfWhole(f, h, w, t, b);
    FillsBlock(f, h, w, t + x, b);
  }

  lemma OneBlock<H>(f: BlockFunction<H>, h: H, s: seq<Byte>, b: nat)
    requires b > 0 && |s| == b
    ensures Blocks(f, h, s, b) == f(h, s)
  {
    assert s[..b] == s && s[b..] == [];
  }

  lemma WholePart(n: nat, b: nat)
    requires b > 0
    ensures 0 <= n / b * b <= n && n - n / b * b == n % b < b
  {
  }

  /** On a block boundary, whole blocks of the input go straight to the block function. */
  lemma FromBoundary<H>(f: BlockFunction<H>, h: H, m: seq<Byte>, x: seq<Byte>, b: nat)
    requires b > 0 && |m| % b == 0
    ensures var w := x[..|x| / b * b];
            Blocks(f, h, m + x, b) == Blocks(f, Blocks(f, h, m, b), w, b)
    ensures Tail(m + x, b) == x[|x| / b * b..] && |m + x| % b == |x| - |x| / b * b
  {
    var k := |x| / b * b;
    var w, t := x[..k], x[k..];
    Remainder(k, b, |x| / b, 0);
    Remainder(|m + w|, b, |m| / b + |x| / b, 0);
    assert m + x == (m + w) + t;
    BlocksOfWhole(f, h, m + w, t, b);
    BlocksConcat(f, h, m, w, b);
  }

  lemma EmptyMessage<H>(f: BlockFunction<H>, h: H, b: nat)
    requires b > 0
    ensures Blocks(f, h, [], b) == h && 0 % b == 0 && Tail([], b) == []
  {
    Remainder(0, b, 0, 0);
  }

  // ----- what the padding does

  lemma GapSize(m: seq<Byte>, b: nat)
    requires b > 8
    ensures Gap(|m|, b) == (if |m| % b + 9 <= b then b else 2 * b) - |m| % b - 9
  {
    PaddedTail(m, b, true);
    assert |Padded(m, b, true)| == |m| + 9 + Gap(|m|, b);
  }

  lemma PaddedOne(m: seq<Byte>, b: nat, big: bool)
    requires b > 8 && |m| % b + 9 <= b
    ensures var t, field := Tail(m, b), Field(8 * |m| % DOUBLE_WORD, 8, big);
            var last := t + [0x80] + Zeros(b - |t| - 9) + field;
            |last| == b && Padded(m, b, big) == m[..|m| - |m| % b] + last
  {
    WholeAndTail(m, b);
    GapSize(m, b);
  }

  lemma LastOne<H>(f: BlockFunction<H>, h: H, w: seq<Byte>, t: seq<Byte>, last: seq<Byte>, b: nat)
    requires b > 0 && |w| % b == 0 && |t| < b && |last| == b
    ensures Blocks(f, h, w + last, b) == f(Blocks(f, h, w + t, b), last)
  {
    BlocksOfWhole(f, h, w, t, b);
    FillsBlock(f, h, w, last, b);
  }

  /** Mark and length fit behind the tail. */
  lemma PadsInOne<H>(f: BlockFunction<H>, h: H, m: seq<Byte>, b: nat, big: bool)
    requires b > 8 && |m| % b + 9 <= b
    ensures var t, field := Tail(m, b), Field(8 * |m| % DOUBLE_WORD, 8, big);
            Blocks(f, h, Padded(m, b, big), b) == f(Blocks(f, h, m, b), t + [0x80] + Zeros(b - |t| - 9) + field)
  {
    var t := Tail(m, b);
    PaddedOne(m, b, big);
    WholeAndTail(m, b);
    LastOne(f, h, m[..|m| - |m| % b], t, t + [0x80] + Zeros(b - |t| - 9) + Field(8 * |m| % DOUBLE_WORD, 8, big), b);
  }

  /** They do not fit: a block with the mark, and one with the length. */
  lemma {:induction false} PadsInTwo<H>(f: BlockFunction<H>, h: H, m: seq<Byte>, b: nat, big: bool)
    requires b > 8 && |m| % b + 9 > b
    ensures var t, field := Tail(m, b), Field(8 * |m| % DOUBLE_WORD, 8, big);
            Blocks(f, h, Padded(m, b, big), b)
            == f(f(Blocks(f, h, m, b), t + [0x80] + Zeros(b - |t| - 1)), Zeros(b - 8) + field)
  {
    var w, t, field := m[..|m| - |m| % b], Tail(m, b), Field(8 * |m| % DOUBLE_WORD, 8, big);
    WholeAndTail(m, b);
    GapSize(m, b);
    var first, second := t + [0x80] + Zeros(b - |t| - 1), Zeros(b - 8) + field;
    assert Zeros(Gap(|m|, b)) == Zeros(b - |t| - 1) + Zeros(b - 8);
    assert Padded(m, b, big) == w + (first + second);
    BlocksConcat(f, h, w, first + second, b);
    BlocksOfWhole(f, h, w, t, b);
    Remainder(b, b, 1, 0);
    BlocksConcat(f, Blocks(f, h, w, b), first, second, b);
    OneBlock(f, Blocks(f, h, w, b), first, b);
    OneBlock(f, f(Blocks(f, h, w, b), first), second, b);
  }

  /** How many bytes of the last block are the tail and the mark. */
  function Marked(m: seq<Byte>, b: nat): nat
    requires b > 8
  {
    if |m| % b + 9 <= b then |m| % b + 1 else 0
  }

  /** In either case the last block ends the padded message. */
  lemma LastBlock<H>(f: BlockFunction<H>, h: H, m: seq<Byte>, b: nat, big: bool)
    requires b > 8
    ensures var t, n, field := Tail(m, b), Marked(m, b), Field(8 * |m| % DOUBLE_WORD, 8, big);
            var before := if n > 0 then Blocks(f, h, m, b) else f(Blocks(f, h, m, b), t + [0x80] + Zeros(b - |t| - 1));
            && |t| == |m| % b < b && n <= b - 8
            && Blocks(f, h, Padded(m, b, big), b)
               == f(before, (if n > 0 then t + [0x80] else []) + Zeros(b - 8 - n) + field)
  {
    WholeAndTail(m, b);
    if |m| % b + 9 <= b {
      PadsInOne(f, h, m, b, big);
    } else {
      PadsInTwo(f, h, m, b, big);
      assert [] + Zeros(b - 8) == Zeros(b - 8);
    }
  }

  class Collector<!H> {
    const f: BlockFunction<H>
    const b: nat
    const big: bool
    ghost const iv: H
    var h: H
    var nl: Word
    var nh: Word
    var num: nat
    const data: array<Byte>
    /** All bytes given to `Update` so far. */
    ghost var msg: seq<Byte>

    /** The buffer holds the unprocessed tail and is zero behind it; all whole blocks are in the chaining value. */
    ghost predicate Buffered()
      reads this, data
    {
      && b > 8 && data.Length == b
      && num == |msg| % b && num < b && data[..num] == Tail(msg, b)
      && (forall i | num <= i < b :: data[i] == 0)
      && h == Blocks(f, iv, msg, b)
    }

    ghost predicate Valid()
      reads this, data
    {
      Buffered() && nh * WORD + nl == 8 * |msg| % DOUBLE_WORD
    }

    constructor (f: BlockFunction<H>, iv: H, b: nat, big: bool)
      requires b > 8
      ensures Valid() && msg == [] && fresh(data)
      ensures this.f == f && this.iv == iv && this.b == b && this.big == big
    {
      this.f, this.iv, this.b, this.big := f, iv, b, big;
      h, nl, nh, num, msg := iv, 0, 0, 0, [];
      data := new Byte[b](_ => 0);
      new;
      EmptyMessage(f, iv, b);
    }

    /** `HASH_UPDATE`; `len` is a `size_t`. */
    method Update(input: seq<Byte>)
      requires Valid() && |input| < DOUBLE_WORD
      modifies this, data
      ensures Valid() && msg == old(msg) + input
    {
      var len := |input|;
      if len == 0 {
        assert msg + input == msg;
        return;
      }
      CounterAdds(nh, nl, len, |msg|);
      nh, nl := NextHigh(nh, nl, len), NextLow(nl, len);
      if num != 0 && num + len < b {
        Append(input);
      } else if num != 0 {
        var rest := TopUp(input);
        WholeBlocks(rest);
      } else {
        WholeBlocks(input);
      }
    }

    /** The branch of `HASH_UPDATE` that only buffers. */
    method Append(input: seq<Byte>)
      requires Buffered() && num + |input| < b
      modifies this`num, this`msg, data
      ensures Buffered() && msg == old(msg) + input
    {
      StillFits(f, iv, msg, input, b);
      CopyIn(num, input);
      num := num + |input|;
      msg := msg + input;
    }

    /** The branch of `HASH_UPDATE` that fills the buffer and processes it. */
    method TopUp(input: seq<Byte>) returns (rest: seq<Byte>)
      requires Buffered() && num + |input| >= b
      modifies this`num, this`msg, this`h, data
      ensures Buffered() && num == 0 && msg + rest == old(msg) + input && |rest| <= |input|
    {
      var k := b - num;
      JustFills(f, iv, msg, input[..k], b);
      CopyIn(num, input[..k]);
      assert data[..] == Tail(msg, b) + input[..k];
      h := f(h, data[..]);
      num := 0;
      forall i | 0 <= i < b {
        data[i] := 0;
      }
      rest := input[k..];
      msg := msg + input[..k];
    }

    /** The end of `HASH_UPDATE`: whole blocks from the input, the rest into the buffer. */
    method WholeBlocks(rest: seq<Byte>)
      requires Buffered() && num == 0
      modifies this`num, this`msg, this`h, data
      ensures Buffered() && msg == old(msg) + rest
    {
      FromBoundary(f, iv, msg, rest, b);
      WholePart(|rest|, b);
      var n := |rest| / b * b;
      h := Blocks(f, h, rest[..n], b);
      num := |rest| - n;
      CopyIn(0, rest[n..]);
      msg := msg + rest;
    }

    /** `memcpy(p + at, x, len)`. */
    method CopyIn(at: nat, x: seq<Byte>)
      requires at + |x| <= data.Length
      modifies data
      ensures data[..] == old(data[..at]) + x + old(data[at + |x|..])
    {
      forall i | 0 <= i < |x| {
        data[at + i] := x[i];
      }
    }

    /** `memset(p + from, 0, to - from)`. */
    method Clear(from: nat, to: nat)
      requires from <= to <= data.Length
      modifies data
      ensures data[..to] == old(data[..from]) + Zeros(to - from) && data[to..] == old(data[to..])
    {
      forall i | from <= i < to {
        data[i] := 0;
      }
    }

    /** `HASH_FINAL`: the chaining value it leaves is what the digest is made from. */
    method Final()
      requires Valid()
      modifies this, data
      ensures h == Blocks(f, iv, Padded(old(msg), b, big), b)
      ensures num == 0 && data[..] == Zeros(b)
    {
      FillLast();
      h := f(h, data[..]);
      num := 0;
      Clear(0, b);
      assert data[..b] == data[..];
    }

    /** Everything in `HASH_FINAL` before the last block goes out. */
    method FillLast()
      requires Valid()
      modifies this`h, data
      ensures f(h, data[..]) == Blocks(f, iv, Padded(msg, b, big), b)
    {
      LastBlock(f, iv, msg, b, big);
      var n := MarkEnd();
      Clear(n, b - 8);
      StoreLength();
    }

    /** The mark after the tail; when no room is left for the length, the block goes out at once. */
    method MarkEnd() returns (n: nat)
      requires Buffered()
      modifies this`h, data
      ensures n == Marked(msg, b) && data[..n] == (if n > 0 then Tail(msg, b) + [0x80] else [])
      ensures h == if n > 0 then old(h) else f(old(h), Tail(msg, b) + [0x80] + Zeros(b - num - 1))
    {
      data[num] := 0x80;
      n := num + 1;
      assert data[..n] == Tail(msg, b) + [0x80];
      if n > b - 8 {
        Clear(n, b);
        assert data[..] == Tail(msg, b) + [0x80] + Zeros(b - num - 1);
        n := 0;
        h := f(h, data[..]);
      }
    }

    /** The two `HOST_l2c` stores at the end of the block, in the byte order of the digest. */
    method StoreLength()
      requires data.Length == b > 8
      modifies data
      ensures data[..] == old(data[..b - 8]) + Field(nh * WORD + nl, 8, big)
    {
      CounterField(nh, nl, big);
      if big {
        CopyIn(b - 8, WordBytes(nh, true));
        CopyIn(b - 4, WordBytes(nl, true));
      } else {
        CopyIn(b - 8, WordBytes(nl, false));
        CopyIn(b - 4, WordBytes(nh, false));
      }
    }
  }

  // ----- every way of cutting a message

  function Flatten(chunks: seq<seq<Byte>>): seq<Byte> {
    if chunks == [] then [] else chunks[0] + Flatten(chunks[1..])
  }

  /** Initialise, update with each chunk, finish: the result depends on the message, not on how it is cut. */
  method Digest<H>(f: BlockFunction<H>, iv: H, b: nat, big: bool, chunks: seq<seq<Byte>>) returns (h: H)
    requires b > 8 && forall i | 0 <= i < |chunks| :: |chunks[i]| < DOUBLE_WORD
    ensures h == Blocks(f, iv, Padded(Flatten(chunks), b, big), b)
  {
    var c := new Collector(f, iv, b, big);
    for i := 0 to |chunks|
      invariant c.Valid() && fresh(c) && fresh(c.data)
      invariant c.f == f && c.iv == iv && c.b == b && c.big == big
      invariant c.msg + Flatten(chunks[i..]) == Flatten(chunks)
    {
      assert chunks[i..][1..] == chunks[i + 1..];
      assert c.msg + (chunks[i] + Flatten(chunks[i + 1..])) == (c.msg + chunks[i]) + Flatten(chunks[i + 1..]);
      c.Update(chunks[i]);
    }
    assert c.msg + [] == c.msg;
    c.Final();
    h := c.h;
  }
}
