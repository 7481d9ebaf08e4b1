/** `zencode`, `zdecode`, `init_keys` and `crypthead`. */
module ZipCipher {
  import opened ZipKeys

  // ----- streams

  function Encoded(t: CrcTable, k: Keys, plain: seq<bv8>): seq<bv8>
    decreases plain
  {
    if plain == [] then [] else [StreamByte(k) ^ plain[0]] + Encoded(t, Updated(t, k, plain[0]), plain[1..])
  }

  function Encoded32(k: Keys32, plain: seq<bv8>): seq<bv8>
    decreases plain
  {
    if plain == [] then [] else [Stream32(k) ^ plain[0]] + Encoded32(Update32(k, plain[0]), plain[1..])
  }

  function Decoded(t: CrcTable, k: Keys, cipher: seq<bv8>): seq<bv8>
    decreases cipher
  {
    if cipher == [] then []
    else
      var p := cipher[0] ^ StreamByte(k);
      [p] + Decoded(t, Updated(t, k, p), cipher[1..])
  }

  /** The keys that decoding leaves. */
  function Unkeyed(t: CrcTable, k: Keys, cipher: seq<bv8>): Keys
    decreases cipher
  {
    if cipher == [] then k else Unkeyed(t, Updated(t, k, cipher[0] ^ StreamByte(k)), cipher[1..])
  }

  lemma XorTwice(x: bv8, y: bv8)
    ensures (x ^ y) ^ x == y
  {
  }

  lemma {:induction false} EncodedLength(t: CrcTable, k: Keys, a: seq<bv8>)
    ensures |Encoded(t, k, a)| == |a|
    decreases a
  {
    if a != [] {
      EncodedLength(t, Updated(t, k, a[0]), a[1..]);
    }
  }

  lemma EncodedStep(t: CrcTable, k: Keys, s: seq<bv8>)
    requires s != []
    ensures var e := Encoded(t, k, s);
            e != [] && e[0] == StreamByte(k) ^ s[0] && e[1..] == Encoded(t, Updated(t, k, s[0]), s[1..])
  {
  }

  lemma SameHeadAndTail(p: seq<bv8>, q: seq<bv8>, z: seq<bv8>)
    requires p != [] && q != [] && p[0] == q[0] && p[1..] == q[1..] + z
    ensures p == q + z
  {
    assert p == [p[0]] + p[1..] && q == [q[0]] + q[1..];
  }

  lemma {:induction false} EncodedConcat(t: CrcTable, k: Keys, a: seq<bv8>, b: seq<bv8>)
    ensures Encoded(t, k, a + b) == Encoded(t, k, a) + Encoded(t, Keyed(t, k, a), b)
    ensures |Encoded(t, k, a)| == |a|
    decreases a
  {
    EncodedLength(t, k, a);
    if a == [] {
      assert a + b == b;
    } else {
      assert (a + b)[0] == a[0] && (a + b)[1..] == a[1..] + b;
      EncodedConcat(t, Updated(t, k, a[0]), a[1..], b);
      EncodedStep(t, k, a);
      EncodedStep(t, k, a + b);
      SameHeadAndTail(Encoded(t, k, a + b), Encoded(t, k, a), Encoded(t, Keyed(t, k, a), b));
    }
  }

  /** Decoding what was encoded gives it back, and leaves the keys that encoding left. */
  lemma {:induction false} DecodeEncode(t: CrcTable, k: Keys, plain: seq<bv8>)
    ensures Decoded(t, k, Encoded(t, k, plain)) == plain
    ensures Unkeyed(t, k, Encoded(t, k, plain)) == Keyed(t, k, plain)
    decreases plain
  {
    if plain != [] {
      XorTwice(StreamByte(k), plain[0]);
      DecodeEncode(t, Updated(t, k, plain[0]), plain[1..]);
      assert Encoded(t, k, plain)[1..] == Encoded(t, Updated(t, k, plain[0]), plain[1..]);
      assert plain == [plain[0]] + plain[1..];
    }
  }

  /** The two key states are equal after every byte. */
  lemma KeysInStep(t: CrcTable, k: Keys, plain: seq<bv8>, i: nat)
    requires i <= |plain|
    ensures |Encoded(t, k, plain)| == |plain|
    ensures Unkeyed(t, k, Encoded(t, k, plain)[..i]) == Keyed(t, k, plain[..i])
  {
    assert plain == plain[..i] + plain[i..];
    EncodedConcat(t, k, plain[..i], plain[i..]);
    EncodedConcat(t, k, plain, []);
    assert Encoded(t, k, plain)[..i] == Encoded(t, k, plain[..i]);
    DecodeEncode(t, k, plain[..i]);
  }

  /** The code's stream is the standard's: every byte of every text is encoded alike. */
  lemma {:induction false} EncodedAgrees(t: CrcTable, k: Keys, s: Keys32, plain: seq<bv8>)
    requires IsCrcTable(t) && Agree(k, s)
    ensures Encoded(t, k, plain) == Encoded32(s, plain)
    decreases plain
  {
    if plain != [] {
      StreamAgrees(k, s);
      UpdateAgrees(t, k, s, plain[0]);
      EncodedAgrees(t, Updated(t, k, plain[0]), Update32(s, plain[0]), plain[1..]);
    }
  }

  // ----- passwords and headers

  /** The bytes of a C string, up to the null that ends it. */
  function CString(s: seq<bv8>): seq<bv8> {
    if s == [] || s[0] == 0 then [] else [s[0]] + CString(s[1..])
  }

  /** It is what comes before the first null byte, or all there is. */
  lemma {:induction false} UpToNull(s: seq<bv8>, n: nat)
    requires n <= |s| && (forall i | 0 <= i < n :: s[i] != 0) && (n < |s| ==> s[n] == 0)
    ensures CString(s) == s[..n]
  {
    if n > 0 {
      UpToNull(s[1..], n - 1);
      assert s[..n] == [s[0]] + s[1..][..n - 1];
    }
  }

  function PasswordKeys(t: CrcTable, password: seq<bv8>): Keys {
    Keyed(t, INITIAL, CString(password))
  }

  /** From any password, the cipher that the code computes is the 32-bit one. */
  lemma PasswordCipherAgrees(t: CrcTable, password: seq<bv8>, plain: seq<bv8>)
    requires IsCrcTable(t)
    ensures Agree(PasswordKeys(t, password), Keyed32(INITIAL32, CString(password)))
    ensures Encoded(t, PasswordKeys(t, password), plain)
         == Encoded32(Keyed32(INITIAL32, CString(password)), plain)
  {
    InitialAgrees();
    KeyedAgrees(t, INITIAL, INITIAL32, CString(password));
    EncodedAgrees(t, PasswordKeys(t, password), Keyed32(INITIAL32, CString(password)), plain);
  }

  /** Bits 16 to 23 and 24 to 31 of the checksum. */
  function CrcBytes(crc: nat): seq<bv8> {
    [(crc / 0x1_0000 % 256) as bv8, (crc / 0x100_0000 % 256) as bv8]
  }

  /** What the header says once decoded: ten bytes made from the random ones, two from the checksum. */
  function PlainHeader(t: CrcTable, password: seq<bv8>, random: seq<bv8>, crc: nat): seq<bv8> {
    Encoded(t, PasswordKeys(t, password), random) + CrcBytes(crc)
  }

  const RAND_HEAD_LEN := 12

  // ----- the code

  /** The three keys behind `pkeys`. */
  class KeyState {
    const table: CrcTable
    var k0: bv64
    var k1: nat
    var k2: bv64

    constructor (table: CrcTable)
      ensures this.table == table && State() == INITIAL
    {
      this.table := table;
      k0, k1, k2 := INITIAL.k0, INITIAL.k1, INITIAL.k2;
    }

    function State(): Keys
      reads this
    {
      Keys(k0, k1, k2)
    }

    method UpdateKeys(c: bv8)
      modifies this
      ensures State() == Updated(table, old(State()), c)
    {
      k0 := CrcLong(table, k0, c);
      k1 := Mix(k1, k0);
      k2 := CrcLong(table, k2, TopByte(k1) as bv8);
    }

    method InitKeys(password: seq<bv8>)
      modifies this
      ensures State() == PasswordKeys(table, password)
    {
      k0, k1, k2 := INITIAL.k0, INITIAL.k1, INITIAL.k2;
      var i := 0;
      while i < |password| && password[i] != 0
        invariant 0 <= i <= |password|
        invariant Keyed(table, State(), CString(password[i..])) == PasswordKeys(table, password)
      {
        ghost var rest := CString(password[i + 1..]);
        assert password[i..][1..] == password[i + 1..];
        assert CString(password[i..]) == [password[i]] + rest && CString(password[i..])[1..] == rest;
        UpdateKeys(password[i]);
        i := i + 1;
      }
    }

    method Zencode(c: bv8) returns (r: bv8)
      modifies this
      ensures r == StreamByte(old(State())) ^ c && State() == Updated(table, old(State()), c)
    {
      var t := StreamByte(State());
      UpdateKeys(c);
      r := t ^ c;
    }

    method Zdecode(c: bv8) returns (r: bv8)
      modifies this
      ensures r == c ^ StreamByte(old(State())) && State() == Updated(table, old(State()), r)
    {
      r := c ^ StreamByte(State());
      UpdateKeys(r);
    }
  }

  /** Encoding a run of bytes into the front of `buf`. */
  method EncodeInto(keys: KeyState, plain: seq<bv8>, buf: array<bv8>)
    requires |plain| <= buf.Length
    modifies keys, buf
    ensures keys.State() == Keyed(keys.table, old(keys.State()), plain)
    ensures |Encoded(keys.table, old(keys.State()), plain)| == |plain|
    ensures buf[..|plain|] == Encoded(keys.table, old(keys.State()), plain)
    ensures buf[|plain|..] == old(buf[|plain|..])
  {
    ghost var k := keys.State();
    ghost var out := Encoded(keys.table, k, plain);
    ghost var before := buf[..];
    EncodedConcat(keys.table, k, plain, []);
    for n := 0 to |plain|
      invariant keys.State() == Keyed(keys.table, k, plain[..n])
      invariant buf[..] == out[..n] + before[n..]
    {
      EncodeNext(keys, k, plain, buf, n);
      Splice(out, before, n);
    }
    assert plain[..|plain|] == plain && out[..|plain|] == out;
  }

  lemma Splice(out: seq<bv8>, before: seq<bv8>, n: nat)
    requires n < |out| <= |before|
    ensures (out[..n] + before[n..])[n := out[n]] == out[..n + 1] + before[n + 1..]
  {
  }

  method EncodeNext(keys: KeyState, ghost k: Keys, plain: seq<bv8>, buf: array<bv8>, n: nat)
    requires n < |plain| <= buf.Length && keys.State() == Keyed(keys.table, k, plain[..n])
    modifies keys, buf
    ensures keys.State() == Keyed(keys.table, k, plain[..n + 1])
    ensures |Encoded(keys.table, k, plain)| == |plain|
    ensures buf[..] == old(buf[..])[n := Encoded(keys.table, k, plain)[n]]
  {
    EncodedAt(keys.table, k, plain, n);
    var c := keys.Zencode(plain[n]);
    buf[n] := c;
  }

  /** Each byte is encoded with the keys that the bytes before it left. */
  lemma EncodedAt(t: CrcTable, k: Keys, plain: seq<bv8>, n: nat)
    requires n < |plain|
    ensures |Encoded(t, k, plain)| == |plain|
    ensures Encoded(t, k, plain)[n] == StreamByte(Keyed(t, k, plain[..n])) ^ plain[n]
    ensures Keyed(t, k, plain[..n + 1]) == Updated(t, Keyed(t, k, plain[..n]), plain[n])
  {
    var a, c := plain[..n], plain[n];
    assert plain[..n + 1] == a + [c] && plain == (a + [c]) + plain[n + 1..];
    EncodedConcat(t, k, a + [c], plain[n + 1..]);
    EncodedConcat(t, k, plain, []);
    EncodedConcat(t, k, a, [c]);
    KeyedConcat(t, k, a, [c]);
    OneByte(t, Keyed(t, k, a), c);
  }

  lemma OneByte(t: CrcTable, k: Keys, c: bv8)
    ensures Encoded(t, k, [c]) == [StreamByte(k) ^ c] && Keyed(t, k, [c]) == Updated(t, k, c)
  {
    assert [c][1..] == [];
  }

  lemma {:induction false} KeyedConcat(t: CrcTable, k: Keys, a: seq<bv8>, b: seq<bv8>)
    ensures Keyed(t, k, a + b) == Keyed(t, Keyed(t, k, a), b)
    decreases a
  {
    if a == [] {
      assert a + b == b;
    } else {
      assert (a + b)[1..] == a[1..] + b;
      KeyedConcat(t, Updated(t, k, a[0]), a[1..], b);
    }
  }

  /** `crypthead`; `random` is what the ten calls of `rand` give. */
  method CryptHead(password: seq<bv8>, buf: array<bv8>, bufSize: int, keys: KeyState, crc: nat, random: seq<bv8>)
    returns (n: nat)
    requires bufSize <= buf.Length && |random| == 10
    modifies keys, buf
    ensures bufSize < 12 ==> n == 0 && buf[..] == old(buf[..]) && keys.State() == old(keys.State())
    ensures bufSize >= 12 ==>
              var plain := PlainHeader(keys.table, password, random, crc);
              && n == 12 == |plain|
              && buf[..n] == Encoded(keys.table, PasswordKeys(keys.table, password), plain)
              && buf[n..] == old(buf[n..])
              && keys.State() == Keyed(keys.table, PasswordKeys(keys.table, password), plain)
  {
    if bufSize < RAND_HEAD_LEN {
      return 0;
    }
    var header := new bv8[RAND_HEAD_LEN - 2];
    keys.InitKeys(password);
    EncodeInto(keys, random, header);
    keys.InitKeys(password);
    assert header[..] == header[..|random|];
    var plain := header[..] + CrcBytes(crc);
    EncodeInto(keys, plain, buf);
    n := RAND_HEAD_LEN;
  }

  lemma HeaderParts(t: CrcTable, password: seq<bv8>, random: seq<bv8>, crc: nat)
    ensures var head, n := PlainHeader(t, password, random, crc), |random|;
            && |head| == n + 2 && head[..n] == Encoded(t, PasswordKeys(t, password), random)
            && head[n] == CrcBytes(crc)[0] && head[n + 1] == CrcBytes(crc)[1]
  {
    EncodedLength(t, PasswordKeys(t, password), random);
  }

  /**
   From the password alone, a decoder gets the header and then the body. The header ends in bits 16 to 23 and
   24 to 31 of the checksum, and what comes before can be decoded once more, to the random bytes.
   */
  lemma HeaderAndBodyBack(t: CrcTable, password: seq<bv8>, random: seq<bv8>, crc: nat, body: seq<bv8>)
    ensures var k, head, n := PasswordKeys(t, password), PlainHeader(t, password, random, crc), |random|;
            && Decoded(t, k, Encoded(t, k, head) + Encoded(t, Keyed(t, k, head), body)) == head + body
            && |head| == n + 2 && Decoded(t, k, head[..n]) == random
            && head[n] == (crc / 0x1_0000 % 256) as bv8 && head[n + 1] == (crc / 0x100_0000 % 256) as bv8
  {
    var k, head := PasswordKeys(t, password), PlainHeader(t, password, random, crc);
    HeaderParts(t, password, random, crc);
    DecodeEncode(t, k, random);
    EncodedConcat(t, k, head, body);
    DecodeEncode(t, k, head + body);
  }
}
