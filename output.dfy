/** The output record of `fprintresult` (brainflayer.c:206-219):
    `"%08x%08x%08x%08x%08x:%c:%s:%s\n"` over the five `ntohl` words of the digest,
    the flag character, the type name and the input. */
module Output {
  import opened Basics

  const COLON: byte := 0x3a
  const NEWLINE: byte := 0x0a
  /** The flag characters `main` passes: 'u' for the uncompressed, 'c' for the compressed key. */
  const FLAG_UNCOMPRESSED: byte := 0x75
  const FLAG_COMPRESSED: byte := 0x63

  predicate IsLowerHex(c: byte)
  {
    (0x30 <= c <= 0x39) || (0x61 <= c <= 0x66)
  }

  /** One digit as printf's `%x` writes it: 0-9, then lower-case a-f. */
  function HexDigit(d: nat): (c: byte)
    requires d < 16
    ensures IsLowerHex(c)
  {
    if d < 10 then (0x30 + d) as byte else (0x57 + d) as byte
  }

  /** `%0nx`: the low n hex digits of w, most significant first. */
  function HexFixed(w: nat, n: nat): (r: seq<byte>)
    ensures |r| == n
  {
    if n == 0 then [] else HexFixed(w / 16, n - 1) + [HexDigit(w % 16)]
  }

  /** `ntohl(hash->ul[i])`: the i-th 4-byte group read as a big-endian number, on a host
      of either byte order. */
  function Word(h: Bytes20, i: nat): nat
    requires i < 5
  {
    OctetsToInt(h[4 * i..4 * i + 4])
  }

  /** Each byte as two lower-case hex digits, in order: the reference rendering. */
  function HexBytes(s: seq<byte>): (r: seq<byte>)
    ensures |r| == 2 * |s|
  {
    if s == [] then []
    else HexBytes(s[..|s| - 1]) + [HexDigit(s[|s| - 1] / 16), HexDigit(s[|s| - 1] % 16)]
  }

  lemma {:induction false} HexBytesAppend(a: seq<byte>, b: seq<byte>)
    ensures HexBytes(a + b) == HexBytes(a) + HexBytes(b)
    decreases |b|
  {
    if b != [] {
      var b', last := b[..|b| - 1], b[|b| - 1];
      assert (a + b)[..|a + b| - 1] == a + b';
      assert (a + b)[|a + b| - 1] == last;
      HexBytesAppend(a, b');
      assert HexBytes(a + b) == HexBytes(a + b') + [HexDigit(last / 16), HexDigit(last % 16)];
      assert HexBytes(b) == HexBytes(b') + [HexDigit(last / 16), HexDigit(last % 16)];
    } else {
      assert a + b == a;
    }
  }

  lemma DigitSplit(x: nat, b: nat)
    requires b < 256
    ensures (x * 256 + b) / 16 == x * 16 + b / 16 && (x * 256 + b) % 16 == b % 16
    ensures (x * 16 + b / 16) / 16 == x && (x * 16 + b / 16) % 16 == b / 16
  {
  }

  /** Two more hex digits print one more low octet. */
  lemma HexFixedStep(x: nat, b: nat, k: nat)
    requires b < 256
    ensures HexFixed(x * 256 + b, k + 2) == HexFixed(x, k) + [HexDigit(b / 16), HexDigit(b % 16)]
  {
    var v := x * 256 + b;
    var w := x * 16 + b / 16;
    DigitSplit(x, b);
    assert v / 16 == w && v % 16 == b % 16;
    assert HexFixed(v, k + 2) == HexFixed(w, k + 1) + [HexDigit(b % 16)];
    assert w / 16 == x && w % 16 == b / 16;
    assert HexFixed(w, k + 1) == HexFixed(x, k) + [HexDigit(b / 16)];
  }

  /** Printing an octet string's value with two hex digits per octet gives each
      octet's two digits, in order. */
  lemma {:induction false} HexFixedOctets(s: seq<byte>)
    ensures HexFixed(OctetsToInt(s), 2 * |s|) == HexBytes(s)
  {
    if s != [] {
      var init := s[..|s| - 1];
      var b: nat := s[|s| - 1];
      var x := OctetsToInt(init);
      assert OctetsToInt(s) == x * 256 + b;
      HexFixedOctets(init);
      HexFixedStep(x, b, 2 * |init|);
    }
  }

  /** The five `%08x` words spell the 20 digest bytes in order, as 40 lower-case hex digits. */
  function Hash160Hex(h: Bytes20): (r: seq<byte>)
    ensures r == HexBytes(h)
  {
    var parts := [h[0..4], h[4..8], h[8..12], h[12..16], h[16..20]];
    forall i | 0 <= i < 5 ensures HexFixed(Word(h, i), 8) == HexBytes(parts[i]) {
      HexFixedOctets(parts[i]);
    }
    assert h == parts[0] + parts[1] + parts[2] + parts[3] + parts[4];
    HexBytesAppend(parts[0], parts[1]);
    HexBytesAppend(parts[0] + parts[1], parts[2]);
    HexBytesAppend(parts[0] + parts[1] + parts[2], parts[3]);
    HexBytesAppend(parts[0] + parts[1] + parts[2] + parts[3], parts[4]);
    HexFixed(Word(h, 0), 8) + HexFixed(Word(h, 1), 8) + HexFixed(Word(h, 2), 8)
      + HexFixed(Word(h, 3), 8) + HexFixed(Word(h, 4), 8)
  }

  lemma {:induction false} HexBytesLowerHex(s: seq<byte>)
    ensures forall i :: 0 <= i < |HexBytes(s)| ==> IsLowerHex(HexBytes(s)[i])
  {
    if s != [] {
      HexBytesLowerHex(s[..|s| - 1]);
    }
  }

  /** `fprintresult(f, hash, flag, type, input)`: the bytes of one output line. */
  function Record(h: Bytes20, flag: byte, typeName: seq<byte>, input: seq<byte>): (r: seq<byte>)
    ensures r == HexBytes(h) + [COLON, flag, COLON] + typeName + [COLON] + input + [NEWLINE]
    ensures |r| == 45 + |typeName| + |input| && r[41] == flag && r[|r| - 1] == NEWLINE
  {
    Hash160Hex(h) + [COLON, flag, COLON] + typeName + [COLON] + input + [NEWLINE]
  }

  /** The value of a lower-case hex digit. */
  function HexValue(c: byte): nat
  {
    if 0x30 <= c <= 0x39 then (c - 0x30)
    else if 0x61 <= c <= 0x66 then (c - 0x57)
    else 0
  }

  lemma HexValueOfDigit(d: nat)
    requires d < 16
    ensures HexValue(HexDigit(d)) == d
  {
  }

  /** Reads pairs of hex digits back into bytes. */
  function UnhexPairs(s: seq<byte>): seq<byte>
  {
    if |s| < 2 then []
    else
      var v := 16 * HexValue(s[|s| - 2]) + HexValue(s[|s| - 1]);
      UnhexPairs(s[..|s| - 2]) + [(v % 256) as byte]
  }

  /** Reading the hex rendering back gives the bytes again. */
  lemma {:induction false} UnhexHexBytes(s: seq<byte>)
    ensures UnhexPairs(HexBytes(s)) == s
  {
    if s != [] {
      var init, b := s[..|s| - 1], s[|s| - 1];
      var hi, lo := b / 16, b % 16;
      var hs := HexBytes(s);
      assert hs == HexBytes(init) + [HexDigit(hi), HexDigit(lo)];
      assert hs[..|hs| - 2] == HexBytes(init);
      assert hs[|hs| - 2] == HexDigit(hi) && hs[|hs| - 1] == HexDigit(lo);
      HexValueOfDigit(hi);
      HexValueOfDigit(lo);
      var v := 16 * HexValue(hs[|hs| - 2]) + HexValue(hs[|hs| - 1]);
      assert v == b by {
        assert v == 16 * hi + lo;
      }
      assert UnhexPairs(hs) == UnhexPairs(HexBytes(init)) + [b];
      UnhexHexBytes(init);
      assert s == init + [b];
    }
  }

  /** The position of the first c in s at or after `from`, or |s|. */
  function IndexOf(s: seq<byte>, c: byte, from: nat): (k: nat)
    requires from <= |s|
    ensures from <= k <= |s| && (k < |s| ==> s[k] == c)
    ensures forall i :: from <= i < k ==> s[i] != c
    decreases |s| - from
  {
    if from == |s| || s[from] == c then from else IndexOf(s, c, from + 1)
  }

  /** A reader of output lines: the digest, the flag, the type name up to the next colon,
      and the rest of the line as the input. */
  function ParseRecord(r: seq<byte>): Option<(Bytes20, byte, seq<byte>, seq<byte>)>
  {
    if |r| < 45 || r[40] != COLON || r[42] != COLON || r[|r| - 1] != NEWLINE then None
    else
      var k := IndexOf(r, COLON, 43);
      var h := UnhexPairs(r[..40]);
      if k >= |r| - 1 || |h| != 20 then None
      else Some((h, r[41], r[43..k], r[k + 1..|r| - 1]))
  }

  /** Every record reads back as the digest, flag, type name and input it was made of,
      since no type name brainflayer accepts contains a colon. */
  lemma RecordRoundTrip(h: Bytes20, flag: byte, typeName: seq<byte>, input: seq<byte>)
    requires forall i :: 0 <= i < |typeName| ==> typeName[i] != COLON
    ensures ParseRecord(Record(h, flag, typeName, input)) == Some((h, flag, typeName, input))
  {
    var r := Record(h, flag, typeName, input);
    assert r[..40] == HexBytes(h);
    UnhexHexBytes(h);
    var k := 43 + |typeName|;
    assert r[43..k] == typeName;
    assert r[k] == COLON;
    assert forall i :: 43 <= i < k ==> r[i] == typeName[i - 43];
    assert IndexOf(r, COLON, 43) == k by {
      IndexOfFirst(r, COLON, 43, k);
    }
    assert r[k + 1..|r| - 1] == input;
  }

  lemma {:induction false} IndexOfFirst(s: seq<byte>, c: byte, from: nat, k: nat)
    requires from <= k < |s| && s[k] == c
    requires forall i :: from <= i < k ==> s[i] != c
    ensures IndexOf(s, c, from) == k
    decreases k - from
  {
    if from < k {
      IndexOfFirst(s, c, from + 1, k);
    }
  }
}
