/** Bytes, fixed-width unsigned integers and octet-string conversions shared by the
    rest of the model. */
module Basics {

  /** One `unsigned char`. */
  type byte = b: int | 0 <= b < 256

  type Bytes20 = s: seq<byte> | |s| == 20 witness seq(20, _ => 0)
  type Bytes32 = s: seq<byte> | |s| == 32 witness seq(32, _ => 0)
  type Bytes65 = s: seq<byte> | |s| == 65 witness seq(65, _ => 0)

  /** `static unsigned char unhexed[4096]` and `mem = malloc(4096)`. */
  const BUF_SIZE: nat := 4096
  type Buf = s: seq<byte> | |s| == 4096 witness seq(4096, _ => 0)

  const U64_MOD: nat := 0x1_0000_0000_0000_0000
  /** `uint64_t`: every arithmetic step on it is reduced modulo 2^64 by hand. */
  type u64 = x: int | 0 <= x < 0x1_0000_0000_0000_0000

  /** `++x` on a uint64_t. */
  function Inc(x: u64): u64
  {
    if x == U64_MOD - 1 then 0 else x + 1
  }

  /** n increments of a uint64_t. */
  function IncBy(x: u64, n: nat): u64
  {
    if n == 0 then x else Inc(IncBy(x, n - 1))
  }

  /** `a - b` on uint64_t values. */
  function Sub64(a: u64, b: u64): u64
  {
    if a >= b then a - b else a - b + U64_MOD
  }

  /** Incrementing wraps around modulo 2^64. */
  lemma {:induction false} IncByWraps(x: u64, n: nat)
    ensures IncBy(x, n) == (x + n) % U64_MOD
  {
    if n > 0 {
      IncByWraps(x, n - 1);
      ModAdd(x + n - 1, 1, U64_MOD);
    }
  }

  /** n increments from 0 leave n modulo 2^64. */
  lemma CountWraps(n: nat, x: u64)
    requires x == IncBy(0, n)
    ensures x == n % U64_MOD
  {
    IncByWraps(0, n);
  }

  /** Subtraction wraps around modulo 2^64. */
  lemma Sub64Wraps(a: u64, b: u64)
    ensures Sub64(a, b) == (a - b) % U64_MOD
  {
    if a < b {
      ModUnique(a - b, U64_MOD, -1, a - b + U64_MOD);
    } else {
      ModUnique(a - b, U64_MOD, 0, a - b);
    }
  }

  datatype Option<+T> = None | Some(value: T)

  /** C's `&` on unsigned values. */
  function BitAnd(a: nat, b: nat): nat
  {
    if a == 0 || b == 0 then 0
    else 2 * BitAnd(a / 2, b / 2) + (if a % 2 == 1 && b % 2 == 1 then 1 else 0)
  }

  /** C's `|` on unsigned values. */
  function BitOr(a: nat, b: nat): nat
  {
    if a == 0 then b
    else if b == 0 then a
    else 2 * BitOr(a / 2, b / 2) + (if a % 2 == 1 || b % 2 == 1 then 1 else 0)
  }

  function Pow2(k: nat): (r: nat)
    ensures r >= 1
  {
    if k == 0 then 1 else 2 * Pow2(k - 1)
  }

  /** The prefix that `strlen` sees: everything before the first NUL byte. */
  function CStr(s: seq<byte>): (r: seq<byte>)
    ensures |r| <= |s| && r == s[..|r|]
    ensures forall i :: 0 <= i < |r| ==> r[i] != 0
    ensures |r| < |s| ==> s[|r|] == 0
  {
    if s == [] || s[0] == 0 then [] else [s[0]] + CStr(s[1..])
  }

  /** Big-endian value of an octet string (SEC 1 v2, section 2.3.8). */
  function OctetsToInt(s: seq<byte>): nat
  {
    if s == [] then 0 else OctetsToInt(s[..|s| - 1]) * 256 + s[|s| - 1]
  }

  /** The n-octet big-endian encoding of x (SEC 1 v2, section 2.3.7), keeping the low n octets. */
  function IntToOctets(x: nat, n: nat): (r: seq<byte>)
    ensures |r| == n
  {
    if n == 0 then [] else IntToOctets(x / 256, n - 1) + [(x % 256) as byte]
  }

  lemma {:induction false} Pow2Add(a: nat, b: nat)
    ensures Pow2(a + b) == Pow2(a) * Pow2(b)
  {
    if b > 0 {
      Pow2Add(a, b - 1);
    }
  }

  /** Encoding an octet string's value back at its own length gives the string again. */
  lemma {:induction false} OctetsRoundTrip(s: seq<byte>)
    ensures IntToOctets(OctetsToInt(s), |s|) == s
  {
    if s != [] {
      var init, last := s[..|s| - 1], s[|s| - 1];
      var x := OctetsToInt(init) * 256 + last;
      assert x / 256 == OctetsToInt(init) && x % 256 == last;
      OctetsRoundTrip(init);
      assert s == init + [last];
    }
  }

  /** The parity of a big-endian integer is the parity of its last octet. */
  lemma OctetsParity(s: seq<byte>)
    requires |s| > 0
    ensures OctetsToInt(s) % 2 == (s[|s| - 1]) % 2
  {
    var init := s[..|s| - 1];
    assert OctetsToInt(s) == OctetsToInt(init) * 256 + s[|s| - 1];
    assert OctetsToInt(init) * 256 == 2 * (OctetsToInt(init) * 128);
  }

  lemma MulAtLeast(d: int, k: int)
    requires d > 0 && k >= 1
    ensures d * k >= d
  {
  }

  lemma MulSub(d: int, a: int, b: int)
    ensures d * a - d * b == d * (a - b)
  {
  }

  /** The remainder is the c of any decomposition x == d * q + c with 0 <= c < d. */
  lemma ModUnique(x: int, d: int, q: int, c: int)
    requires d > 0 && 0 <= c < d && x == d * q + c
    ensures x % d == c
  {
    var q', c' := x / d, x % d;
    assert x == d * q' + c';
    if q' > q {
      MulSub(d, q', q);
      MulAtLeast(d, q' - q);
    } else if q' < q {
      MulSub(d, q, q');
      MulAtLeast(d, q - q');
    }
  }

  lemma ModOfHalves(x: nat, p: nat)
    requires p >= 1
    ensures x % (2 * p) == 2 * ((x / 2) % p) + x % 2
  {
    var q, b := (x / 2) / p, (x / 2) % p;
    assert x / 2 == p * q + b;
    assert x == 2 * (x / 2) + x % 2;
    assert x == (2 * p) * q + (2 * b + x % 2);
    ModUnique(x, 2 * p, q, 2 * b + x % 2);
  }

  lemma MulAdd(d: int, a: int, b: int)
    ensures d * a + d * b == d * (a + b)
  {
  }

  /** Reducing an operand first does not change a sum's remainder. */
  lemma ModAdd(a: nat, b: nat, m: nat)
    requires m > 0
    ensures (a % m + b) % m == (a + b) % m
  {
    var q, r := a / m, a % m;
    var q', r' := (r + b) / m, (r + b) % m;
    assert a + b == m * q + (r + b);
    assert r + b == m * q' + r';
    MulAdd(m, q, q');
    ModUnique(a + b, m, q + q', r');
  }
}
