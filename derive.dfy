/** Key -> Hash160 pair derivation: `priv2hash160`, the passphrase and hex front ends and
    the six KDF wrappers (brainflayer.c:86-201), over the file's global buffers. */
module Derive {
  import opened Basics
  import opened Primitives

  /** The targets of the `input2hash160` function pointer. */
  datatype Transform =
    | PassStr      // pass2hash160: -t str, the default
    | HexPass      // hexpass2hash160: -t hex
    | HexPriv      // hexpriv2hash160: -t priv
    | WarpPass     // warppass2hash160: -t warp, inputs are passphrases
    | BwioPass     // bwiopass2hash160: -t bwio, inputs are passphrases
    | Brainv2Pass  // brainv2pass2hash160: -t bv2, inputs are passphrases
    | WarpSalt     // warpsalt2hash160: -t warp -p, inputs are salts
    | BwioSalt     // bwiosalt2hash160: -t bwio -p, inputs are salts
    | Brainv2Salt  // brainv2salt2hash160: -t bv2 -p, inputs are salts

  /** The return code of the corrected `hexpass2hash160` for a text whose decoded length
      exceeds the 4096-byte `unhexed` buffer (see HexPassReadLength). */
  const HEX_OVERFLOW: int := -1

  /** "Quick and dirty public key compression": the first 33 bytes of `pub_chr` once
      byte 0 has been overwritten with `0x02 | (pub_chr[64] & 0x01)`. */
  function CompressPoint(pub: Bytes65): seq<byte>
  {
    LowBitFlag(pub[64]);
    [BitOr(0x02, BitAnd(pub[64], 0x01))] + pub[1..33]
  }

  /** SEC 1 v2, section 2.3.3, uncompressed: 0x04, then X and Y as 32-octet strings. */
  function Sec1Uncompressed(x: nat, y: nat): seq<byte>
  {
    [0x04] + IntToOctets(x, 32) + IntToOctets(y, 32)
  }

  /** SEC 1 v2, section 2.3.3, compressed: 0x02 when Y is even, 0x03 when it is odd, then X. */
  function Sec1Compressed(x: nat, y: nat): seq<byte>
  {
    [if y % 2 == 0 then 0x02 else 0x03] + IntToOctets(x, 32)
  }

  /** `0x02 | (b & 0x01)` is 0x02 for an even byte and 0x03 for an odd one. */
  lemma LowBitFlag(b: byte)
    ensures BitOr(0x02, BitAnd(b, 0x01)) == if b % 2 == 0 then 0x02 else 0x03
  {
    assert BitAnd(b, 0x01) == b % 2;
    if b % 2 == 1 {
      assert BitOr(0x02, 0x01) == 2 * BitOr(1, 0) + 1;
    }
  }

  /** Overwriting byte 0 of an uncompressed SEC 1 point and keeping its first 33 bytes
      yields the SEC 1 compressed encoding of the same point, with no second multiplication. */
  lemma CompressPointIsSec1(pub: Bytes65)
    requires pub[0] == 0x04
    ensures var x, y := OctetsToInt(pub[1..33]), OctetsToInt(pub[33..65]);
      pub == Sec1Uncompressed(x, y) && CompressPoint(pub) == Sec1Compressed(x, y)
  {
    var xs, ys := pub[1..33], pub[33..65];
    OctetsRoundTrip(xs);
    OctetsRoundTrip(ys);
    OctetsParity(ys);
    assert ys[31] == pub[64];
    LowBitFlag(pub[64]);
    assert pub == [0x04] + xs + ys;
  }

  /** The global state the derivation functions write: `mem` (used as `pub_chr`), the
      `unhexed` buffer and the two `hash160_t` results. */
  datatype DigestState = DigestState(mem: Buf, unhexed: Buf, uncmp: Bytes20, compr: Bytes20)

  /** What one `input2hash160` call returns and leaves behind. */
  datatype Derived = Derived(ret: int, state: DigestState)

  /** The private key a transform produces, or the non-zero code it returns instead. */
  datatype Keyed = Key(key: Bytes32, unhexed: Buf) | NoKey(ret: int, unhexed: Buf)

  /** `priv2hash160(priv)`: one point multiplication, then both digests. */
  function KeyDigests(p: Primitives, priv: Bytes32, st: DigestState): (r: DigestState)
    ensures var pub := p.pubkeyCreate(priv);
      r.uncmp == Hash160(p, pub) && r.compr == Hash160(p, CompressPoint(pub))
    ensures r.mem[..33] == CompressPoint(p.pubkeyCreate(priv))
    ensures r.mem[33..65] == p.pubkeyCreate(priv)[33..] && r.mem[65..] == st.mem[65..]
    ensures r.unhexed == st.unhexed
  {
    var pub := p.pubkeyCreate(priv);
    var mem: Buf := CompressPoint(pub) + pub[33..] + st.mem[65..];
    assert mem[..33] == CompressPoint(pub);
    assert mem[33..65] == pub[33..];
    assert mem[65..] == st.mem[65..];
    DigestState(mem, st.unhexed, Hash160(p, pub), Hash160(p, CompressPoint(pub)))
  }

  /** When the multiplication yields an uncompressed SEC 1 point, the two digests are
      the hash160 of that point's uncompressed and compressed SEC 1 encodings. */
  lemma DigestsOfSec1Encodings(p: Primitives, priv: Bytes32, st: DigestState)
    requires p.pubkeyCreate(priv)[0] == 0x04
    ensures var pub := p.pubkeyCreate(priv);
      var x, y := OctetsToInt(pub[1..33]), OctetsToInt(pub[33..65]);
      var r := KeyDigests(p, priv, st);
      r.uncmp == Hash160(p, Sec1Uncompressed(x, y)) && r.compr == Hash160(p, Sec1Compressed(x, y))
  {
    CompressPointIsSec1(p.pubkeyCreate(priv));
  }

  /** The transform layer: the private key each `input2hash160` target derives from one
      input, with `unhex` writing into the shared `unhexed` buffer. */
  function KeyOf(p: Primitives, t: Transform, kdfSalt: seq<byte>, kdfPass: seq<byte>,
                 input: seq<byte>, unhexed: Buf): (r: Keyed)
    ensures r.NoKey? ==> r.ret != 0
    ensures t.PassStr? || t.HexPriv? ==> r.Key?
    ensures t.HexPass? ==> (r.Key? <==> |input| / 2 <= BUF_SIZE)
    ensures !(t.HexPass? || t.HexPriv?) ==> r.unhexed == unhexed
    ensures t.HexPass? || t.HexPriv? ==> r.unhexed == p.unhex(input, unhexed)
  {
    match t
    case PassStr => Key(p.sha256(input), unhexed)
    case HexPass =>
      var buf := p.unhex(input, unhexed);
      var n := |input| / 2;
      if n <= BUF_SIZE then Key(p.sha256(buf[..n]), buf) else NoKey(HEX_OVERFLOW, buf)
    case HexPriv =>
      var buf := p.unhex(input, unhexed);
      Key(buf[..32], buf)
    case WarpPass => KdfKey(p.warpwallet(input, kdfSalt), unhexed)
    case BwioPass => KdfKey(p.brainwalletio(input, kdfSalt), unhexed)
    case Brainv2Pass => Brainv2Key(p, p.brainv2(input, kdfSalt), unhexed)
    case WarpSalt => KdfKey(p.warpwallet(kdfPass, input), unhexed)
    case BwioSalt => KdfKey(p.brainwalletio(kdfPass, input), unhexed)
    case Brainv2Salt => Brainv2Key(p, p.brainv2(kdfPass, input), unhexed)
  }

  /** A KDF's non-zero return code is passed up instead of a key. */
  function KdfKey(k: KdfOut, unhexed: Buf): Keyed
  {
    if k.ret != 0 then NoKey(k.ret, unhexed) else Key(k.key, unhexed)
  }

  /** brainv2 yields 32 hex characters, which go through the passphrase path. */
  function Brainv2Key(p: Primitives, h: HexOut, unhexed: Buf): Keyed
  {
    if h.ret != 0 then NoKey(h.ret, unhexed) else Key(p.sha256(h.hex), unhexed)
  }

  /** One `input2hash160(input)` call: the derived key's digests, or the transform's
      non-zero code with the previous digests left in place. */
  function Apply(p: Primitives, t: Transform, kdfSalt: seq<byte>, kdfPass: seq<byte>,
                 input: seq<byte>, st: DigestState): (d: Derived)
    ensures d.ret != 0 ==> d.state == st.(unhexed := d.state.unhexed)
    ensures d.ret == 0 <==> KeyOf(p, t, kdfSalt, kdfPass, input, st.unhexed).Key?
    ensures d.state.unhexed == KeyOf(p, t, kdfSalt, kdfPass, input, st.unhexed).unhexed
  {
    var k := KeyOf(p, t, kdfSalt, kdfPass, input, st.unhexed);
    match k
    case Key(key, buf) => Derived(0, KeyDigests(p, key, st.(unhexed := buf)))
    case NoKey(ret, buf) => Derived(ret, st.(unhexed := buf))
  }

  /** A KDF that fails leaves both digests of the previous input in place, and the
      wrapper returns the KDF's own code. */
  lemma FailedKdfKeepsDigests(p: Primitives, t: Transform, kdfSalt: seq<byte>,
                              kdfPass: seq<byte>, input: seq<byte>, st: DigestState)
    requires t.WarpPass? || t.BwioPass? || t.WarpSalt? || t.BwioSalt?
    requires var (pass, salt) := if t.WarpPass? || t.BwioPass? then (input, kdfSalt) else (kdfPass, input);
      (if t.WarpPass? || t.WarpSalt? then p.warpwallet(pass, salt) else p.brainwalletio(pass, salt)).ret != 0
    ensures Apply(p, t, kdfSalt, kdfPass, input, st).state == st
    ensures Apply(p, t, kdfSalt, kdfPass, input, st).ret != 0
    ensures var (pass, salt) := if t.WarpPass? || t.BwioPass? then (input, kdfSalt) else (kdfPass, input);
      var k := if t.WarpPass? || t.WarpSalt? then p.warpwallet(pass, salt) else p.brainwalletio(pass, salt);
      Apply(p, t, kdfSalt, kdfPass, input, st) == Derived(k.ret, st)
  {
  }

  /** brainv2's 32 hex characters are hashed exactly as the plain passphrase transform
      would hash them, for both the passphrase and the salt variant; when brainv2 fails,
      its code comes back and the state is kept. */
  lemma Brainv2IsPassphraseOfHex(p: Primitives, kdfSalt: seq<byte>, kdfPass: seq<byte>,
                                 input: seq<byte>, st: DigestState)
    ensures var h := p.brainv2(input, kdfSalt);
      h.ret == 0 ==> Apply(p, Brainv2Pass, kdfSalt, kdfPass, input, st) == Apply(p, PassStr, kdfSalt, kdfPass, h.hex, st)
    ensures var h := p.brainv2(kdfPass, input);
      h.ret == 0 ==> Apply(p, Brainv2Salt, kdfSalt, kdfPass, input, st) == Apply(p, PassStr, kdfSalt, kdfPass, h.hex, st)
    ensures var h := p.brainv2(input, kdfSalt);
      h.ret != 0 ==> Apply(p, Brainv2Pass, kdfSalt, kdfPass, input, st) == Derived(h.ret, st)
    ensures var h := p.brainv2(kdfPass, input);
      h.ret != 0 ==> Apply(p, Brainv2Salt, kdfSalt, kdfPass, input, st) == Derived(h.ret, st)
  {
  }

  /** The classic brainwallet: the key is SHA-256 of the passphrase and the call never fails. */
  lemma PassphraseKey(p: Primitives, kdfSalt: seq<byte>, kdfPass: seq<byte>, input: seq<byte>, st: DigestState)
    ensures var d := Apply(p, PassStr, kdfSalt, kdfPass, input, st);
      var pub := p.pubkeyCreate(p.sha256(input));
      d.ret == 0 && d.state.uncmp == Hash160(p, pub) && d.state.compr == Hash160(p, CompressPoint(pub))
      && d.state.unhexed == st.unhexed
  {
  }

  /** hexpass2hash160 as written hands SHA256_Update `hpass_sz >> 1` bytes of the
      4096-byte `unhexed` buffer, however long the text is. */
  function HexPassReadLength(hpassSize: nat): (n: nat)
    ensures n * 2 <= hpassSize < n * 2 + 2
  {
    hpassSize / 2
  }

  /** A line of 8194 hex characters makes that read run one byte past the buffer. */
  lemma HexPassOverRead()
    ensures HexPassReadLength(8194) > BUF_SIZE
  {
  }

  /** The file's globals, as one object: `mem` (the `pub_chr` scratch), `unhexed`, the two
      `hash160_t` results, and what `main` installs before the read loop: the
      `input2hash160` target, `kdfsalt` and `kdfpass`. */
  class Deriver {
    const prims: Primitives
    const transform: Transform
    const kdfSalt: seq<byte>
    const kdfPass: seq<byte>
    const mem: array<byte>
    const unhexed: array<byte>
    var hash160Uncmp: Bytes20
    var hash160Compr: Bytes20

    ghost predicate Valid()
      reads this
    {
      mem.Length == BUF_SIZE && unhexed.Length == BUF_SIZE && mem != unhexed
    }

    function State(): DigestState
      reads this, mem, unhexed
      requires Valid()
    {
      DigestState(mem[..], unhexed[..], hash160Uncmp, hash160Compr)
    }

    /** Static zero initialisation, `brainflayer_init_globals`, and main's choice of
        transform and KDF salt or passphrase. `malloc` leaves `mem` unspecified. */
    constructor (p: Primitives, t: Transform, salt: seq<byte>, pass: seq<byte>)
      ensures Valid() && fresh(mem) && fresh(unhexed)
      ensures prims == p && transform == t && kdfSalt == salt && kdfPass == pass
      ensures unhexed[..] == seq(BUF_SIZE, _ => 0)
      ensures hash160Uncmp == seq(20, _ => 0) && hash160Compr == seq(20, _ => 0)
    {
      prims, transform, kdfSalt, kdfPass := p, t, salt, pass;
      mem := new byte[BUF_SIZE];
      unhexed := new byte[BUF_SIZE](_ => 0);
      hash160Uncmp, hash160Compr := seq(20, _ => 0), seq(20, _ => 0);
    }

    method Priv2Hash160(priv: Bytes32) returns (ret: int)
      requires Valid()
      modifies this`hash160Uncmp, this`hash160Compr, mem
      ensures ret == 0 && State() == KeyDigests(prims, priv, old(State()))
    {
      var pub := prims.pubkeyCreate(priv);
      forall i | 0 <= i < 65 {
        mem[i] := pub[i];
      }
      assert mem[..65] == pub;
      // hash160 of the 65-byte uncompressed point
      hash160Uncmp := Hash160(prims, mem[..65]);
      // the compression rewrites byte 0 in place
      LowBitFlag(mem[64]);
      mem[0] := BitOr(0x02, BitAnd(mem[64], 0x01));
      assert mem[..33] == CompressPoint(pub);
      hash160Compr := Hash160(prims, mem[..33]);
      ret := 0;
      assert mem[..] == CompressPoint(pub) + pub[33..] + old(mem[65..]);
    }

    method Pass2Hash160(pass: seq<byte>) returns (ret: int)
      requires Valid()
      modifies this`hash160Uncmp, this`hash160Compr, mem
      ensures Derived(ret, State()) == Apply(prims, PassStr, kdfSalt, kdfPass, pass, old(State()))
    {
      ret := Priv2Hash160(prims.sha256(pass));
    }

    /** Copies what `unhex` leaves in its destination into `unhexed`. */
    method Unhex(text: seq<byte>)
      requires Valid()
      modifies unhexed
      ensures unhexed[..] == prims.unhex(text, old(unhexed[..]))
    {
      var buf := prims.unhex(text, unhexed[..]);
      forall i | 0 <= i < BUF_SIZE {
        unhexed[i] := buf[i];
      }
    }

    /** Corrected: a text whose decoded length exceeds the buffer returns HEX_OVERFLOW
        instead of reading past it. */
    method HexPass2Hash160(hpass: seq<byte>) returns (ret: int)
      requires Valid()
      modifies this`hash160Uncmp, this`hash160Compr, mem, unhexed
      ensures Derived(ret, State()) == Apply(prims, HexPass, kdfSalt, kdfPass, hpass, old(State()))
    {
      Unhex(hpass);
      var n := |hpass| / 2;
      if n > BUF_SIZE {
        ret := HEX_OVERFLOW;
        return;
      }
      ret := Pass2Hash160(unhexed[..n]);
    }

    method HexPriv2Hash160(hpriv: seq<byte>) returns (ret: int)
      requires Valid()
      modifies this`hash160Uncmp, this`hash160Compr, mem, unhexed
      ensures Derived(ret, State()) == Apply(prims, HexPriv, kdfSalt, kdfPass, hpriv, old(State()))
    {
      Unhex(hpriv);
      ret := Priv2Hash160(unhexed[..32]);
    }

    method WarpPass2Hash160(pass: seq<byte>) returns (ret: int)
      requires Valid()
      modifies this`hash160Uncmp, this`hash160Compr, mem
      ensures Derived(ret, State()) == Apply(prims, WarpPass, kdfSalt, kdfPass, pass, old(State()))
    {
      var k := prims.warpwallet(pass, kdfSalt);
      if k.ret != 0 {
        return k.ret;
      }
      ret := Priv2Hash160(k.key);
    }

    method BwioPass2Hash160(pass: seq<byte>) returns (ret: int)
      requires Valid()
      modifies this`hash160Uncmp, this`hash160Compr, mem
      ensures Derived(ret, State()) == Apply(prims, BwioPass, kdfSalt, kdfPass, pass, old(State()))
    {
      var k := prims.brainwalletio(pass, kdfSalt);
      if k.ret != 0 {
        return k.ret;
      }
      ret := Priv2Hash160(k.key);
    }

    method Brainv2Pass2Hash160(pass: seq<byte>) returns (ret: int)
      requires Valid()
      modifies this`hash160Uncmp, this`hash160Compr, mem
      ensures Derived(ret, State()) == Apply(prims, Brainv2Pass, kdfSalt, kdfPass, pass, old(State()))
    {
      var h := prims.brainv2(pass, kdfSalt);
      if h.ret != 0 {
        return h.ret;
      }
      ret := Pass2Hash160(h.hex);
    }

    method WarpSalt2Hash160(salt: seq<byte>) returns (ret: int)
      requires Valid()
      modifies this`hash160Uncmp, this`hash160Compr, mem
      ensures Derived(ret, State()) == Apply(prims, WarpSalt, kdfSalt, kdfPass, salt, old(State()))
    {
      var k := prims.warpwallet(kdfPass, salt);
      if k.ret != 0 {
        return k.ret;
      }
      ret := Priv2Hash160(k.key);
    }

    method BwioSalt2Hash160(salt: seq<byte>) returns (ret: int)
      requires Valid()
      modifies this`hash160Uncmp, this`hash160Compr, mem
      ensures Derived(ret, State()) == Apply(prims, BwioSalt, kdfSalt, kdfPass, salt, old(State()))
    {
      var k := prims.brainwalletio(kdfPass, salt);
      if k.ret != 0 {
        return k.ret;
      }
      ret := Priv2Hash160(k.key);
    }

    method Brainv2Salt2Hash160(salt: seq<byte>) returns (ret: int)
      requires Valid()
      modifies this`hash160Uncmp, this`hash160Compr, mem
      ensures Derived(ret, State()) == Apply(prims, Brainv2Salt, kdfSalt, kdfPass, salt, old(State()))
    {
      var h := prims.brainv2(kdfPass, salt);
      if h.ret != 0 {
        return h.ret;
      }
      ret := Pass2Hash160(h.hex);
    }

    /** The call through the `input2hash160` function pointer. */
    method Input2Hash160(input: seq<byte>) returns (ret: int)
      requires Valid()
      modifies this`hash160Uncmp, this`hash160Compr, mem, unhexed
      ensures Derived(ret, State()) == Apply(prims, transform, kdfSalt, kdfPass, input, old(State()))
    {
      match transform
      case PassStr => ret := Pass2Hash160(input);
      case HexPass => ret := HexPass2Hash160(input);
      case HexPriv => ret := HexPriv2Hash160(input);
      case WarpPass => ret := WarpPass2Hash160(input);
      case BwioPass => ret := BwioPass2Hash160(input);
      case Brainv2Pass => ret := Brainv2Pass2Hash160(input);
      case WarpSalt => ret := WarpSalt2Hash160(input);
      case BwioSalt => ret := BwioSalt2Hash160(input);
      case Brainv2Salt => ret := Brainv2Salt2Hash160(input);
    }
  }
}
