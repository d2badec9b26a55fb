/** Option resolution in `main` (brainflayer.c:264-388): the getopt loop over the
    option locals, then the checks on positional arguments, window size and memory,
    input type and salt or passphrase. */
module Options {
  import opened Basics
  import opened Derive

  /** One option as getopt returns it for the option string "avb:hi:m:o:p:s:t:w:". */
  datatype Opt =
    | Append                  // -a
    | Verbose                 // -v
    | Bloom(file: seq<byte>)  // -b FILE
    | Help                    // -h
    | Input(file: seq<byte>)  // -i FILE
    | Table(file: seq<byte>)  // -m FILE
    | Output(file: seq<byte>) // -o FILE
    | Pass(pass: seq<byte>)   // -p PASSPHRASE
    | Salt(salt: seq<byte>)   // -s SALT
    | Type(name: seq<byte>)   // -t TYPE
    | Window(arg: seq<byte>)  // -w WINDOW_SIZE
    | Unrecognized            // '?': an unknown option or a missing argument

  /** What getopt leaves: the options in order, `optind`, and the arguments it did not
      consume (`argc == optind + |positional|`). */
  datatype CommandLine = CommandLine(opts: seq<Opt>, optind: nat, positional: seq<seq<byte>>)

  /** The option locals `aopt`, `vopt`, `wopt`, `bopt`, `iopt`, `mopt`, `oopt`, `popt`,
      `sopt`, `topt`; None stands for NULL. */
  datatype OptState = OptState(
    aopt: bool, vopt: bool, wopt: int,
    bopt: Option<seq<byte>>, iopt: Option<seq<byte>>, mopt: Option<seq<byte>>,
    oopt: Option<seq<byte>>, popt: Option<seq<byte>>, sopt: Option<seq<byte>>,
    topt: Option<seq<byte>>)

  const DEFAULT_WINDOW: int := 16
  const MIN_WINDOW: int := 1
  const MAX_WINDOW: int := 28
  /** Bytes of RAM required per table entry in the sanity check `3584LLU*(1<<wopt)`. */
  const RAM_PER_ENTRY: nat := 3584

  const Defaults := OptState(false, false, DEFAULT_WINDOW, None, None, None, None, None, None, None)

  /** The reasons `main` stops before reading input; each exits with status 1. */
  datatype ConfigError =
    | Usage                               // -h: usage() calls exit(1)
    | BadOption                           // getopt returned '?'
    | InvalidArguments(args: seq<seq<byte>>)
    | InvalidWindow(w: int)
    | NotEnoughRam(w: int)
    | UnknownType(name: seq<byte>)
    | SaltAndPass
    | PassNotSupported(name: seq<byte>)
    | SaltNotSupported(name: seq<byte>)

  datatype Result<+T> = Ok(value: T) | Err(error: ConfigError)

  /** The fixed salt or passphrase handed to a salted transform: `kdfsalt` when inputs
      are passphrases, `kdfpass` when inputs are salts. */
  datatype Aux = NoAux | KdfSalt(salt: seq<byte>) | KdfPass(pass: seq<byte>)

  /** Everything `main` has decided when the checks pass. `typeName` is `topt`, the type
      name printed in every output record. */
  datatype Config = Config(
    window: int, transform: Transform, typeName: seq<byte>, aux: Aux,
    bloom: Option<seq<byte>>, table: Option<seq<byte>>,
    input: Option<seq<byte>>, output: Option<seq<byte>>, append: bool, verbose: bool)

  predicate IsSpace(b: byte)
  {
    b == 0x20 || (0x09 <= b <= 0x0d)
  }

  predicate IsDigit(b: byte)
  {
    0x30 <= b <= 0x39
  }

  /** The value of the leading decimal digits of s. */
  function Digits(s: seq<byte>, acc: int): int
    decreases |s|
  {
    if s == [] || !IsDigit(s[0]) then acc
    else Digits(s[1..], acc * 10 + (s[0] - 0x30))
  }

  /** The number `strtol(s, NULL, 10)` parses: leading white space, an optional sign,
      then decimal digits; 0 when no digits follow. */
  function Strtol(s: seq<byte>): int
  {
    if s != [] && IsSpace(s[0]) then Strtol(s[1..])
    else if s != [] && s[0] == 0x2d then -Digits(s[1..], 0)
    else if s != [] && s[0] == 0x2b then Digits(s[1..], 0)
    else Digits(s, 0)
  }

  const LONG_MIN: int := -0x8000_0000_0000_0000
  const LONG_MAX: int := 0x7fff_ffff_ffff_ffff
  const INT_MIN: int := -0x8000_0000
  const INT_MAX: int := 0x7fff_ffff

  /** `strtol`'s result on a 64-bit `long`: out-of-range values saturate. */
  function ClampLong(v: int): (r: int)
    ensures LONG_MIN <= r <= LONG_MAX
    ensures LONG_MIN <= v <= LONG_MAX ==> r == v
  {
    if v < LONG_MIN then LONG_MIN else if v > LONG_MAX then LONG_MAX else v
  }

  /** The conversion of a `long` to `int`: the low 32 bits, read in two's complement. */
  function ToInt(v: int): (r: int)
    ensures INT_MIN <= r <= INT_MAX
    ensures INT_MIN <= v <= INT_MAX ==> r == v
  {
    var w := v % 0x1_0000_0000;
    if w > INT_MAX then w - 0x1_0000_0000 else w
  }

  /** glibc's `atoi`: `(int) strtol(s, NULL, 10)`. */
  function Atoi(s: seq<byte>): (r: int)
    ensures INT_MIN <= r <= INT_MAX
  {
    ToInt(ClampLong(Strtol(s)))
  }

  /** Decimal digits read back to the number they spell. */
  function Decimal(n: nat): (r: seq<byte>)
    ensures r != [] && IsDigit(r[0])
  {
    if n < 10 then [DigitChar(n)] else Decimal(n / 10) + [DigitChar(n % 10)]
  }

  function DigitChar(d: nat): (b: byte)
    requires d < 10
    ensures IsDigit(b) && (b - 0x30) == d
  {
    (0x30 + d) as byte
  }

  lemma {:induction false} DigitsOfDecimal(n: nat, acc: int, rest: seq<byte>)
    ensures Digits(Decimal(n) + rest, acc) == Digits(rest, acc * Pow10(|Decimal(n)|) + n)
  {
    if n < 10 {
      assert (Decimal(n) + rest)[1..] == rest;
      assert Pow10(1) == 10;
    } else {
      var hi, d := Decimal(n / 10), DigitChar(n % 10);
      assert Decimal(n) + rest == hi + ([d] + rest);
      DigitsOfDecimal(n / 10, acc, [d] + rest);
      var a := acc * Pow10(|hi|) + n / 10;
      assert ([d] + rest)[1..] == rest;
      assert Digits([d] + rest, a) == Digits(rest, a * 10 + n % 10);
      ShiftDecimal(acc, Pow10(|hi|), n);
      assert Pow10(|hi| + 1) == Pow10(|hi|) * 10;
    }
  }

  lemma ShiftDecimal(acc: int, p: int, n: nat)
    ensures (acc * p + n / 10) * 10 + n % 10 == acc * (p * 10) + n
  {
  }

  function Pow10(k: nat): nat
  {
    if k == 0 then 1 else 10 * Pow10(k - 1)
  }

  /** `strtol` reads any number written in decimal back exactly. */
  lemma StrtolDecimal(n: nat)
    ensures Strtol(Decimal(n)) == n
  {
    DigitsOfDecimal(n, 0, []);
    assert Decimal(n) + [] == Decimal(n);
  }

  /** `atoi` reads back every window size written in decimal that an `int` holds. */
  lemma AtoiDecimal(n: nat)
    requires n <= INT_MAX
    ensures Atoi(Decimal(n)) == n
  {
    StrtolDecimal(n);
  }

  /** A -w argument in the range of `long` is read as its low 32 bits, in two's complement. */
  lemma AtoiDecimalWraps(n: nat)
    requires n <= LONG_MAX
    ensures Atoi(Decimal(n)) == ToInt(n)
  {
    StrtolDecimal(n);
  }

  /** A window size of 2^32 or more loses its bit 32: `-w 4294967312` is read as 16. */
  lemma AtoiDropsBit32(n: nat)
    requires 0x1_0000_0000 <= n < 0x1_8000_0000
    ensures Atoi(Decimal(n)) == n - 0x1_0000_0000
  {
    AtoiDecimalWraps(n);
    ModUnique(n, 0x1_0000_0000, 1, n - 0x1_0000_0000);
  }

  /** One pass of the getopt `switch`: the updated locals, or the early exit. */
  function ApplyOpt(st: OptState, o: Opt): Result<OptState>
  {
    match o
    case Append => Ok(st.(aopt := true))
    case Window(arg) => if st.wopt > 1 then Ok(st.(wopt := Atoi(arg))) else Ok(st)
    case Table(file) => Ok(st.(mopt := Some(file), wopt := 1))
    case Verbose => Ok(st.(vopt := true))
    case Bloom(file) => Ok(st.(bopt := Some(file)))
    case Input(file) => Ok(st.(iopt := Some(file)))
    case Output(file) => Ok(st.(oopt := Some(file)))
    case Salt(salt) => Ok(st.(sopt := Some(salt)))
    case Pass(pass) => Ok(st.(popt := Some(pass)))
    case Type(name) => Ok(st.(topt := Some(name)))
    case Help => Err(Usage)
    case Unrecognized => Err(BadOption)
  }

  /** The getopt loop as a fold over the options. */
  function FoldOptions(st: OptState, opts: seq<Opt>): Result<OptState>
    decreases |opts|
  {
    if opts == [] then Ok(st)
    else match ApplyOpt(st, opts[0])
      case Err(e) => Err(e)
      case Ok(st') => FoldOptions(st', opts[1..])
  }

  /** The getopt `while` loop of `main`, updating the option locals one option at a time. */
  method ParseOptions(opts: seq<Opt>) returns (r: Result<OptState>)
    ensures r == FoldOptions(Defaults, opts)
  {
    var aopt, vopt, wopt := false, false, DEFAULT_WINDOW;
    var bopt, iopt, oopt: Option<seq<byte>> := None, None, None;
    var topt, sopt, popt: Option<seq<byte>> := None, None, None;
    var mopt: Option<seq<byte>> := None;
    var i := 0;
    while i < |opts|
      invariant 0 <= i <= |opts|
      invariant FoldOptions(Defaults, opts)
             == FoldOptions(OptState(aopt, vopt, wopt, bopt, iopt, mopt, oopt, popt, sopt, topt), opts[i..])
    {
      match opts[i] {
        case Append => aopt := true;
        case Window(arg) => if wopt > 1 { wopt := Atoi(arg); }
        case Table(file) => mopt := Some(file); wopt := 1;
        case Verbose => vopt := true;
        case Bloom(file) => bopt := Some(file);
        case Input(file) => iopt := Some(file);
        case Output(file) => oopt := Some(file);
        case Salt(salt) => sopt := Some(salt);
        case Pass(pass) => popt := Some(pass);
        case Type(name) => topt := Some(name);
        case Help => return Err(Usage);
        case Unrecognized => return Err(BadOption);
      }
      i := i + 1;
    }
    r := Ok(OptState(aopt, vopt, wopt, bopt, iopt, mopt, oopt, popt, sopt, topt));
  }

  /** The type names `main` compares `topt` with. */
  const TYPE_STR: seq<byte> := [0x73, 0x74, 0x72]          // "str"
  const TYPE_HEX: seq<byte> := [0x68, 0x65, 0x78]          // "hex"
  const TYPE_PRIV: seq<byte> := [0x70, 0x72, 0x69, 0x76]   // "priv"
  const TYPE_WARP: seq<byte> := [0x77, 0x61, 0x72, 0x70]   // "warp"
  const TYPE_BWIO: seq<byte> := [0x62, 0x77, 0x69, 0x6f]   // "bwio"
  const TYPE_BV2: seq<byte> := [0x62, 0x76, 0x32]          // "bv2"

  /** The type -> transform table; None for an unknown type name. The salted types pick
      their salt-as-input variant when a passphrase was given. */
  function SelectTransform(name: seq<byte>, havePass: bool): Option<Transform>
  {
    if name == TYPE_STR then Some(PassStr)
    else if name == TYPE_HEX then Some(HexPass)
    else if name == TYPE_PRIV then Some(HexPriv)
    else if name == TYPE_WARP then Some(if havePass then WarpSalt else WarpPass)
    else if name == TYPE_BWIO then Some(if havePass then BwioSalt else BwioPass)
    else if name == TYPE_BV2 then Some(if havePass then Brainv2Salt else Brainv2Pass)
    else None
  }

  /** `spok`: the transform takes a salt or a passphrase. */
  predicate IsSalted(t: Transform)
  {
    t.WarpPass? || t.BwioPass? || t.Brainv2Pass? || t.WarpSalt? || t.BwioSalt? || t.Brainv2Salt?
  }

  predicate InputIsSalt(t: Transform)
  {
    t.WarpSalt? || t.BwioSalt? || t.Brainv2Salt?
  }

  /** The checks after the getopt loop, in the order `main` makes them. */
  function Validate(st: OptState, optind: nat, positional: seq<seq<byte>>, sysram: u64): (r: Result<Config>)
    ensures r.Ok? ==> MIN_WINDOW <= r.value.window <= MAX_WINDOW
    ensures r.Ok? ==> RAM_PER_ENTRY * Pow2(r.value.window) <= sysram
    ensures r.Ok? ==> (r.value.aux.NoAux? <==> !IsSalted(r.value.transform))
    ensures r.Ok? ==> (r.value.aux.KdfPass? <==> InputIsSalt(r.value.transform))
  {
    if |positional| > 0 && !(optind == 1 && |positional| == 1) then
      Err(InvalidArguments(positional))
    else
      // an older calling convention: a lone argument names the bloom filter
      var bopt := if |positional| > 0 then Some(positional[0]) else st.bopt;
      if st.wopt < MIN_WINDOW || st.wopt > MAX_WINDOW then Err(InvalidWindow(st.wopt))
      else if RAM_PER_ENTRY * Pow2(st.wopt) > sysram then Err(NotEnoughRam(st.wopt))
      else
        var typeName := if st.topt.Some? then st.topt.value else TYPE_STR;
        match SelectTransform(typeName, st.popt.Some?)
        case None => Err(UnknownType(typeName))
        case Some(t) =>
          var auxOrError :=
            if IsSalted(t) then
              if st.sopt.Some? && st.popt.Some? then Err(SaltAndPass)
              else if st.popt.Some? then Ok(KdfPass(st.popt.value))
              else if st.sopt.Some? then Ok(KdfSalt(st.sopt.value))
              else Ok(KdfSalt([]))
            else if st.popt.Some? then Err(PassNotSupported(typeName))
            else if st.sopt.Some? then Err(SaltNotSupported(typeName))
            else Ok(NoAux);
          match auxOrError
          case Err(e) => Err(e)
          case Ok(aux) =>
            Ok(Config(st.wopt, t, typeName, aux, bopt, st.mopt, st.iopt, st.oopt, st.aopt, st.vopt))
  }

  /** From the command line and the machine's RAM to a configuration or an exit. */
  function Resolve(cmd: CommandLine, sysram: u64): Result<Config>
  {
    match FoldOptions(Defaults, cmd.opts)
    case Err(e) => Err(e)
    case Ok(st) => Validate(st, cmd.optind, cmd.positional, sysram)
  }

  /** The start of `main`: the getopt loop, then the checks. */
  method Configure(cmd: CommandLine, sysram: u64) returns (r: Result<Config>)
    ensures r == Resolve(cmd, sysram)
  {
    var parsed := ParseOptions(cmd.opts);
    match parsed
    case Err(e) => r := Err(e);
    case Ok(st) => r := Validate(st, cmd.optind, cmd.positional, sysram);
  }

  predicate NoTable(opts: seq<Opt>)
  {
    forall i :: 0 <= i < |opts| ==> !opts[i].Table?
  }

  /** Once the window is 1 or less, no later -w changes it. */
  lemma {:induction false} SmallWindowSticks(st: OptState, opts: seq<Opt>)
    requires st.wopt <= 1 && NoTable(opts)
    requires FoldOptions(st, opts).Ok?
    ensures FoldOptions(st, opts).value.wopt == st.wopt
    decreases |opts|
  {
    if opts != [] {
      SmallWindowSticks(ApplyOpt(st, opts[0]).value, opts[1..]);
    }
  }

  /** Any -m sets the window to 1 for good: every -w after it is ignored. */
  lemma {:induction false} TableForcesWindowOne(st: OptState, opts: seq<Opt>)
    requires exists i :: 0 <= i < |opts| && opts[i].Table?
    requires FoldOptions(st, opts).Ok?
    ensures FoldOptions(st, opts).value.wopt == 1
    decreases |opts|
  {
    var st' := ApplyOpt(st, opts[0]).value;
    if opts[0].Table? {
      if NoTable(opts[1..]) {
        SmallWindowSticks(st', opts[1..]);
      } else {
        var j :| 0 <= j < |opts[1..]| && opts[1..][j].Table?;
        TableForcesWindowOne(st', opts[1..]);
      }
    } else {
      var i :| 0 <= i < |opts| && opts[i].Table?;
      assert opts[1..][i - 1].Table?;
      TableForcesWindowOne(st', opts[1..]);
    }
  }

  /** A -w after a -m, however many options lie between, leaves the window at 1. */
  lemma WindowAfterTableIgnored(pre: seq<Opt>, file: seq<byte>, mid: seq<Opt>, arg: seq<byte>, post: seq<Opt>)
    requires FoldOptions(Defaults, pre + [Table(file)] + mid + [Window(arg)] + post).Ok?
    ensures FoldOptions(Defaults, pre + [Table(file)] + mid + [Window(arg)] + post).value.wopt == 1
  {
    var opts := pre + [Table(file)] + mid + [Window(arg)] + post;
    assert opts[|pre|].Table?;
    TableForcesWindowOne(Defaults, opts);
  }

  /** Without -w and -m the window stays at its default, 16. */
  lemma {:induction false} DefaultWindowKept(st: OptState, opts: seq<Opt>)
    requires forall i :: 0 <= i < |opts| ==> !opts[i].Window? && !opts[i].Table?
    requires FoldOptions(st, opts).Ok?
    ensures FoldOptions(st, opts).value.wopt == st.wopt
    decreases |opts|
  {
    if opts != [] {
      DefaultWindowKept(ApplyOpt(st, opts[0]).value, opts[1..]);
    }
  }

  /** -h and getopt's '?' stop the loop: whatever follows them is never looked at. */
  lemma {:induction false} StopDiscardsRest(st: OptState, pre: seq<Opt>, stop: Opt, post: seq<Opt>)
    requires stop.Help? || stop.Unrecognized?
    requires FoldOptions(st, pre).Ok?
    ensures FoldOptions(st, pre + [stop] + post) == Err(if stop.Help? then Usage else BadOption)
    decreases |pre|
  {
    if pre == [] {
      assert ([] + [stop] + post)[0] == stop;
    } else {
      assert (pre + [stop] + post)[1..] == pre[1..] + [stop] + post;
      StopDiscardsRest(ApplyOpt(st, pre[0]).value, pre[1..], stop, post);
    }
  }

  /** The window check: with acceptable arguments, the size is rejected exactly when it
      lies outside 1..28, and otherwise exactly when 3584 * 2^w bytes exceed the RAM. */
  lemma WindowChecks(st: OptState, optind: nat, positional: seq<seq<byte>>, sysram: u64)
    requires |positional| == 0 || (optind == 1 && |positional| == 1)
    ensures var r := Validate(st, optind, positional, sysram);
      (r == Err(InvalidWindow(st.wopt)) <==> (st.wopt < 1 || st.wopt > 28))
      && (r == Err(NotEnoughRam(st.wopt)) <==> (1 <= st.wopt <= 28 && 3584 * Pow2(st.wopt) > sysram))
  {
  }

  /** The type table: str, hex and priv map to fixed transforms; warp, bwio and bv2 map to
      their own KDF, taking inputs as salts exactly when -p was given; any other name fails. */
  lemma TypeTable(name: seq<byte>, havePass: bool)
    ensures SelectTransform(name, havePass).Some? <==>
      name in {TYPE_STR, TYPE_HEX, TYPE_PRIV, TYPE_WARP, TYPE_BWIO, TYPE_BV2}
    ensures name == TYPE_STR ==> SelectTransform(name, havePass) == Some(PassStr)
    ensures name == TYPE_HEX ==> SelectTransform(name, havePass) == Some(HexPass)
    ensures name == TYPE_PRIV ==> SelectTransform(name, havePass) == Some(HexPriv)
    ensures name == TYPE_WARP ==> SelectTransform(name, havePass) == Some(if havePass then WarpSalt else WarpPass)
    ensures name == TYPE_BWIO ==> SelectTransform(name, havePass) == Some(if havePass then BwioSalt else BwioPass)
    ensures name == TYPE_BV2 ==> SelectTransform(name, havePass) == Some(if havePass then Brainv2Salt else Brainv2Pass)
    ensures SelectTransform(name, havePass).Some? ==>
      var t := SelectTransform(name, havePass).value;
      (IsSalted(t) <==> name in {TYPE_WARP, TYPE_BWIO, TYPE_BV2})
      && (InputIsSalt(t) <==> IsSalted(t) && havePass)
  {
  }

  /** The printed type name: without -t the run uses `str` and the passphrase transform;
      with -t it prints the name given, which is one of the six accepted names. */
  lemma PrintedTypeName(st: OptState, optind: nat, positional: seq<seq<byte>>, sysram: u64)
    ensures var r := Validate(st, optind, positional, sysram);
      r.Ok? ==>
        (st.topt.None? ==> r.value.transform == PassStr && r.value.typeName == TYPE_STR)
        && (st.topt.Some? ==> r.value.typeName == st.topt.value)
        && r.value.typeName in {TYPE_STR, TYPE_HEX, TYPE_PRIV, TYPE_WARP, TYPE_BWIO, TYPE_BV2}
        && r.value.transform == SelectTransform(r.value.typeName, st.popt.Some?).value
  {
    var typeName := if st.topt.Some? then st.topt.value else TYPE_STR;
    TypeTable(typeName, st.popt.Some?);
  }

  /** The salt and passphrase rules once the window and type checks pass. */
  lemma SaltPassRules(st: OptState, optind: nat, positional: seq<seq<byte>>, sysram: u64)
    requires |positional| == 0 || (optind == 1 && |positional| == 1)
    requires MIN_WINDOW <= st.wopt <= MAX_WINDOW && RAM_PER_ENTRY * Pow2(st.wopt) <= sysram
    requires var typeName := if st.topt.Some? then st.topt.value else TYPE_STR;
      SelectTransform(typeName, st.popt.Some?).Some?
    ensures var typeName := if st.topt.Some? then st.topt.value else TYPE_STR;
      var t := SelectTransform(typeName, st.popt.Some?).value;
      var r := Validate(st, optind, positional, sysram);
      (IsSalted(t) ==>
        (st.sopt.Some? && st.popt.Some? <==> r == Err(SaltAndPass))
        && (st.sopt.None? && st.popt.Some? ==> r.Ok? && r.value.aux == KdfPass(st.popt.value))
        && (st.sopt.Some? && st.popt.None? ==> r.Ok? && r.value.aux == KdfSalt(st.sopt.value))
        && (st.sopt.None? && st.popt.None? ==> r.Ok? && r.value.aux == KdfSalt([])))
      && (!IsSalted(t) ==>
        (st.popt.Some? ==> r == Err(PassNotSupported(typeName)))
        && (st.popt.None? && st.sopt.Some? ==> r == Err(SaltNotSupported(typeName)))
        && (st.popt.None? && st.sopt.None? ==> r.Ok? && r.value.aux == NoAux))
  {
  }

  /** A lone positional argument, with no options at all, is the bloom filter path;
      any other positional arguments are refused. */
  lemma LegacyBloomArgument(st: OptState, optind: nat, positional: seq<seq<byte>>, sysram: u64)
    ensures var r := Validate(st, optind, positional, sysram);
      (|positional| > 0 && !(optind == 1 && |positional| == 1) ==> r == Err(InvalidArguments(positional)))
      && (optind == 1 && |positional| == 1 && r.Ok? ==> r.value.bloom == Some(positional[0]))
      && (|positional| == 0 && r.Ok? ==> r.value.bloom == st.bopt)
  {
  }

  /** With no options and no arguments brainflayer reads plain passphrases with a window
      of 16, provided the machine has 3584 * 2^16 bytes of RAM. */
  lemma DefaultConfiguration(sysram: u64)
    requires sysram >= 3584 * 65536
    ensures Resolve(CommandLine([], 1, []), sysram)
         == Ok(Config(16, PassStr, TYPE_STR, NoAux, None, None, None, None, false, false))
  {
    assert Pow2(4) == 16;
    Pow2Add(4, 4);
    Pow2Add(8, 8);
  }
}
