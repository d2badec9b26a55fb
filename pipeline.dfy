/** The read loop of `main` (brainflayer.c:423-488): strip each line, derive its two
    digests, emit the records the filter admits, and in verbose mode adapt the
    progress-reporting interval `report_mask` to the time between reports. */
module Pipeline {
  import opened Basics
  import opened Primitives
  import opened Derive
  import opened Output
  import Options

  /** A line as `getline` returns it: at least one byte, normally ending in '\n'. */
  type RawLine = s: seq<byte> | |s| >= 1 witness [0x0a]

  /** `line[strlen(line)-1] = 0` as written: the index it stores the NUL at. */
  function StripIndex(raw: RawLine): (k: int)
    ensures -1 <= k < |raw|
    ensures k == -1 <==> raw[0] == 0
  {
    |CStr(raw)| - 1
  }

  /** A line whose first byte is NUL makes `main` write one byte before the line buffer. */
  lemma LeadingNulWritesBeforeLine()
    ensures StripIndex([0x00, 0x0a]) == -1
  {
  }

  /** The candidate handed to the transform and printed in the records: the line up to
      its first NUL, minus its last byte (the newline, or the last character of a final
      line that has none). Corrected: a line starting with NUL gives the empty candidate. */
  function Candidate(raw: RawLine): (c: seq<byte>)
    ensures |c| < |raw| && c == raw[..|c|]
    ensures forall i :: 0 <= i < |c| ==> c[i] != 0
    ensures (forall i :: 0 <= i < |raw| ==> raw[i] != 0) ==> c == raw[..|raw| - 1]
    ensures raw[0] != 0 ==> |c| == StripIndex(raw)
  {
    var s := CStr(raw);
    if |s| == 0 then [] else s[..|s| - 1]
  }

  /** A text line ending in a newline loses exactly its newline. */
  lemma NewlineStripped(text: seq<byte>)
    requires forall i :: 0 <= i < |text| ==> text[i] != 0 && text[i] != NEWLINE
    ensures Candidate(text + [NEWLINE]) == text
  {
    var raw := text + [NEWLINE];
    assert forall i :: 0 <= i < |raw| ==> raw[i] != 0;
    assert raw[..|raw| - 1] == text;
  }

  /** One call of `fprintresult(f, hash, flag, type, input)` made by the loop; the type
      name is fixed for the run. */
  datatype Hit = Hit(hash: Bytes20, flag: byte, input: seq<byte>)

  /** The bytes the hits put on the output stream, one `fprintresult` line each. */
  function Render(typeName: seq<byte>, hits: seq<Hit>): seq<seq<byte>>
  {
    seq(|hits|, i requires 0 <= i < |hits| => Record(hits[i].hash, hits[i].flag, typeName, hits[i].input))
  }

  /** Reading the output back gives the hits again, since no accepted type name has a colon.
      */
  lemma RenderReadsBack(typeName: seq<byte>, hits: seq<Hit>, i: nat)
    requires forall j :: 0 <= j < |typeName| ==> typeName[j] != COLON
    requires i < |hits|
    ensures |Render(typeName, hits)| == |hits|
    ensures ParseRecord(Render(typeName, hits)[i]) == Some((hits[i].hash, hits[i].flag, typeName, hits[i].input))
  {
    RecordRoundTrip(hits[i].hash, hits[i].flag, typeName, hits[i].input);
  }

  /** The hits `main` makes for one candidate: with a filter, each digest it contains;
      without one, both; `u` before `c`. */
  function Emit(filter: Option<Bytes20 -> bool>, u: Bytes20, c: Bytes20, cand: seq<byte>): seq<Hit>
  {
    var hu, hc := Hit(u, FLAG_UNCOMPRESSED, cand), Hit(c, FLAG_COMPRESSED, cand);
    match filter
    case None => [hu, hc]
    case Some(has) => (if has(u) then [hu] else []) + (if has(c) then [hc] else [])
  }

  /** A digest is written exactly when the filter admits it (always without a filter),
      nothing else is written, the uncompressed one comes first, and all carry the candidate. */
  lemma EmitAdmits(filter: Option<Bytes20 -> bool>, u: Bytes20, c: Bytes20, cand: seq<byte>)
    ensures var r := Emit(filter, u, c, cand);
      && (Hit(u, FLAG_UNCOMPRESSED, cand) in r <==> (filter.None? || filter.value(u)))
      && (Hit(c, FLAG_COMPRESSED, cand) in r <==> (filter.None? || filter.value(c)))
      && (forall i :: 0 <= i < |r| ==>
            (r[i].input == cand
             && (r[i].flag == FLAG_UNCOMPRESSED ==> r[i].hash == u)
             && (r[i].flag == FLAG_COMPRESSED ==> r[i].hash == c)))
      && (forall i, j :: 0 <= i < j < |r| ==> r[i].flag == FLAG_UNCOMPRESSED && r[j].flag == FLAG_COMPRESSED)
      && |r| == (if filter.None? then 2
                 else (if filter.value(u) then 1 else 0) + (if filter.value(c) then 1 else 0))
  {
  }

  /** Thresholds of the interval controller, in nanoseconds. */
  const FAST_REPORTS: nat := 2500000000
  const SLOW_REPORTS: nat := 10000000000

  /** `x << 1` on a uint64_t: the top bit falls off. */
  function Shl1(x: u64): u64
  {
    if x < U64_MOD / 2 then 2 * x else 2 * x - U64_MOD
  }

  lemma Shl1Wraps(x: u64)
    ensures Shl1(x) == (2 * x) % U64_MOD
  {
    if x < U64_MOD / 2 {
      ModUnique(2 * x, U64_MOD, 0, 2 * x);
    } else {
      ModUnique(2 * x, U64_MOD, 1, 2 * x - U64_MOD);
    }
  }

  /** `(report_mask << 1) | 1` on a uint64_t. */
  function ShiftInOne(mask: u64): u64
  {
    OrOneOfEven(Shl1(mask));
    BitOr(Shl1(mask), 1)
  }

  lemma OrOneOfEven(x: nat)
    requires x % 2 == 0
    ensures BitOr(x, 1) == x + 1
  {
    if x != 0 {
      assert BitOr(x, 1) == 2 * BitOr(x / 2, 0) + 1;
    }
  }

  /** The update of `report_mask` after a report, `time_delta` nanoseconds after the last. */
  function NextMask(mask: u64, delta: u64): u64
  {
    if delta < FAST_REPORTS then ShiftInOne(mask)
    else if delta > SLOW_REPORTS then mask / 2
    else mask
  }

  /** The width of the mask after NextMask: one more bit when reports come too fast
      (saturating at 64), one fewer when they come too slowly. */
  function NextWidth(k: nat, delta: u64): nat
  {
    if delta < FAST_REPORTS then (if k < 64 then k + 1 else 64)
    else if delta > SLOW_REPORTS then (if k > 0 then k - 1 else 0)
    else k
  }

  lemma Pow2Is64()
    ensures Pow2(64) == U64_MOD
  {
    assert Pow2(4) == 16;
    Pow2Add(4, 4);
    assert Pow2(8) == 0x100;
    Pow2Add(8, 8);
    assert Pow2(16) == 0x1_0000;
    Pow2Add(16, 16);
    assert Pow2(32) == 0x1_0000_0000;
    Pow2Add(32, 32);
  }

  lemma {:induction false} Pow2Monotone(a: nat, b: nat)
    requires a <= b
    ensures Pow2(a) <= Pow2(b)
    decreases b
  {
    if a < b {
      Pow2Monotone(a, b - 1);
    }
  }

  lemma LowOnesFit(k: nat)
    requires k <= 64
    ensures Pow2(k) <= U64_MOD
  {
    Pow2Is64();
    Pow2Monotone(k, 64);
  }

  /** Shifting a one into a mask of k ones gives k + 1 ones, or 64 once the word is full. */
  lemma ShiftWidens(k: nat)
    requires k <= 64
    ensures Pow2(k) <= U64_MOD && ShiftInOne(Pow2(k) - 1) == Pow2(if k < 64 then k + 1 else 64) - 1
  {
    LowOnesFit(k);
    var m := Pow2(k) - 1;
    OrOneOfEven(Shl1(m));
    if k < 64 {
      LowOnesFit(k + 1);
      assert Shl1(m) == Pow2(k + 1) - 2;
    } else {
      Pow2Is64();
      assert Shl1(m) == U64_MOD - 2;
    }
  }

  /** Shifting a mask of k ones right gives k - 1 ones, or none. */
  lemma ShiftNarrows(k: nat)
    ensures (Pow2(k) - 1) / 2 == Pow2(if k > 0 then k - 1 else 0) - 1
  {
    if k > 0 {
      assert Pow2(k) - 1 == 2 * (Pow2(k - 1) - 1) + 1;
    }
  }

  /** A mask of k low one bits stays a mask of low one bits, of width NextWidth(k, delta). */
  lemma NextMaskKeepsLowOnes(k: nat, delta: u64)
    requires k <= 64
    ensures Pow2(k) <= U64_MOD && NextMask(Pow2(k) - 1, delta) == Pow2(NextWidth(k, delta)) - 1
  {
    LowOnesFit(k);
    if delta < FAST_REPORTS {
      ShiftWidens(k);
    } else if delta > SLOW_REPORTS {
      ShiftNarrows(k);
    }
  }

  /** A uint64_t of the form 2^k - 1, as `report_mask` always is. */
  ghost predicate IsLowOnes(m: nat)
  {
    exists k: nat :: k <= 64 && m == Pow2(k) - 1
  }

  lemma BitAndOdd(x: nat, m: nat)
    requires m % 2 == 1
    ensures BitAnd(x, m) == 2 * BitAnd(x / 2, m / 2) + x % 2
  {
  }

  /** `(ilines_curr & report_mask) == 0` with a mask of k ones: a report every 2^k lines. */
  lemma {:induction false} AndLowOnesIsMod(x: nat, k: nat)
    ensures BitAnd(x, Pow2(k) - 1) == x % Pow2(k)
  {
    if k > 0 {
      var p, q := Pow2(k - 1), Pow2(k);
      var m := q - 1;
      assert q == 2 * p;
      assert m % 2 == 1 && m / 2 == p - 1;
      BitAndOdd(x, m);
      AndLowOnesIsMod(x / 2, k - 1);
      ModOfHalves(x, p);
      assert x % q == 2 * ((x / 2) % p) + x % 2;
    }
  }

  /** One progress line's integer fields: found count, lines read, elapsed nanoseconds.
      The rate shown beside them is floating point and left out. */
  datatype Progress = Progress(found: u64, lines: u64, elapsedNs: u64)

  /** What the read loop keeps between iterations: the globals the derivation writes,
      the counters `ilines_curr` and `olines`, `report_mask`, `time_last`, how many
      clock readings were taken, the records written and the progress lines. */
  datatype Loop = Loop(digests: DigestState, ilines: u64, olines: u64, mask: u64,
                       timeLast: u64, readings: nat, out: seq<Hit>, progress: seq<Progress>)

  /** The fixed inputs of the loop: the `input2hash160` function pointer option resolution
      installed, the type name, the filter's membership test (None without -b), -v, and
      the clock as the sequence of values `getns()` returns. */
  datatype Setup = Setup(derive: (seq<byte>, DigestState) -> Derived, typeName: seq<byte>,
                         filter: Option<Bytes20 -> bool>, verbose: bool, clock: nat -> u64)

  /** The `input2hash160` a transform with its salt or passphrase installs. */
  function Installed(p: Primitives, t: Transform, kdfSalt: seq<byte>, kdfPass: seq<byte>)
    : (seq<byte>, DigestState) -> Derived
  {
    (input, st) => Apply(p, t, kdfSalt, kdfPass, input, st)
  }

  /** `kdfsalt` as `main` leaves it: the -s salt, the empty salt, or NULL (length 0)
      when -p was given. */
  function KdfSaltOf(aux: Options.Aux): seq<byte>
  {
    if aux.KdfSalt? then aux.salt else []
  }

  /** `kdfpass` as `main` leaves it: the -p passphrase, or NULL (length 0). */
  function KdfPassOf(aux: Options.Aux): seq<byte>
  {
    if aux.KdfPass? then aux.pass else []
  }

  /** What `main` installs for the read loop from an accepted configuration: the
      transform's `input2hash160` with `kdfsalt` and `kdfpass`, `topt` as the type name,
      the opened filter, -v and the clock. */
  function SetupOf(cfg: Options.Config, p: Primitives, filter: Option<Bytes20 -> bool>,
                   clock: nat -> u64): Setup
  {
    Setup(Installed(p, cfg.transform, KdfSaltOf(cfg.aux), KdfPassOf(cfg.aux)), cfg.typeName,
          filter, cfg.verbose, clock)
  }

  /** The set-up before the loop (brainflayer.c:366-421): the globals with the chosen
      transform, salt and passphrase, and the loop's fixed inputs, which meet ReadLoop's
      requirement. The filter is present exactly when -b (or the lone argument) named one. */
  method StartRun(cfg: Options.Config, p: Primitives, filter: Option<Bytes20 -> bool>, clock: nat -> u64)
    returns (d: Deriver, s: Setup)
    requires filter.Some? <==> cfg.bloom.Some?
    ensures fresh(d) && fresh(d.mem) && fresh(d.unhexed) && d.Valid()
    ensures d.prims == p && d.transform == cfg.transform
    ensures d.kdfSalt == KdfSaltOf(cfg.aux) && d.kdfPass == KdfPassOf(cfg.aux)
    ensures s.derive == Installed(d.prims, d.transform, d.kdfSalt, d.kdfPass)
    ensures s.typeName == cfg.typeName && s.filter == filter && s.verbose == cfg.verbose && s.clock == clock
  {
    d := new Deriver(p, cfg.transform, KdfSaltOf(cfg.aux), KdfPassOf(cfg.aux));
    s := SetupOf(cfg, p, filter, clock);
  }

  /** `time_start`: the first clock reading in verbose mode, 0 otherwise. */
  function TimeStart(s: Setup): u64
  {
    if s.verbose then s.clock(0) else 0
  }

  function Start(s: Setup, digests: DigestState): Loop
  {
    Loop(digests, 0, 0, 0, TimeStart(s), if s.verbose then 1 else 0, [], [])
  }

  /** The verbose bookkeeping after one `getline`: count the line and, when it is due
      (or at end of input), read the clock, adapt the mask and print progress. */
  function Tick(s: Setup, r: Loop, eof: bool): Loop
  {
    if !s.verbose then r
    else
      var ilines := Inc(r.ilines);
      if eof || BitAnd(ilines, r.mask) == 0 then
        var now := s.clock(r.readings);
        var delta := Sub64(now, r.timeLast);
        var elapsed := Sub64(now, TimeStart(s));
        r.(ilines := ilines, mask := NextMask(r.mask, delta), timeLast := now, readings := r.readings + 1,
           progress := r.progress + [Progress(r.olines, ilines, elapsed)])
      else r.(ilines := ilines)
  }

  /** Deriving and writing the records of one line that was read. */
  function Emitted(s: Setup, r: Loop, raw: RawLine): Loop
  {
    var cand := Candidate(raw);
    var d := s.derive(cand, r.digests);
    var recs := Emit(s.filter, d.state.uncmp, d.state.compr, cand);
    var olines := if s.filter.Some? then IncBy(r.olines, |recs|) else r.olines;
    r.(digests := d.state, olines := olines, out := r.out + recs)
  }

  /** One iteration for a line that was read. */
  function LineStep(s: Setup, r: Loop, raw: RawLine): Loop
  {
    Tick(s, Emitted(s, r, raw), false)
  }

  /** The loop over the lines read so far. */
  function RunLines(s: Setup, r: Loop, lines: seq<RawLine>): Loop
  {
    if lines == [] then r
    else LineStep(s, RunLines(s, r, lines[..|lines| - 1]), lines[|lines| - 1])
  }

  lemma RunLinesSnoc(s: Setup, r: Loop, lines: seq<RawLine>, i: nat)
    requires i < |lines|
    ensures RunLines(s, r, lines[..i + 1]) == LineStep(s, RunLines(s, r, lines[..i]), lines[i])
  {
    assert lines[..i + 1][..i] == lines[..i];
  }

  /** The whole loop: every line, then end of input (the last progress line in verbose mode). */
  function Flay(s: Setup, digests: DigestState, lines: seq<RawLine>): Loop
  {
    Tick(s, RunLines(s, Start(s, digests), lines), true)
  }

  /** The body of the loop after the derivation: test each digest against the filter
      and write the records, counting them in `olines` when there is a filter. */
  method WriteRecords(s: Setup, u: Bytes20, c: Bytes20, line: seq<byte>, out0: seq<Hit>, olines0: u64)
    returns (out: seq<Hit>, olines: u64)
    ensures out == out0 + Emit(s.filter, u, c, line)
    ensures olines == if s.filter.Some? then IncBy(olines0, |out| - |out0|) else olines0
  {
    out, olines := out0, olines0;
    var ru, rc := Hit(u, FLAG_UNCOMPRESSED, line), Hit(c, FLAG_COMPRESSED, line);
    match s.filter {
      case Some(has) =>
        ghost var n: nat := 0;
        if has(u) {
          out := out + [ru];
          olines := Inc(olines);
          n := 1;
        }
        assert olines == IncBy(olines0, n) && |out| == |out0| + n;
        if has(c) {
          out := out + [rc];
          olines := Inc(olines);
          n := n + 1;
        }
        assert olines == IncBy(olines0, n) && |out| == |out0| + n;
        assert out == out0 + ((if has(u) then [ru] else []) + (if has(c) then [rc] else []));
      case None =>
        out := out + [ru, rc];
    }
  }

  /** The body of the loop for a line that was read: strip it, derive its digests and
      write the records. The return value of `input2hash160` is ignored. */
  method ReadLine(d: Deriver, s: Setup, raw: RawLine, ghost before: Loop, out0: seq<Hit>, olines0: u64)
    returns (out: seq<Hit>, olines: u64)
    requires d.Valid()
    requires s.derive == Installed(d.prims, d.transform, d.kdfSalt, d.kdfPass)
    requires before.digests == d.State() && before.out == out0 && before.olines == olines0
    modifies d`hash160Uncmp, d`hash160Compr, d.mem, d.unhexed
    ensures Emitted(s, before, raw) == before.(digests := d.State(), olines := olines, out := out)
  {
    var line := Candidate(raw);
    var ignored := d.Input2Hash160(line);
    out, olines := WriteRecords(s, d.hash160Uncmp, d.hash160Compr, line, out0, olines0);
  }

  /** A line whose KDF fails leaves the digests alone, and since the return value is
      ignored, the previous line's digests are written again beside this candidate. */
  lemma FailedLineRepeatsDigests(s: Setup, p: Primitives, t: Transform, kdfSalt: seq<byte>,
                                 kdfPass: seq<byte>, r: Loop, raw: RawLine)
    requires s.derive == Installed(p, t, kdfSalt, kdfPass)
    requires Apply(p, t, kdfSalt, kdfPass, Candidate(raw), r.digests).ret != 0
    ensures Emitted(s, r, raw).out
         == r.out + Emit(s.filter, r.digests.uncmp, r.digests.compr, Candidate(raw))
    ensures Emitted(s, r, raw).digests.uncmp == r.digests.uncmp
    ensures Emitted(s, r, raw).digests.compr == r.digests.compr
  {
  }

  /** With a report mask of k ones, a line is reported exactly when the count of lines
      read so far is a multiple of 2^k, or at end of input, and the mask then changes
      width as NextWidth says. */
  lemma TickReportsEvery(s: Setup, r: Loop, eof: bool, k: nat)
    requires s.verbose && k <= 64 && r.mask == Pow2(k) - 1
    ensures var t := Tick(s, r, eof);
      var due := eof || Inc(r.ilines) % Pow2(k) == 0;
      && t.ilines == Inc(r.ilines)
      && (due ==> t.progress == r.progress + [Progress(r.olines, t.ilines, Sub64(t.timeLast, TimeStart(s)))]
                  && t.mask == Pow2(NextWidth(k, Sub64(t.timeLast, r.timeLast))) - 1)
      && (!due ==> t.progress == r.progress && t.mask == r.mask)
  {
    AndLowOnesIsMod(Inc(r.ilines), k);
    var t := Tick(s, r, eof);
    if eof || Inc(r.ilines) % Pow2(k) == 0 {
      NextMaskKeepsLowOnes(k, Sub64(t.timeLast, r.timeLast));
    }
  }

  /** The bookkeeping touches neither the digests, the records nor `olines`. */
  lemma TickKeepsCounts(s: Setup, r: Loop, eof: bool)
    ensures Tick(s, r, eof).out == r.out && Tick(s, r, eof).olines == r.olines
    ensures Tick(s, r, eof).digests == r.digests
  {
  }

  /** One line keeps the mask of the form 2^k - 1. */
  lemma LineStepKeepsLowOnes(s: Setup, r: Loop, raw: RawLine)
    requires IsLowOnes(r.mask)
    ensures IsLowOnes(LineStep(s, r, raw).mask)
  {
    TickKeepsLowOnes(s, Emitted(s, r, raw), false);
  }

  lemma TickKeepsLowOnes(s: Setup, r: Loop, eof: bool)
    requires IsLowOnes(r.mask)
    ensures IsLowOnes(Tick(s, r, eof).mask)
  {
    if s.verbose {
      var k: nat :| k <= 64 && r.mask == Pow2(k) - 1;
      TickReportsEvery(s, r, eof, k);
      var t := Tick(s, r, eof);
      if t.mask != r.mask {
        var k' := NextWidth(k, Sub64(t.timeLast, r.timeLast));
        assert t.mask == Pow2(k') - 1;
      }
    }
  }

  lemma {:induction false} RunKeepsLowOnes(s: Setup, r: Loop, lines: seq<RawLine>)
    requires IsLowOnes(r.mask)
    ensures IsLowOnes(RunLines(s, r, lines).mask)
  {
    if lines != [] {
      RunKeepsLowOnes(s, r, lines[..|lines| - 1]);
      LineStepKeepsLowOnes(s, RunLines(s, r, lines[..|lines| - 1]), lines[|lines| - 1]);
    }
  }

  /** `report_mask` starts at 0 and is always a run of low one bits, so reports fall on
      multiples of a power of two. */
  lemma MaskIsLowOnes(s: Setup, digests: DigestState, lines: seq<RawLine>)
    ensures IsLowOnes(Flay(s, digests, lines).mask)
  {
    assert Start(s, digests).mask == Pow2(0) - 1;
    RunKeepsLowOnes(s, Start(s, digests), lines);
    TickKeepsLowOnes(s, RunLines(s, Start(s, digests), lines), true);
  }

  /** `out` holds, for each line in turn, its uncompressed and then its compressed digest,
      both beside that line's candidate. */
  ghost predicate WritesPairs(lines: seq<RawLine>, out: seq<Hit>)
  {
    |out| == 2 * |lines|
    && forall i :: 0 <= i < |lines| ==>
         out[2 * i].flag == FLAG_UNCOMPRESSED && out[2 * i].input == Candidate(lines[i])
         && out[2 * i + 1].flag == FLAG_COMPRESSED && out[2 * i + 1].input == Candidate(lines[i])
  }

  /** Appending one line's pair keeps the earlier output and extends the pairs. */
  lemma WritesPairsSnoc(base: seq<Hit>, prev: seq<Hit>, next: seq<Hit>, lines: seq<RawLine>,
                        u: Bytes20, c: Bytes20)
    requires lines != []
    requires |prev| >= |base| && prev[..|base|] == base
    requires WritesPairs(lines[..|lines| - 1], prev[|base|..])
    requires next == prev + [Hit(u, FLAG_UNCOMPRESSED, Candidate(lines[|lines| - 1])),
                             Hit(c, FLAG_COMPRESSED, Candidate(lines[|lines| - 1]))]
    ensures |next| >= |base| && next[..|base|] == base && WritesPairs(lines, next[|base|..])
  {
    var init, added := lines[..|lines| - 1], next[|base|..];
    assert added == prev[|base|..] + next[|prev|..];
    forall i | 0 <= i < |lines|
      ensures added[2 * i].flag == FLAG_UNCOMPRESSED && added[2 * i].input == Candidate(lines[i])
      ensures added[2 * i + 1].flag == FLAG_COMPRESSED && added[2 * i + 1].input == Candidate(lines[i])
    {
      if i < |init| {
        assert added[2 * i] == prev[|base|..][2 * i] && added[2 * i + 1] == prev[|base|..][2 * i + 1];
        assert lines[i] == init[i];
      }
    }
  }

  /** Without a filter every line writes its uncompressed and then its compressed digest,
      after what was written before, and `olines` is not touched. */
  lemma {:induction false} UnfilteredWritesBoth(s: Setup, r: Loop, lines: seq<RawLine>)
    requires s.filter.None?
    ensures var t := RunLines(s, r, lines);
      && |t.out| >= |r.out| && t.out[..|r.out|] == r.out && WritesPairs(lines, t.out[|r.out|..])
      && t.olines == r.olines
  {
    if lines != [] {
      var init, last := lines[..|lines| - 1], lines[|lines| - 1];
      var prev := RunLines(s, r, init);
      UnfilteredWritesBoth(s, r, init);
      LineStepUnfiltered(s, prev, last);
      var t := LineStep(s, prev, last);
      WritesPairsSnoc(r.out, prev.out, t.out, lines, t.digests.uncmp, t.digests.compr);
    }
  }

  /** Without a filter one line appends its two digests, uncompressed first. */
  lemma LineStepUnfiltered(s: Setup, r: Loop, raw: RawLine)
    requires s.filter.None?
    ensures var t := LineStep(s, r, raw);
      && t.olines == r.olines
      && t.out == r.out + [Hit(t.digests.uncmp, FLAG_UNCOMPRESSED, Candidate(raw)),
                           Hit(t.digests.compr, FLAG_COMPRESSED, Candidate(raw))]
  {
    TickKeepsCounts(s, Emitted(s, r, raw), false);
  }

  lemma {:induction false} IncByAdd(x: u64, a: nat, b: nat)
    ensures IncBy(IncBy(x, a), b) == IncBy(x, a + b)
  {
    if b > 0 {
      IncByAdd(x, a, b - 1);
    }
  }

  /** `olines` went up by the number of records written between r and t, modulo 2^64. */
  ghost predicate Counted(r: Loop, t: Loop)
  {
    |t.out| >= |r.out| && t.olines == IncBy(r.olines, |t.out| - |r.out|)
  }

  lemma CountedChain(a: Loop, b: Loop, c: Loop)
    requires Counted(a, b) && Counted(b, c)
    ensures Counted(a, c)
  {
    IncByAdd(a.olines, |b.out| - |a.out|, |c.out| - |b.out|);
  }

  /** With a filter, one line adds to `olines` the number of records it writes. */
  lemma LineStepCounts(s: Setup, r: Loop, raw: RawLine)
    requires s.filter.Some?
    ensures Counted(r, LineStep(s, r, raw))
  {
    TickKeepsCounts(s, Emitted(s, r, raw), false);
  }

  /** With a filter, `olines` counts every record written, modulo 2^64. */
  lemma {:induction false} FilteredCountsRecords(s: Setup, r: Loop, lines: seq<RawLine>)
    requires s.filter.Some?
    ensures Counted(r, RunLines(s, r, lines))
  {
    if lines != [] {
      var init, last := lines[..|lines| - 1], lines[|lines| - 1];
      var prev := RunLines(s, r, init);
      FilteredCountsRecords(s, r, init);
      LineStepCounts(s, prev, last);
      CountedChain(r, prev, LineStep(s, prev, last));
    }
  }

  /** The found count of the final state is the number of records written, modulo 2^64. */
  lemma FoundIsRecordCount(s: Setup, digests: DigestState, lines: seq<RawLine>)
    requires s.filter.Some?
    ensures Flay(s, digests, lines).olines == |Flay(s, digests, lines).out| % U64_MOD
  {
    FilteredCountsRecords(s, Start(s, digests), lines);
    TickKeepsCounts(s, RunLines(s, Start(s, digests), lines), true);
    CountWraps(|Flay(s, digests, lines).out|, Flay(s, digests, lines).olines);
  }

  lemma {:induction false} QuietRun(s: Setup, r: Loop, lines: seq<RawLine>)
    requires !s.verbose
    ensures RunLines(s, r, lines).progress == r.progress && RunLines(s, r, lines).ilines == r.ilines
  {
    if lines != [] {
      QuietRun(s, r, lines[..|lines| - 1]);
    }
  }

  /** Without -v nothing is ever reported and the line counter stays 0; no clock is read. */
  lemma QuietPrintsNoProgress(s: Setup, digests: DigestState, lines: seq<RawLine>)
    requires !s.verbose
    ensures Flay(s, digests, lines).progress == [] && Flay(s, digests, lines).ilines == 0
    ensures Flay(s, digests, lines).readings == 0
  {
    QuietRun(s, Start(s, digests), lines);
    QuietReadings(s, Start(s, digests), lines);
  }

  lemma {:induction false} QuietReadings(s: Setup, r: Loop, lines: seq<RawLine>)
    requires !s.verbose
    ensures RunLines(s, r, lines).readings == r.readings
  {
    if lines != [] {
      QuietReadings(s, r, lines[..|lines| - 1]);
    }
  }

  lemma {:induction false} VerboseCounts(s: Setup, r: Loop, lines: seq<RawLine>)
    requires s.verbose
    ensures RunLines(s, r, lines).ilines == IncBy(r.ilines, |lines|)
  {
    if lines != [] {
      VerboseCounts(s, r, lines[..|lines| - 1]);
    }
  }

  /** In verbose mode the final `getline` that returns end of input also counts as a line,
      and it is always reported: the last progress line shows |lines| + 1 lines. */
  lemma VerboseCountsEndOfInput(s: Setup, digests: DigestState, lines: seq<RawLine>)
    requires s.verbose
    ensures var t := Flay(s, digests, lines);
      && t.ilines == (|lines| + 1) % U64_MOD
      && |t.progress| >= 1 && t.progress[|t.progress| - 1].lines == t.ilines
      && t.progress[|t.progress| - 1].found == t.olines
  {
    VerboseCounts(s, Start(s, digests), lines);
    assert IncBy(0, |lines| + 1) == Inc(IncBy(0, |lines|));
    CountWraps(|lines| + 1, Flay(s, digests, lines).ilines);
  }

  /** The verbose bookkeeping of one iteration: count the line and, when it is due or
      at end of input, read the clock, adapt `report_mask` and print a progress line. */
  method Report(s: Setup, eof: bool, olines: u64, ilines0: u64, mask0: u64, timeLast0: u64,
                readings0: nat, progress0: seq<Progress>, timeStart: u64,
                ghost digests: DigestState, ghost out: seq<Hit>)
    returns (ilines: u64, mask: u64, timeLast: u64, readings: nat, progress: seq<Progress>)
    requires s.verbose && timeStart == TimeStart(s)
    ensures Loop(digests, ilines, olines, mask, timeLast, readings, out, progress)
         == Tick(s, Loop(digests, ilines0, olines, mask0, timeLast0, readings0, out, progress0), eof)
  {
    ilines, mask, timeLast, readings, progress := Inc(ilines0), mask0, timeLast0, readings0, progress0;
    if eof || BitAnd(ilines, mask) == 0 {
      var now := s.clock(readings);
      readings := readings + 1;
      var delta := Sub64(now, timeLast);
      var elapsed := Sub64(now, timeStart);
      timeLast := now;
      mask := NextMask(mask, delta);
      progress := progress + [Progress(olines, ilines, elapsed)];
    }
  }

  /** The `for(;;)` loop of `main`. */
  method ReadLoop(d: Deriver, s: Setup, lines: seq<RawLine>)
    returns (out: seq<Hit>, progress: seq<Progress>, olines: u64, ilines: u64)
    requires d.Valid()
    requires s.derive == Installed(d.prims, d.transform, d.kdfSalt, d.kdfPass)
    modifies d`hash160Uncmp, d`hash160Compr, d.mem, d.unhexed
    ensures var r := Flay(s, old(d.State()), lines);
      out == r.out && progress == r.progress && olines == r.olines && ilines == r.ilines
      && d.State() == r.digests
  {
    var timeStart: u64, timeLast: u64, readings: nat := 0, 0, 0;
    if s.verbose {
      timeStart := s.clock(0);
      timeLast := timeStart;
      readings := 1;
    }
    var reportMask: u64 := 0;
    olines, ilines := 0, 0;
    out, progress := [], [];
    ghost var r0 := Start(s, d.State());
    var i := 0;
    while true
      invariant 0 <= i <= |lines|
      invariant d.Valid()
      invariant timeStart == TimeStart(s)
      invariant Loop(d.State(), ilines, olines, reportMask, timeLast, readings, out, progress)
             == RunLines(s, r0, lines[..i])
      decreases |lines| - i
    {
      ghost var before := Loop(d.State(), ilines, olines, reportMask, timeLast, readings, out, progress);
      ghost var emitted := before;
      var eof := i == |lines|;
      if !eof {
        out, olines := ReadLine(d, s, lines[i], before, out, olines);
        emitted := Emitted(s, before, lines[i]);
      } else if !s.verbose {
        break;
      }
      assert Loop(d.State(), ilines, olines, reportMask, timeLast, readings, out, progress) == emitted;
      if s.verbose {
        ilines, reportMask, timeLast, readings, progress :=
          Report(s, eof, olines, ilines, reportMask, timeLast, readings, progress, timeStart, d.State(), out);
        if eof {
          break;
        }
      }
      assert Loop(d.State(), ilines, olines, reportMask, timeLast, readings, out, progress)
          == Tick(s, emitted, false) == LineStep(s, before, lines[i]);
      RunLinesSnoc(s, r0, lines, i);
      assert Loop(d.State(), ilines, olines, reportMask, timeLast, readings, out, progress)
          == RunLines(s, r0, lines[..i + 1]);
      i := i + 1;
    }
    assert lines[..|lines|] == lines;
  }

  /** None of the six accepted type names contains a colon. */
  lemma AcceptedNamesHaveNoColon(name: seq<byte>)
    requires name in {Options.TYPE_STR, Options.TYPE_HEX, Options.TYPE_PRIV,
                      Options.TYPE_WARP, Options.TYPE_BWIO, Options.TYPE_BV2}
    ensures forall i :: 0 <= i < |name| ==> name[i] != COLON
  {
  }

  /** In any run that option resolution accepts, every record written reads back as the
      digest, flag, type name and input of the hit that made it. */
  lemma ConfiguredRecordsReadBack(cmd: Options.CommandLine, sysram: u64, p: Primitives,
                                  filter: Option<Bytes20 -> bool>, clock: nat -> u64,
                                  digests: DigestState, lines: seq<RawLine>, i: nat)
    requires Options.Resolve(cmd, sysram).Ok?
    requires filter.Some? <==> Options.Resolve(cmd, sysram).value.bloom.Some?
    requires i < |Flay(SetupOf(Options.Resolve(cmd, sysram).value, p, filter, clock), digests, lines).out|
    ensures var cfg := Options.Resolve(cmd, sysram).value;
      var hits := Flay(SetupOf(cfg, p, filter, clock), digests, lines).out;
      ParseRecord(Render(cfg.typeName, hits)[i]) == Some((hits[i].hash, hits[i].flag, cfg.typeName, hits[i].input))
  {
    var st := Options.FoldOptions(Options.Defaults, cmd.opts).value;
    var cfg := Options.Resolve(cmd, sysram).value;
    Options.PrintedTypeName(st, cmd.optind, cmd.positional, sysram);
    AcceptedNamesHaveNoColon(cfg.typeName);
    var hits := Flay(SetupOf(cfg, p, filter, clock), digests, lines).out;
    RenderReadsBack(cfg.typeName, hits, i);
  }
}
