# brainflayer: a Dafny model of the driver

brainflayer reads candidate strings (passphrases, salts, hex keys), one per line. For each
candidate it derives a secp256k1 private key through the chosen transform. It then computes
the hash160 of the uncompressed and the compressed public key. It writes
`hash160:flag:type:input` records for the digests that a bloom filter admits, or for both
digests when there is no filter. This project models the four parts of `brainflayer.c`
that decide what the program does:

- **Option resolution** (`Options`). The getopt loop over the option locals is a method
  (`ParseOptions`) proved equal to a fold over the options (`FoldOptions`). The rest of the
  checks, in the order `main` makes them, form `Validate`: positional arguments, window
  size, the RAM check, the type table, and the salt and passphrase rules.
- **Key to Hash160 derivation** (`Derive`). The file's globals (`mem`, `unhexed`,
  `hash160_uncmp`, `hash160_compr`) are the fields of a class `Deriver`. Each of the
  `*2hash160` functions is a method on it. Each method is proved against the pure
  reference `Apply`, which `KeyOf` and `KeyDigests` define. The public-key compression
  done in place on `pub_chr` is proved to give the SEC 1 compressed encoding.
- **The output record** (`Output`). `fprintresult` prints the five `ntohl` words of the
  digest with `%08x`. That form is proved to give the 40 lower-case hex digits of the 20
  bytes in order. For a type name without a colon, a record reads back (`ParseRecord`)
  as the digest, flag, type name and input it was made of. Every type name option
  resolution accepts is such a name, so in an accepted run every record reads back
  (`ConfiguredRecordsReadBack`).
- **The read loop** (`Pipeline`). The `for(;;)` loop of `main` is a method (`ReadLoop`)
  proved against the function `Flay`, a fold of one step per line, then end of input.
  The step covers:
  - the final-byte strip;
  - the records written with and without a filter;
  - the `olines` counter;
  - the `report_mask` controller driven by `time_delta`;
  - the reporting condition `(ilines_curr & report_mask) == 0` or end of input.

  The lemmas about `Flay` state:
  - `report_mask` is always of the form 2^k - 1, so reports come every 2^k lines;
  - `olines` counts the records written, modulo 2^64;
  - without a filter every line writes its `u` record, then its `c` record;
  - without `-v` nothing is reported and the clock is never read;
  - with `-v` the end of input is counted as one more line and always reported.

Foreign code is passed in as parameters: the `Primitives` datatype holds SHA-256,
RIPEMD-160, the point multiplication, `unhex`, warpwallet, brainwallet.io and brainv2 as
functions. The bloom filter is its membership test. The clock is the sequence of values
`getns()` returns. The `input2hash160` function pointer is a field of `Setup`, and
`Installed` gives its value for a transform with its salt or passphrase. `SetupOf` and
`StartRun` take an accepted configuration to the loop's inputs and the globals. Output records
are kept as `Hit`s (digest, flag, input). `Render` gives the bytes they put on the
stream.

Unsigned 64-bit arithmetic is written out. `Inc`, `IncBy`, `Sub64` and `Shl1` wrap
modulo 2^64, and each is proved equal to its `%` form. C's `&` and `|` are the
functions `BitAnd` and `BitOr` on naturals.

Behaviours of the code worth knowing, which the model reproduces:

- The RAM check is `3584 * 2^w` bytes against `mem_unit * totalram`
  (brainflayer.c:337), where the usage text speaks of about `3 * 2^w` KiB
  (brainflayer.c:239-240).
- Malformed hex is not an error. `unhex`'s result is hashed as it stands
  (brainflayer.c:146-150). The one exception is the hex passphrase transform for texts
  of more than 8193 characters. There the code reads past the 4096-byte buffer; the
  model does not reproduce that over-read but returns the non-zero code `HEX_OVERFLOW`
  (see "## Findings"). `Flay` and `ReadLoop` use this corrected transform for `-t hex`.
- `-w` is read with glibc's `atoi`, `(int) strtol(...)`: a value beyond the range of
  `long` saturates and the result keeps its low 32 bits, so `-w 4294967312` runs with
  window 16 (`AtoiDropsBit32`).
- A non-zero return of `input2hash160` is ignored (brainflayer.c:426). The records of
  the previous candidate's digests are written beside the failed candidate
  (`FailedLineRepeatsDigests`), so nothing is skipped or flagged.
- The strip removes the last byte before the first NUL, whatever it is
  (brainflayer.c:425). A final line without a newline loses its last character.
- `-h` exits with status 1, because `usage` calls `exit(1)` before `main`'s `return 0`
  (brainflayer.c:246, 304-305).

## Model

| member | source | states |
|---|---|---|
| Options.ParseOptions | brainflayer.c:264-314 | the getopt loop's locals, or its early exit on -h or '?', are those of the fold of ApplyOpt over the options from the defaults |
| Options.Validate | brainflayer.c:316-388 | an accepted configuration has a window in 1..28 whose 3584 * 2^w bytes fit the RAM; it carries no salt or passphrase exactly when the transform is unsalted, and a passphrase exactly when inputs are salts |
| Options.Configure | brainflayer.c:264-388 | the start of `main` yields exactly the configuration or exit that Resolve gives for the command line and the RAM |
| Options.AtoiDecimal | brainflayer.c:275 | `atoi` reads back every window size written in decimal that an `int` holds |
| Options.AtoiDecimalWraps | brainflayer.c:275 | a decimal window size within the range of `long` is read as its low 32 bits in two's complement |
| Options.AtoiDropsBit32 | brainflayer.c:275 | a window size from 2^32 to 2^32 + 2^31 - 1 is read with 2^32 taken off |
| Options.SmallWindowSticks | brainflayer.c:274-275 | once the window is at most 1, no later -w changes it |
| Options.TableForcesWindowOne | brainflayer.c:274-280 | any -m leaves the window at 1 whatever -w options come before or after it |
| Options.WindowAfterTableIgnored | brainflayer.c:274-280 | a -w after a -m, with any options between, is ignored |
| Options.DefaultWindowKept | brainflayer.c:264-280 | without -w and -m the window keeps its initial value |
| Options.StopDiscardsRest | brainflayer.c:302-308 | -h and '?' end option processing with their exit, whatever follows |
| Options.WindowChecks | brainflayer.c:330-340 | the invalid-window exit happens exactly when w lies outside 1..28, the not-enough-RAM exit exactly when w is in range and 3584 * 2^w exceeds the RAM |
| Options.TypeTable | brainflayer.c:342-360 | exactly the six type names are accepted; str, hex and priv select the passphrase, hex passphrase and hex key transforms; warp, bwio and bv2 select warpwallet, brainwallet.io and brainv2, taking inputs as salts (the `*Salt` transforms) exactly when -p was given and as passphrases otherwise |
| Options.PrintedTypeName | brainflayer.c:342-364 | in an accepted configuration, no -t means type "str" with the passphrase transform, a given -t is the printed type name, and the name is one of the six with the transform the table gives |
| Options.SaltPassRules | brainflayer.c:366-388 | for salted types: both -s and -p is an error, otherwise -p, -s or the empty salt is used; for the others -p or -s is an error |
| Options.LegacyBloomArgument | brainflayer.c:316-328 | a lone argument after no options is the bloom filter path; any other positional arguments are rejected |
| Options.DefaultConfiguration | brainflayer.c:264-388 | with no options and no arguments the run uses window 16 and plain passphrases of type "str", given 3584 * 2^16 bytes of RAM |
| Derive.LowBitFlag | brainflayer.c:116 | `0x02` or-ed with the low bit of b is 0x02 for an even byte and 0x03 for an odd one |
| Derive.CompressPointIsSec1 | brainflayer.c:115-121 | rewriting byte 0 of an uncompressed point and keeping 33 bytes gives the SEC 1 compressed encoding of the same point |
| Derive.KeyDigests | brainflayer.c:86-132 | the two digests are hash160 of the point and of its compressed form; `mem` holds the compressed prefix and the point's Y, the rest untouched |
| Derive.DigestsOfSec1Encodings | brainflayer.c:86-132 | the two digests are hash160 of the SEC 1 uncompressed and compressed encodings of the computed point |
| Derive.KeyOf | brainflayer.c:134-201 | which transforms always yield a key, the corrected hex passphrase's bound on the decoded length, and which transforms write `unhexed` |
| Derive.Apply | brainflayer.c:134-201 | the call succeeds exactly when a key came out; a failure changes only `unhexed` |
| Derive.FailedKdfKeepsDigests | brainflayer.c:156-193 | a failing warpwallet or brainwallet.io KDF makes the wrapper return exactly the KDF's own code, and the state is left as it was |
| Derive.Brainv2IsPassphraseOfHex | brainflayer.c:170-201 | brainv2 with a passphrase or a salt is the plain passphrase transform applied to its 32 hex characters; a failing brainv2 returns its own code and leaves the state as it was |
| Derive.PassphraseKey | brainflayer.c:134-143 | the passphrase transform never fails and hashes the point of SHA-256 of the passphrase |
| Derive.HexPassReadLength | brainflayer.c:145-147 | as written, the passphrase length handed to SHA-256 is half the text length, rounded down |
| Derive.HexPassOverRead | brainflayer.c:145-147 | as written, a text of 8194 hex characters reads past the 4096-byte buffer |
| Derive.Deriver.constructor | brainflayer.c:38-84 | the buffers are 4096 bytes, `unhexed` and both digests start zeroed, and the installed transform, salt and passphrase are recorded |
| Derive.Deriver.Priv2Hash160 | brainflayer.c:86-132 | returns 0 and leaves the state KeyDigests gives |
| Derive.Deriver.Pass2Hash160 | brainflayer.c:134-143 | return value and state are Apply's for the passphrase transform |
| Derive.Deriver.Unhex | brainflayer.c:146-150 | `unhexed` becomes what `unhex` writes |
| Derive.Deriver.HexPass2Hash160 | brainflayer.c:145-147 | return value and state are Apply's for the corrected hex passphrase transform |
| Derive.Deriver.HexPriv2Hash160 | brainflayer.c:149-151 | return value and state are Apply's for the hex private key transform |
| Derive.Deriver.WarpPass2Hash160 | brainflayer.c:156-161 | return value and state are Apply's for warpwallet over passphrases |
| Derive.Deriver.BwioPass2Hash160 | brainflayer.c:163-168 | return value and state are Apply's for brainwallet.io over passphrases |
| Derive.Deriver.Brainv2Pass2Hash160 | brainflayer.c:170-176 | return value and state are Apply's for brainv2 over passphrases |
| Derive.Deriver.WarpSalt2Hash160 | brainflayer.c:181-186 | return value and state are Apply's for warpwallet over salts |
| Derive.Deriver.BwioSalt2Hash160 | brainflayer.c:188-193 | return value and state are Apply's for brainwallet.io over salts |
| Derive.Deriver.Brainv2Salt2Hash160 | brainflayer.c:195-201 | return value and state are Apply's for brainv2 over salts |
| Derive.Deriver.Input2Hash160 | brainflayer.c:203-204 | the call through the function pointer has the return value and state Apply gives for the installed transform |
| Output.Hash160Hex | brainflayer.c:210-215 | the five `%08x` words of `ntohl` values are the two-digit hex renderings of the 20 bytes, in order |
| Output.HexBytesLowerHex | brainflayer.c:210 | the digest is printed with lower-case hex digits only |
| Output.Record | brainflayer.c:206-219 | a record is the 40 hex digits, ':', the flag, ':', the type name, ':', the input and '\n', with the flag at offset 41 |
| Output.RecordRoundTrip | brainflayer.c:206-219 | for a type name without a colon, reading a record back gives its digest, flag, type name and input |
| Basics.IncByWraps | brainflayer.c:429-447 | n increments of a uint64_t counter add n modulo 2^64 |
| Basics.Sub64Wraps | brainflayer.c:450-451 | `time_curr - time_last` on uint64_t is the difference modulo 2^64 |
| Pipeline.StripIndex | brainflayer.c:425 | as written, the NUL is stored at index -1 exactly when the line starts with NUL |
| Pipeline.LeadingNulWritesBeforeLine | brainflayer.c:425 | the line "\0\n" makes the strip write before the buffer |
| Pipeline.Candidate | brainflayer.c:424-426 | the candidate is a NUL-free prefix shorter than the line; for a NUL-free line, the line minus its last byte; otherwise what the strip leaves |
| Pipeline.NewlineStripped | brainflayer.c:425 | a text line ending in a newline yields exactly the text |
| Pipeline.EmitAdmits | brainflayer.c:429-441 | a digest's record is written exactly when the filter admits it (always without a filter), `u` before `c`, each with its own digest and the candidate, and nothing else |
| Pipeline.RenderReadsBack | brainflayer.c:431-440 | each rendered record reads back as its hit and the run's type name |
| Pipeline.FailedLineRepeatsDigests | brainflayer.c:426-441 | a failing transform leaves the digests alone, and the previous digests are written beside the new candidate |
| Pipeline.Shl1Wraps | brainflayer.c:464 | `x << 1` on a uint64_t is 2x modulo 2^64 |
| Pipeline.ShiftWidens | brainflayer.c:464 | shifting m left and or-ing in 1 turns k low ones into k + 1 of them, or keeps 64 |
| Pipeline.ShiftNarrows | brainflayer.c:467 | `m >>= 1` turns k low ones into k - 1 of them, or none |
| Pipeline.NextMaskKeepsLowOnes | brainflayer.c:463-469 | after a report the mask has one more one bit when reports were under 2.5 s apart, one fewer when over 10 s, the same otherwise |
| Pipeline.AndLowOnesIsMod | brainflayer.c:448 | `x & (2^k - 1)` is x modulo 2^k |
| Pipeline.TickReportsEvery | brainflayer.c:446-469 | with a mask of k ones, a report happens exactly at end of input or when the line count is a multiple of 2^k; it appends the found count, the line count and the elapsed time, and resizes the mask as NextWidth says |
| Pipeline.TickKeepsCounts | brainflayer.c:446-487 | the verbose bookkeeping touches neither digests, records nor `olines` |
| Pipeline.TickKeepsLowOnes | brainflayer.c:446-469 | one iteration's bookkeeping keeps the mask of the form 2^k - 1 |
| Pipeline.LineStepKeepsLowOnes | brainflayer.c:423-487 | one line keeps the mask of the form 2^k - 1 |
| Pipeline.RunKeepsLowOnes | brainflayer.c:423-488 | any number of lines keep the mask of the form 2^k - 1 |
| Pipeline.MaskIsLowOnes | brainflayer.c:423-488 | starting from 0, `report_mask` is always 2^k - 1 for some k <= 64 |
| Pipeline.UnfilteredWritesBoth | brainflayer.c:438-441 | without a filter the run keeps what was written and appends, for each line in order, its `u` record and then its `c` record, with `olines` untouched |
| Pipeline.LineStepUnfiltered | brainflayer.c:438-441 | without a filter one line appends its two records, `u` first, carrying the new digests |
| Pipeline.LineStepCounts | brainflayer.c:429-437 | with a filter, one line adds to `olines` the number of records it writes |
| Pipeline.FilteredCountsRecords | brainflayer.c:429-437 | with a filter, `olines` grows by the number of records written, modulo 2^64, over any run of lines |
| Pipeline.FoundIsRecordCount | brainflayer.c:429-437 | with a filter, the final `olines` is the number of records written, modulo 2^64 |
| Pipeline.QuietPrintsNoProgress | brainflayer.c:443-446 | without -v no progress line is printed, the line counter is not advanced and the clock is never read |
| Pipeline.VerboseCounts | brainflayer.c:447 | with -v each line read advances the line counter by one, modulo 2^64 |
| Pipeline.VerboseCountsEndOfInput | brainflayer.c:442-485 | with -v the end of input counts as one more line, so the final count is the number of lines plus one, modulo 2^64, and it is always reported with the final found count |
| Pipeline.WriteRecords | brainflayer.c:429-441 | appends exactly the hits Emit gives and, with a filter, adds their number to `olines` |
| Pipeline.ReadLine | brainflayer.c:424-441 | strip, derive and write one line: the new state is Emitted's |
| Pipeline.Report | brainflayer.c:446-487 | the counters, mask, clock reading and progress lines after one iteration are Tick's |
| Pipeline.ReadLoop | brainflayer.c:413-488 | the records, progress lines, counters and final digests are those of Flay over the lines |
| Pipeline.StartRun | brainflayer.c:366-421 | the globals hold the configured transform with `kdfsalt` from -s (or empty) and `kdfpass` from -p (or empty), and the loop's function pointer, type name, filter, -v and clock meet ReadLoop's requirement |
| Pipeline.AcceptedNamesHaveNoColon | brainflayer.c:343-362 | none of the six accepted type names contains a colon |
| Pipeline.ConfiguredRecordsReadBack | brainflayer.c:264-488 | in a run that option resolution accepts, every record written reads back as its digest, flag, the configured type name and its input |

## Left out

- Elliptic-curve multiplication, the precomputed table and `secp256k1_ec_pubkey_precomp_table`: foreign code, passed in as `Primitives.pubkeyCreate`; the table setup failure at brainflayer.c:409-411 is not modelled.
- SHA-256 and RIPEMD-160 internals: passed in as `Primitives.sha256` and `Primitives.ripemd160`.
- The warpwallet, brainwallet.io and brainv2 KDFs: passed in as functions returning a code and a key (or 32 hex characters).
- `unhex`: passed in as a function from the text and the previous buffer to the new 4096-byte buffer.
- The bloom filter's file format and probe: `bloom_open` and `bloom_chk_hash160` are the membership test `Setup.filter`; failure to open the filter is not modelled.
- File I/O: opening `-i` and `-o` (and their failure exits), `setvbuf` and `getline` itself; the input is the sequence of lines `getline` returns and the output is the sequence of hits.
- `sysinfo`: the machine's RAM is the parameter `sysram`.
- `getns()` and the monotonic clock: the clock is the parameter `Setup.clock`, giving the k-th reading.
- getopt itself: the command line is the list of options getopt returns, `optind` and the remaining arguments.
- The floating-point rate, its exponential moving average and the ANSI escape sequences of the progress line; a progress line keeps only its found count, line count and elapsed nanoseconds.
- `usage` text and the wording of diagnostics; each exit is a `ConfigError` value.
- The `default:` branch of the option switch (brainflayer.c:309-312), which getopt never reaches.
- The KDF wrappers' `pass[pass_sz] = 0`: it stores a NUL where the strip already put one.
- Pipeline.RawLine: `line_read` is an `int` assigned `getline(...) - 1` (brainflayer.c:262, 424); a line of 2^31+1 to 2^32 bytes makes it negative, which ends the run early as if at end of input. The model reads every line as a line.
- Options.Atoi: models glibc's `(int) strtol` and not C's `atoi`, which leaves a value outside the range of `int` undefined.
- Pipeline.Start: `olines` and `ilines_curr` start at 0 in both modes, whereas the source leaves them uninitialised without -v; neither is ever shown without -v.
- Output.Record: the type name and input are printed with `%s`, so a NUL inside them would end the field early; candidates never contain NUL, and the type names are fixed texts.
- The `ul` word view of `hash160_t`: the digests are kept as 20 bytes, and the byte order of the host does not matter because `ntohl` undoes it.

## Findings

| source | as written | input that shows it | evidently intended | confidence | as-written member | corrected member |
|---|---|---|---|---|---|---|
| brainflayer.c:145-147 | `hexpass2hash160` hashes `hpass_sz >> 1` bytes of the 4096-byte `unhexed` buffer whatever the text length | a line of 8194 hex characters: 4097 bytes are read from a 4096-byte buffer | refuse texts whose decoded length exceeds the buffer, with a non-zero return | not executed | Derive.HexPassOverRead | Derive.Deriver.HexPass2Hash160 |
| brainflayer.c:425 | `line[strlen(line)-1] = 0` stores at index -1 when the line starts with NUL | the line "\0\n" | treat such a line as the empty candidate without writing outside the buffer | not executed | Pipeline.LeadingNulWritesBeforeLine | Pipeline.Candidate |
