# simple-crypt in Dafny

simple-crypt is a small command-line tool. It encrypts files with a symmetric,
key-derived byte stream, and running it twice with the same key restores the
original bytes. This project models its core in Dafny 4 and proves properties of that model:

- **`crypto.dfy`, module `Crypto` (crypto.h):**
  - `hash_key` folds the key string into a 64-bit hash.
  - The two prime tables.
  - The `Crypto` class holds eight 32-bit linear-congruential generators and
    a rotation schedule. The schedule moves to the next generator on every call of
    `gen()` and skips one extra generator every `period` calls.
  - The generator is described twice:
    - as values: `GenState`, `Next`, `After` and `Keystream`;
    - as the class `Crypto`, whose constructor fills an `array<Lgc>` and whose
      `Gen` updates it in place and is proved to follow `Next`.
- **`arguments.dfy`, module `Arguments` (arguments.h, and the exit code of main):**
  - The `status` enum and `settings_t`, the latter as a class with a value view.
  - `parse_arguments`, modelled as a loop over `argv` that updates a `Settings`
    object in place.
  - The loop is proved against `ParseFrom`, which reads the arguments one at a
    time, and that in turn equals `Parse`: split the arguments into tokens, then apply them in order.
  - Lemmas say what `Parse` leaves in every field, and when it stops early.
- **`processing.dfy`, module `Processing` (processing.h):**
  - `process_data`, the streaming XOR transform, and `write_fully`, its retry loop.
  - `stat_file` as a function of the mode bits.
  - The mode choice of `process_regular_file`.
  - `process_item` over a finite directory tree.
  - The batch loop of `process_files`.
  - `gen_temporary_name`.
  - stdio streams are the class `File`:
    - The read side plays a script of `fread` results and an end-of-file flag.
    - The write side logs the bytes `fwrite` accepts, follows a script of how many
      bytes each call accepts, and knows whether `fseek` succeeds.
    - The in-place case `out == in` is object identity between two `File` references.
  - Each loop is a method proved against a pure function:
    - `process_data` against `DataFrom`, with `BlockStep` and `WriteStep` for one pass;
    - `write_fully` against `WriteFrom`;
    - `process_item` against `Outcome`;
    - `process_files` against `FirstFailure`.

Conventions:
- A C++ `std::string` is a `seq` of characters below 0x100.
- `char` is signed, as on x86: `hash_key` mixes in the two's-complement value of each byte.
- `uint64_t` and `uint32_t` arithmetic is `bv64`/`bv32`. `current`, `counter` and
  `period` are naturals kept below 8 and below `period` by the class invariant, so
  their 32-bit width never matters.

Four behaviours of the code are modelled as written and stated as lemmas:
- **Block-aligned input fails.** `process_data` stops with OK only when the end-of-file
  flag is already set before a read. A file whose size is a multiple of 0x1000 (the
  empty file included) therefore gets all of its bytes transformed and written, and
  then one more read that delivers nothing and ends in IO_ERROR (`RegularFile`).
- **In-place runs fail.** When `out == in`, every pass seeks back over its block
  before writing it. A successful `fseek` clears the end-of-file flag (section
  7.21.9.2 of the C11 standard), so the flag that the last read set is gone when
  the loop tests it again. One more read delivers nothing, and the run ends in
  IO_ERROR after the whole file has been rewritten, whatever its size
  (`InPlaceNeverOK`, `RegularFile`). `process_files` therefore stops after the
  first `-i` path.
- **`write_fully` retries from the start.** Every retry offers the remaining count
  from the start of the buffer, not from the write offset, so a short write
  duplicates the block's first bytes (`WriteFullyRestartsAtStart`).
- **The period can reach 0x2000.** The mask yields at most 0xfff, and the code adds
  0x1001. The model follows the code and bounds the period by [0x1001, 0x2000].

## Model

| member | source | states |
|---|---|---|
| Crypto.HashKey | crypto.h:33-42 | the accumulator loop returns `KeyHash(key)`: the fold, from 0xfc23ed30be4613ad, of XOR-with-mix then rotate-left-by-8 over the key's bytes in order |
| Crypto.MixValue | crypto.h:38 | `c * 0xcee3 + 0xaea7` as a `uint64_t`: the product itself for `c < 128`; for a negative `char` it wraps to `2^64 - (256 - c) * 0xcee3 + 0xaea7` |
| Crypto.RotateLeft8 | crypto.h:39 | `(hash << 8) \| (hash >> 56)` is the 64-bit rotation left by 8 |
| Crypto.KeyHash | crypto.h:35-41 | the fold of the key: its last round can be undone, since rotating the hash of a non-empty key back and XORing out the last byte's mix gives the hash of the rest |
| Crypto.KeyHashEmpty | crypto.h:35-41 | the empty key hashes to 0xfc23ed30be4613ad |
| Crypto.KeyHashAppend | crypto.h:36-40 | appending a byte `c` gives `rotl8(hash(k) ^ mix(c))`, with `mix(c) = (signed c * 0xcee3 + 0xaea7) mod 2^64` |
| Crypto.SignedChar | crypto.h:38 | a byte read as a signed `char` lies in [-128, 128) and agrees with the byte modulo 256 |
| Crypto.RotateLeft8Invertible | crypto.h:39 | the shift-or is a true 64-bit rotation by 8; rotating right by 8 undoes it, so no bit is lost |
| Crypto.UnhashStep | crypto.h:38-39 | one hash round is undone by rotating right and XORing the mix back out |
| Crypto.KeyHashPrefixRecoverable | crypto.h:36-40 | the hash of `k + [c]` determines the hash of `k` once `c` is known (each round is injective) |
| Crypto.Period | crypto.h:97 | `((seed * 0xa187 + 0xfccd) & 0xfff) + 0x1001` lies in [0x1001, 0x2000] |
| Crypto.Seed | crypto.h:82-83 | the half-swap `(key << 32) \| (key >> 32)` is the 64-bit rotation by 32, then `* 0x8119 + 0xd7fb` mod 2^64 |
| Crypto.Nibble | crypto.h:89-90 | a table index `(key >> shift) & 0xf` is always below 16 |
| Crypto.SeedByte | crypto.h:91 | every initial slot value `(seed >> 8i) & 0xff` is below 256 |
| Crypto.InitSlot | crypto.h:86-92 | slot `i` takes `mul` from PRIME_MUL_TAB at nibble `8i` of the key, `add` from PRIME_ADD_TAB at nibble `8i + 4`, and a value below 256 |
| Crypto.Init | crypto.h:79-98 | the state after construction: valid, `current = counter = 0`, `period = Period(Seed(key))`, and every slot as `InitSlot` says |
| Crypto.Advance | crypto.h:112 | one LCG step, `value * mul + add` mod 2^32, keeps `mul` and `add` |
| Crypto.LowByte | crypto.h:113 | `value & 0xff` is the slot value modulo 256 |
| Crypto.Int8 | crypto.h:113 | `int8_t` of a byte lies in [-128, 128) and agrees with the byte modulo 256 |
| Crypto.Uint8 | crypto.h:113 | the `uint8_t` return conversion lands in [0, 256) |
| Crypto.Int8CastKeepsBits | crypto.h:113 | for every slot value, the `int8_t` cast of its low byte followed by the `uint8_t` return gives that low byte back unchanged |
| Crypto.Next | crypto.h:100-114 | `gen()` on values: it keeps the invariant and `period`, advances exactly the slot at the old `current`, returns the low byte of its new value, and moves `current` by 1 (by 2, with the counter reset, when the counter reaches `period`) |
| Crypto.NextCurrent | crypto.h:103-109 | the next slot index is below 8 and never the one just used |
| Crypto.NextChangesOneSlot | crypto.h:103-112 | no `mul` or `add` ever changes, and every slot other than the old `current` keeps its value |
| Crypto.After | crypto.h:100-114 | any number of `gen()` calls keeps the invariant and the period |
| Crypto.Keystream | crypto.h:100-114 | `n` calls return `n` bytes |
| Crypto.AfterSnoc | crypto.h:100-114 | `n + 1` calls end one `gen()` past the state after `n` calls |
| Crypto.KeystreamSnoc | crypto.h:100-114 | the bytes of `n + 1` calls are those of `n` calls followed by the byte of the next call |
| Crypto.AfterSplit | crypto.h:100-114 | `a + b` calls are `a` calls followed by `b` calls |
| Crypto.KeystreamSplit | crypto.h:100-114 | the byte stream of `a + b` calls is the stream of `a` calls followed by the stream of `b` calls from where they left off |
| Crypto.WithinPeriod | crypto.h:103-109 | from a zero counter, `k < period` calls leave `counter = k` and `current` advanced by `k` mod 8 |
| Crypto.PeriodRotation | crypto.h:103-109 | from a zero counter, `period` calls reset the counter and advance `current` by `period + 1` mod 8 |
| Crypto.Crypto.constructor | crypto.h:79-98 | the constructor fills a fresh slot array and its state equals `Init(key)` |
| Crypto.Crypto.Gen | crypto.h:100-114 | `gen()` updates the slot array in place and its new state and returned byte are exactly `Next` of the old state |
| Arguments.Ordinal | arguments.h:34-42 | the status values lie in 0..5, and OK is exactly 0 |
| Arguments.OrdinalInjective | arguments.h:34-42 | distinct statuses have distinct values |
| Arguments.ExitCode | simple-crypt.cpp:28-35 | after a failed parse the exit code is 0 exactly for USAGE and `int(res)` otherwise; after a successful one it is the processing status |
| Arguments.FailureCodesDistinct | simple-crypt.cpp:29-33 | two different parse failures other than USAGE exit with different, nonzero codes |
| Arguments.Settings.constructor | arguments.h:44-53 | the default settings: key 0, every flag false, no output, no paths |
| Arguments.Effect | arguments.h:62-93 | each recognised option sets only its own field: flags become true, `-o` sets the output, `-k` sets the key to `hash_key` of its value, anything else is appended to the paths |
| Arguments.Apply | arguments.h:60-103 | applying the tokens never yields IO_ERROR or BAD_STATE, and NO_KEY only when no `-k` token was applied and none was seen before |
| Arguments.Parse | arguments.h:56-104 | `parse_arguments` never returns IO_ERROR or BAD_STATE |
| Arguments.ApplyCons | arguments.h:60-94 | one token: `-h` stops with USAGE, a missing value stops with BAD_ARGUMENTS, anything else is applied and parsing goes on |
| Arguments.TokensAt | arguments.h:62-93 | the argument at `i` is tested against the options in source order; `-o`/`-k` consume `argv[i+1]`, or give a missing value when none is left |
| Arguments.ParseFromTokens | arguments.h:60-104 | reading the arguments one by one from position `i` equals applying their tokens |
| Arguments.ParseStartsAtOne | arguments.h:60 | parsing starts at `argv[1]` |
| Arguments.ParseArgument | arguments.h:62-93 | one pass of the loop consumes one argument (two for `-o`/`-k`), updates the settings in place exactly as `ParseFrom` does, or returns USAGE/BAD_ARGUMENTS with the settings untouched |
| Arguments.ParseArguments | arguments.h:56-104 | the status and the new settings are exactly `Parse` of the old settings and `argv` |
| Arguments.ApplyStatus | arguments.h:97-103 | when nothing stops parsing, the status is OK exactly when some `-k` was given, and NO_KEY otherwise |
| Arguments.ApplyLastKey | arguments.h:82-90 | when nothing stops parsing, the key is `hash_key` of the last `-k` value, or unchanged when there is none |
| Arguments.ApplyKey | arguments.h:82-90 | the same, stated as the last element of the `-k` values in order |
| Arguments.ApplyOutput | arguments.h:69-77 | the output is the last `-o` value, or unchanged when there is none |
| Arguments.ApplyFlags | arguments.h:63-68 | `-v`, `-r`, `-d` and `-i` only set their flags, each exactly when it occurs (repeating them changes nothing) |
| Arguments.ApplyCollects | arguments.h:92-93 | the paths are collected one token at a time, as the loop appends them |
| Arguments.ApplyPaths | arguments.h:92-93 | every other argument, unknown dash options included, is appended to the paths in order |
| Arguments.ApplyStops | arguments.h:71-88 | the first `-h` or missing value decides the status (USAGE or BAD_ARGUMENTS) whatever follows, the key check is skipped, and earlier changes to the settings remain |
| Arguments.OptionTakesNextVerbatim | arguments.h:69-90 | `-o` and `-k` take the next argument as their value even when it looks like an option |
| Arguments.MissingValueIsBadArguments | arguments.h:71-88 | `-o` or `-k` as the last argument gives BAD_ARGUMENTS, with earlier changes kept |
| Arguments.TokensAppendMissing | arguments.h:69-88 | a trailing lone `-o`/`-k` adds exactly one missing value after the other tokens |
| Arguments.ProgramNameIgnored | arguments.h:60 | `argv[0]` never affects the result |
| Processing.Transform | processing.h:139-153 | a run transforms its input into a byte sequence of the same length |
| Processing.XorInvolution | processing.h:152-153 | XOR with the same key stream undoes itself |
| Processing.TransformInvolution | processing.h:139-153 | transforming twice with the same key restores the input |
| Processing.KeystreamAt | processing.h:152-153 | byte `i` of the key stream is what the `(i+1)`-th `gen()` returns |
| Processing.StreamAppend | processing.h:139-182 | the key stream runs on across blocks: transforming `a + b` is transforming `a`, then `b` with the generator where `a` left it |
| Processing.TransformBlock | processing.h:152-153 | the inner loop XORs the first `n` buffer bytes in place with the next `n` generator bytes, leaves the rest of the buffer alone and advances the generator by `n` calls |
| Processing.File.Read | processing.h:144 | `fread` fills the buffer with the next scripted read (at most BUFFER_SIZE bytes), leaves the rest of the buffer and the write side alone |
| Processing.File.Write | processing.h:128 | `fwrite` hands the first `count` buffer bytes to the stream, which takes a prefix of them |
| Processing.File.Seek | processing.h:158 | the seek succeeds exactly when the stream is seekable, and then clears the end-of-file flag, keeping the script of reads; the write side is unchanged |
| Processing.FRead | processing.h:144 | a read consumes exactly one scripted read and delivers at most BUFFER_SIZE bytes; past the end of the script it delivers nothing and sets the end-of-file flag |
| Processing.Context.constructor | processing.h:57-61 | the context holds the buffer and the `-o` stream |
| Processing.FWrite | processing.h:128 | an `fwrite` accepts a prefix of the bytes offered and reports its length |
| Processing.WriteFrom | processing.h:124-135 | write_fully only ever appends; on success the stream has received exactly the block's length |
| Processing.WriteFully | processing.h:124-135 | the retry loop's result and the stream's new state are exactly `WriteFrom` from offset 0, and the read side is untouched |
| Processing.WriteFullyWhole | processing.h:124-135 | a stream that takes every write whole receives the block once, and write_fully succeeds |
| Processing.WriteFullyFails | processing.h:128-130 | a first `fwrite` that takes nothing fails the whole write |
| Processing.WriteFullyRestartsAtStart | processing.h:126-132 | after a short write of `k` bytes the retry sends the block's first bytes again: the stream gets `block[..k] + block[..len-k]` |
| Processing.WriteFromPrefixes | processing.h:126-132 | whatever each `fwrite` accepts, everything write_fully appends is a sequence of prefixes of the block, each no longer than the count it was offered |
| Processing.WriteOpt | processing.h:166-181 | a missing sink is not written and counts as success; a present one stays present, is only appended to, keeps its seekability, and on success receives exactly the block's length |
| Processing.WriteStep | processing.h:155-181 | in place, a failed seek stops the pass and a successful one clears the end-of-file flag; otherwise the input is left alone; the writes only append to the sinks, and on success give each sink exactly the block's length |
| Processing.BlockStep | processing.h:141-182 | a pass either stops or consumes one scripted read, and then the streams stay bounded; a pass that goes through in place leaves the end-of-file flag clear |
| Processing.DataFrom | processing.h:137-185 | the loop ends OK (only with the end-of-file flag set) or IO_ERROR, and keeps which sinks exist |
| Processing.WriteBlock | processing.h:155-181 | the seek (which clears the end-of-file flag when it succeeds) and the writes change the streams exactly as `WriteStep` says |
| Processing.ProcessBlock | processing.h:141-182 | one pass reads, transforms in place and writes exactly as `BlockStep` says, and the generator ends where `BlockStep` says |
| Processing.ProcessData | processing.h:137-185 | with a fresh generator keyed by `key`, the status and every stream's new state are exactly `DataFrom(Init(key), …)` of the old streams |
| Processing.ReliableBlockStep | processing.h:143-181 | with streams that never fail, a non-empty read reaches both sinks transformed and the generator advances by its length; the end-of-file flag is the read's, except in place, where the seek clears it |
| Processing.DataWholeInput | processing.h:139-184 | the whole input, however it is cut into blocks, reaches every sink transformed by one continuous key stream; the status is OK, or IO_ERROR in place |
| Processing.ProcessDataTwiceRestores | processing.h:137-185 | a second run with the same key over the first run's output writes the original bytes back |
| Processing.FileChunks | processing.h:144 | reads of a regular file deliver at most BUFFER_SIZE bytes each |
| Processing.RegularFile | processing.h:141-149 | for a regular file every sink receives the whole content transformed, and the status is IO_ERROR exactly when the run is in place or the size is a multiple of 0x1000 (the empty file included) |
| Processing.RegularFileRest | processing.h:141-149 | the same for a file shorter than one block |
| Processing.AlignedIsModulo | processing.h:55 | "a whole number of blocks" is the size modulo 0x1000 being 0 |
| Processing.DataLengths | processing.h:144-181 | whatever each `fwrite` accepts, a run that ends OK has given each sink exactly as many bytes as it read |
| Processing.EmptyReadFails | processing.h:144-149 | a read that delivers nothing before the end-of-file flag ends the run with IO_ERROR and writes nothing |
| Processing.InPlaceNeverOK | processing.h:141-181 | in place, a run that starts before the end-of-file flag never ends OK: each successful seek clears the flag, so the loop ends only on an empty read or a failure, both IO_ERROR |
| Processing.SeekFailureFails | processing.h:156-163 | in place, a failed seek ends the run with IO_ERROR before anything is written |
| Processing.OutputFailsFirst | processing.h:166-173 | `ctx.output` is written before `out`: when it fails, the run ends with IO_ERROR and `out` is untouched |
| Processing.StatFile | processing.h:63-86 | a failed `stat` gives ERROR; otherwise BLOCK, REGULAR and DIR exactly for their file-type bits |
| Processing.StatFileIgnoresOtherBits | processing.h:73 | only the S_IFMT bits decide the type |
| Processing.OtherKindsUnsupported | processing.h:77-85 | FIFOs, links, sockets and character devices are UNSUPPORTED |
| Processing.ChooseMode | processing.h:194-231 | `-d` or an open `-o` stream beats `-i`, which beats the temporary file |
| Processing.FirstFailure | processing.h:305-312 | OK exactly when every result is OK; otherwise the first result that is not OK |
| Processing.EntriesFirstFailure | processing.h:305-312 | the loop over a directory's entries returns the first status that is not OK, in `readdir` order |
| Processing.DirectoryOutcome | processing.h:291-313 | a listable directory in recursive mode yields the first failure among its entries |
| Processing.ProcessItem | processing.h:277-322 | the status is exactly `Outcome`: the regular file's result; BAD_STATE for a block device without `-i`, a directory without `-r`, and unsupported kinds; IO_ERROR when `stat` or the listing fails; otherwise the entries in order up to the first failure |
| Processing.Outcome | processing.h:277-322 | an item is OK only if it is a regular file, a block device under `-i`, or a listable directory under `-r` |
| Processing.EntriesOutcome | processing.h:305-312 | the entries loop from entry `k` returns OK exactly when every remaining entry is OK |
| Processing.ProcessFiles | processing.h:344-356 | with paths, the status is the first failure over the items in order; with none, stdin is transformed to stdout exactly as `process_data` does |
| Processing.Decimal | processing.h:95 | `std::to_string` of a number is a non-empty string |
| Processing.DecimalRoundTrip | processing.h:95 | the decimal form reads back as the number |
| Processing.TempNameInjective | processing.h:95 | different counters give different temporary names for the same file |
| Processing.TempName | processing.h:95 | the temporary name starts with the file's own path and a dot and ends with `.tmp` |
| Processing.GenTemporaryName | processing.h:88-102 | the result is `<file>.<i>.tmp` for the smallest `i` whose `stat` fails with ENOENT; existing names and other errors are skipped |

## Left out

- The stdio and POSIX calls themselves are not modelled: `fopen`, `fclose`, `stat`, `opendir`, `readdir`, `closedir`, `rename` and `unlink`.
  - `fread`, `fwrite` and `fseek` are scripted by the class `File`, and `stat` is a parameter.
  - Stream positions are not modelled. An in-place rewrite appears as the transformed
    blocks appended to the file's write log, while its read script goes on unaffected.
- `errno`, every `stderr` message, verbose logging and `print_usage`.
- The file-handling body of `process_regular_file` (processing.h:187-275) is not modelled beyond its mode choice (`ChooseMode`).
  - `process_item` takes the file's result from `Node.fileResult`.
  - The two defects of that body are therefore neither modelled nor corrected: the
    reversed `rename(path, temp)` at processing.h:264, and the unchanged status
    after a failed temporary `fopen` at processing.h:239.
- `read_directory` (processing.h:104-122) is replaced by the finite tree of `Node`s.
  - Its listing includes `.` and `..`, and `process_item` returns OK for a directory only when every entry does (processing.h:305-312). One entry of `d` is `d/.`, whose listing holds `d/./.`, and so on, so in the source a recursive run over a directory never returns OK: it returns the first failure, at the latest when `stat` or `opendir` fails on the ever-longer path.
  - `Outcome` and `DirectoryOutcome` differ here: the tree has no `.` or `..` entries, so a listable directory whose entries all succeed yields OK.
- In `process_files`, opening and closing the `-o` file is not modelled (processing.h:334-342, 358-367). The open stream arrives as `ctx.output`.
  - So the error recorded by a failed open, which the processing overwrites, is not modelled.
  - Nor is the IO_ERROR of a failed final `fclose`.
- `main` beyond its exit-code rule (`ExitCode`).
- `hash_key` fixes the signed-`char` convention. The unsigned-`char` platforms are not modelled.
- `ProcessData`, `ProcessBlock`, `WriteBlock` and `ProcessFiles` require `ctx.output` to be a different `FILE` object from both `in` and `out`. This holds at every call in the source, because each `fopen` returns a new stream.
- Two streams open on the same file are not modelled. `-o a` with `a` also among the paths opens `a` for writing at processing.h:336, which truncates it, and then opens it again for reading. A recursive walk can likewise reach the `-o` file. The model treats such streams as independent.
- `ProcessData` and `ProcessFiles` require reads of at most BUFFER_SIZE bytes, which `fread` guarantees.
- `GenTemporaryName` requires some counter to give a free name. When none does, the source loops forever, and that case is not modelled.
- `ProcessItem`: the recursion descends a finite tree, so termination is structural. The source's termination depends on the file system.
