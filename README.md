# fxmark_grpc core, modelled in Dafny

This project models the core of fxmark_grpc, a file-system micro-benchmark
driven over RPC, in three parts:

- **The harness driver** (`fxmark/src/fxmark/mod.rs`, module `Fxmark`):
  - the run specification `<cores>X<open_files>X<benchmark>X<write_ratio>` and its parser `ARGs::from_str`;
  - the throughput formula `_calculate_throughput`;
  - the benchmark descriptor built by `MicroBench::new`;
  - the per-second report rows written by one worker in `fxmark_bencher`;
  - the sequential plan that `bench` and `start` carry out for each (mapping, thread count) pair: set the barrier, `init` and spawn per core, then join.
- **The DRPC message codec** (`fxmark/src/fxrpc/drpc/fileops.rs`, module `FileOps`):
  - the nine opcodes and their byte values;
  - the seven request and response records, each encoded field by field in declaration order.

  Module `Wire` holds the primitive field encodings. Integers are fixed-width little-endian. Byte vectors carry a 64-bit length prefix.
- **The DRBL workload** (`src/fxmark/bench/drbl.rs`, module `Drbl`):
  - a class with the fixed path, the page, and the 512-slot descriptor table, held as an `array` and updated in place by `init`;
  - `run`, the countdown loop over seconds with its inner clock loop and batches of 128 reads.

  The operating system's file calls (`remove`, `open`, `write`, `pread`, `close`) are methods of an oracle class, `Kernel`. They return values the model does not fix, and each call is recorded in a log. The monotonic clock is an oracle class too, `Clock`, whose readings strictly increase and are kept as a history.

Modules `Ints` (integer widths) and `Text` (`str::split`, decimal text, Rust's `usize::from_str`) are shared. `usize` is 64 bits wide.

## Model

| member | source | states |
|---|---|---|
| Text.Split | fxmark/src/fxmark/mod.rs:65 | `split('X')` always yields at least one piece, and no piece contains the separator |
| Text.SplitJoin | fxmark/src/fxmark/mod.rs:65 | splitting the separator-joined pieces gives the pieces back when none contains the separator |
| Text.JoinSplit | fxmark/src/fxmark/mod.rs:65 | joining the pieces of a split with the separator gives the original text back |
| Text.SplitAround | fxmark/src/fxmark/mod.rs:65 | the split of `a + sep + b` is the split of `a` followed by the split of `b` |
| Text.Decimal | fxmark/src/fxmark/mod.rs:196-210 | `{}` of a count is a non-empty run of digits, with no leading zero except for 0 itself |
| Text.DecimalValue | fxmark/src/fxmark/mod.rs:196-210 | the decimal text of a number is a non-empty run of digits that reads back as the number |
| Text.DecimalInjective | src/fxmark/bench/drbl.rs:34 | different numbers have different decimal texts |
| Text.ParseDigitsSpec | fxmark/src/fxmark/mod.rs:67-70 | the digit loop succeeds exactly on all-digit texts whose value fits a usize, returns that value, and never reports Empty |
| Text.ParseUsizeSpec | fxmark/src/fxmark/mod.rs:67-70 | `parse::<usize>` succeeds exactly on an optional `+` followed by digits whose value fits, returns that value, and reports Empty exactly for the empty text |
| Text.ParseDecimal | fxmark/src/fxmark/mod.rs:67-70 | parsing the decimal text of any usize gives the number back |
| Text.ParseDigits | fxmark/src/fxmark/mod.rs:67-70 | the digit loop of `usize::from_str` only returns values that fit a usize, never reports Empty, and reports InvalidDigit when the first character is not a digit |
| Text.ParseUsize | fxmark/src/fxmark/mod.rs:67-70 | `parse::<usize>` only returns values that fit a usize, reports Empty exactly for the empty text, and rejects every text starting with `-` |
| Fxmark.ParseArgs | fxmark/src/fxmark/mod.rs:64-77 | `from_str`: a panic indexes segment 1, 2 or 3, which is exactly the number of segments; a parsed result has at least four segments and takes the third verbatim as the benchmark name; an Empty error means some segment is empty |
| Fxmark.ParseArgsOutcome | fxmark/src/fxmark/mod.rs:64-77 | from_str returns the four fields exactly when there are at least four segments and segments 0, 1 and 3 are valid usize texts, with segment 2 taken verbatim. It panics indexing the first missing segment exactly when there are fewer than four segments and the segments it reached parsed. Otherwise the error is that of the first segment, in source order, that fails to parse |
| Fxmark.ParseArgsRoundTrip | fxmark/src/fxmark/mod.rs:64-77 | `"aXbXnameXw"` for usize values and any name without `X` parses to exactly those fields |
| Fxmark.ParseArgsIgnoresTail | fxmark/src/fxmark/mod.rs:64-77 | segments after the fourth never change the result |
| Fxmark.CalculateThroughput | fxmark/src/fxmark/mod.rs:41-47 | a rate is returned exactly when `0 < ops <= nanos`, and otherwise the division by zero panics; the rate never exceeds 10^9 |
| Fxmark.ThroughputMonotone | fxmark/src/fxmark/mod.rs:41-47 | more operations in the same time never report a lower rate |
| Fxmark.ThroughputAtLeastExactRate | fxmark/src/fxmark/mod.rs:41-47 | truncating the nanoseconds per operation only raises the result: it is at least `10^9 * ops / nanos` |
| Fxmark.NewMicroBench | fxmark/src/fxmark/mod.rs:135-159 | the descriptor has exactly one mapping, Sequential, and exactly one thread count, the client's core count, and keeps the name, write ratio and open-file count |
| Fxmark.RowFields | fxmark/src/fxmark/mod.rs:196-210 | a row has twelve fields; all but the benchmark name (second) and the RPC type (last) are decimal numerals, and the name is printed between double quotes |
| Fxmark.RowLineFields | fxmark/src/fxmark/mod.rs:196-210 | a row line ends in a newline and, when the benchmark and RPC names have no comma, splits at its commas back into exactly its twelve fields in output order |
| Fxmark.ReportRows | fxmark/src/fxmark/mod.rs:195-225 | one row per second `1..=duration`. Row `i` is `RowFor` of second `i`: the global core index `core_id + ccores * cid`, the total core count `cores * nclients`, and `iops[i]`. The loop panics exactly when `duration >= 1` and `iops` has at most `duration` entries, after writing the rows before the missing index |
| Fxmark.RunRound | fxmark/src/fxmark/mod.rs:262-306 | one round is the barrier set to the allocated core count, then for each core `init` with the whole list and that core's spawn, then the joins |
| Fxmark.RunRounds | fxmark/src/fxmark/mod.rs:256-307 | the inner loop runs one round per thread count, in order |
| Fxmark.Start | fxmark/src/fxmark/mod.rs:242-309 | the nested loops run the rounds of every mapping, the mapping in the outer loop |
| Fxmark.Bench | fxmark/src/fxmark/mod.rs:311-321 | only `"mix"` runs, as exactly one round on the cores allocated sequentially for the client's core count; any other name does nothing |
| Fxmark.InitSpawnShape | fxmark/src/fxmark/mod.rs:276-302 | the init/spawn loop alternates `init` with the whole core list and the spawn of each core, in allocation order |
| Fxmark.JoinsShape | fxmark/src/fxmark/mod.rs:304-306 | one join per spawned worker, in spawn order |
| Fxmark.RoundShape | fxmark/src/fxmark/mod.rs:272-306 | a round has `1 + 3n` steps: the barrier count first, then `init` and spawn per core, then the joins in the same order |
| Fxmark.InitOncePerCore | fxmark/src/fxmark/mod.rs:276-283 | a round calls the workload's `init` exactly once per allocated core |
| Fxmark.BarriersRound | fxmark/src/fxmark/mod.rs:274 | a round stores the barrier exactly once, with its core count |
| Fxmark.PairsIndex | fxmark/src/fxmark/mod.rs:255-256 | the nested loops visit mapping `i` with thread count `j` at position `i * n + j`, `n` being the number of thread counts |
| Fxmark.BarriersRoundsFor | fxmark/src/fxmark/mod.rs:256-307 | the barrier counts of one mapping's rounds are the allocation sizes of its thread counts, in order |
| Fxmark.PlanRounds | fxmark/src/fxmark/mod.rs:255-308 | the barrier counts of the whole plan are the allocation sizes of the (mapping, thread count) pairs in nested-loop order, one round per pair |
| Wire.EncodeLE | fxmark/src/fxrpc/drpc/fileops.rs:28-78 | a value in range encodes into exactly `width` bytes |
| Wire.DecodeLE | fxmark/src/fxrpc/drpc/fileops.rs:28-78 | `k` bytes decode to a value below 256^k |
| Wire.DecodeEncodeLE | fxmark/src/fxrpc/drpc/fileops.rs:28-78 | decoding the little-endian bytes of a value in range gives it back |
| Wire.EncodeDecodeLE | fxmark/src/fxrpc/drpc/fileops.rs:28-78 | encoding the value of any byte string at its width gives the bytes back |
| Wire.EncodeU32 | fxmark/src/fxrpc/drpc/fileops.rs:31 | a `u32` field takes 4 bytes |
| Wire.EncodeUsize | fxmark/src/fxrpc/drpc/fileops.rs:38 | a `usize` field takes 8 bytes |
| Wire.EncodeI32 | fxmark/src/fxrpc/drpc/fileops.rs:30 | an `i32` field takes 4 bytes |
| Wire.EncodeI64 | fxmark/src/fxrpc/drpc/fileops.rs:39 | an `i64` field takes 8 bytes |
| Wire.EncodeBytes | fxmark/src/fxrpc/drpc/fileops.rs:29 | a `Vec<u8>` field takes an 8-byte length plus its bytes |
| Wire.U32RoundTrip | fxmark/src/fxrpc/drpc/fileops.rs:31 | a `u32` decodes back from its encoding, leaving what follows |
| Wire.U32Exact | fxmark/src/fxrpc/drpc/fileops.rs:31 | whatever decodes as a `u32` is that value's encoding followed by the remainder |
| Wire.U32Truncated | fxmark/src/fxrpc/drpc/fileops.rs:31 | every proper prefix of a `u32` encoding is rejected |
| Wire.UsizeRoundTrip | fxmark/src/fxrpc/drpc/fileops.rs:38 | a `usize` decodes back from its encoding, leaving what follows |
| Wire.UsizeExact | fxmark/src/fxrpc/drpc/fileops.rs:38 | whatever decodes as a `usize` is that value's encoding followed by the remainder |
| Wire.UsizeTruncated | fxmark/src/fxrpc/drpc/fileops.rs:38 | every proper prefix of a `usize` encoding is rejected |
| Wire.I32RoundTrip | fxmark/src/fxrpc/drpc/fileops.rs:30 | an `i32`, negative ones included, decodes back from its two's-complement encoding |
| Wire.I32Exact | fxmark/src/fxrpc/drpc/fileops.rs:30 | whatever decodes as an `i32` is that value's encoding followed by the remainder |
| Wire.I32Truncated | fxmark/src/fxrpc/drpc/fileops.rs:30 | every proper prefix of an `i32` encoding is rejected |
| Wire.I64RoundTrip | fxmark/src/fxrpc/drpc/fileops.rs:39 | an `i64`, negative ones included, decodes back from its two's-complement encoding |
| Wire.I64Exact | fxmark/src/fxrpc/drpc/fileops.rs:39 | whatever decodes as an `i64` is that value's encoding followed by the remainder |
| Wire.I64Truncated | fxmark/src/fxrpc/drpc/fileops.rs:39 | every proper prefix of an `i64` encoding is rejected |
| Wire.BytesRoundTrip | fxmark/src/fxrpc/drpc/fileops.rs:29 | a byte vector decodes back from its length-prefixed encoding |
| Wire.BytesExact | fxmark/src/fxrpc/drpc/fileops.rs:29 | whatever decodes as a byte vector is that vector's encoding followed by the remainder |
| Wire.BytesTruncated | fxmark/src/fxrpc/drpc/fileops.rs:29 | every proper prefix of a byte-vector encoding is rejected |
| FileOps.OpcodeByte | fxmark/src/fxrpc/drpc/fileops.rs:5-26 | every opcode's `repr(u8)` value is between 1 and 9 |
| FileOps.OpcodeByteRoundTrip | fxmark/src/fxrpc/drpc/fileops.rs:5-26 | a byte names an opcode exactly when it is 1..9, and byte and opcode convert into each other both ways |
| FileOps.OpcodeByteInjective | fxmark/src/fxrpc/drpc/fileops.rs:5-26 | no two opcodes share a byte |
| FileOps.OrderMatchesBytes | fxmark/src/fxrpc/drpc/fileops.rs:5-7 | the derived `PartialOrd` (declaration order) agrees with the order of the byte values |
| FileOps.OpenReqRoundTrip | fxmark/src/fxrpc/drpc/fileops.rs:28-34 | an OpenReq (path, flags, mode) decodes back from its encoding, leaving what follows |
| FileOps.OpenReqExact | fxmark/src/fxrpc/drpc/fileops.rs:28-34 | whatever decodes as an OpenReq is that request's encoding followed by the remainder |
| FileOps.OpenReqTruncated | fxmark/src/fxrpc/drpc/fileops.rs:28-34 | every proper prefix of an OpenReq encoding is rejected |
| FileOps.EncodeOpenReq | fxmark/src/fxrpc/drpc/fileops.rs:28-34 | the encoding (path, then flags, then mode) takes exactly 16 bytes plus the path |
| FileOps.DecodeOpenReq | fxmark/src/fxrpc/drpc/fileops.rs:28-34 | a decoded OpenReq consumed exactly its encoded size (16 bytes plus the path) and no more of the buffer |
| FileOps.ReadReqRoundTrip | fxmark/src/fxrpc/drpc/fileops.rs:36-42 | a ReadReq (fd, size, offset) decodes back from its encoding |
| FileOps.ReadReqExact | fxmark/src/fxrpc/drpc/fileops.rs:36-42 | whatever decodes as a ReadReq is that request's encoding followed by the remainder |
| FileOps.ReadReqTruncated | fxmark/src/fxrpc/drpc/fileops.rs:36-42 | every proper prefix of a ReadReq encoding is rejected |
| FileOps.EncodeReadReq | fxmark/src/fxrpc/drpc/fileops.rs:36-42 | the encoding (fd, then size, then offset) takes exactly 20 bytes |
| FileOps.DecodeReadReq | fxmark/src/fxrpc/drpc/fileops.rs:36-42 | a decoded ReadReq consumed exactly its encoded size (20 bytes) and no more of the buffer |
| FileOps.WriteReqRoundTrip | fxmark/src/fxrpc/drpc/fileops.rs:44-51 | a WriteReq (fd, page, size, offset) decodes back from its encoding |
| FileOps.WriteReqExact | fxmark/src/fxrpc/drpc/fileops.rs:44-51 | whatever decodes as a WriteReq is that request's encoding followed by the remainder |
| FileOps.WriteReqTruncated | fxmark/src/fxrpc/drpc/fileops.rs:44-51 | every proper prefix of a WriteReq encoding is rejected |
| FileOps.EncodeWriteReq | fxmark/src/fxrpc/drpc/fileops.rs:44-51 | the encoding (fd, then page, then size, then offset) takes exactly 28 bytes plus the page |
| FileOps.DecodeWriteReq | fxmark/src/fxrpc/drpc/fileops.rs:44-51 | a decoded WriteReq consumed exactly its encoded size (28 bytes plus the page) and no more of the buffer |
| FileOps.CloseReqRoundTrip | fxmark/src/fxrpc/drpc/fileops.rs:53-57 | a CloseReq (fd) decodes back from its encoding |
| FileOps.CloseReqExact | fxmark/src/fxrpc/drpc/fileops.rs:53-57 | whatever decodes as a CloseReq is that request's encoding followed by the remainder |
| FileOps.CloseReqTruncated | fxmark/src/fxrpc/drpc/fileops.rs:53-57 | every proper prefix of a CloseReq encoding is rejected |
| FileOps.EncodeCloseReq | fxmark/src/fxrpc/drpc/fileops.rs:53-57 | the encoding (fd) takes exactly 4 bytes |
| FileOps.DecodeCloseReq | fxmark/src/fxrpc/drpc/fileops.rs:53-57 | a decoded CloseReq consumed exactly its encoded size (4 bytes) and no more of the buffer |
| FileOps.RemoveReqRoundTrip | fxmark/src/fxrpc/drpc/fileops.rs:59-63 | a RemoveReq (path) decodes back from its encoding |
| FileOps.RemoveReqExact | fxmark/src/fxrpc/drpc/fileops.rs:59-63 | whatever decodes as a RemoveReq is that request's encoding followed by the remainder |
| FileOps.RemoveReqTruncated | fxmark/src/fxrpc/drpc/fileops.rs:59-63 | every proper prefix of a RemoveReq encoding is rejected |
| FileOps.EncodeRemoveReq | fxmark/src/fxrpc/drpc/fileops.rs:59-63 | the encoding (path) takes exactly 8 bytes plus the path |
| FileOps.DecodeRemoveReq | fxmark/src/fxrpc/drpc/fileops.rs:59-63 | a decoded RemoveReq consumed exactly its encoded size (8 bytes plus the path) and no more of the buffer |
| FileOps.MkdirReqRoundTrip | fxmark/src/fxrpc/drpc/fileops.rs:65-70 | a MkdirReq (path, mode) decodes back from its encoding |
| FileOps.MkdirReqExact | fxmark/src/fxrpc/drpc/fileops.rs:65-70 | whatever decodes as a MkdirReq is that request's encoding followed by the remainder |
| FileOps.MkdirReqTruncated | fxmark/src/fxrpc/drpc/fileops.rs:65-70 | every proper prefix of a MkdirReq encoding is rejected |
| FileOps.EncodeMkdirReq | fxmark/src/fxrpc/drpc/fileops.rs:65-70 | the encoding (path, then mode) takes exactly 12 bytes plus the path |
| FileOps.DecodeMkdirReq | fxmark/src/fxrpc/drpc/fileops.rs:65-70 | a decoded MkdirReq consumed exactly its encoded size (12 bytes plus the path) and no more of the buffer |
| FileOps.ResponseRoundTrip | fxmark/src/fxrpc/drpc/fileops.rs:72-78 | a Response (result, size, page) decodes back from its encoding |
| FileOps.ResponseExact | fxmark/src/fxrpc/drpc/fileops.rs:72-78 | whatever decodes as a Response is that response's encoding followed by the remainder |
| FileOps.ResponseTruncated | fxmark/src/fxrpc/drpc/fileops.rs:72-78 | every proper prefix of a Response encoding is rejected |
| FileOps.EncodeResponse | fxmark/src/fxrpc/drpc/fileops.rs:72-78 | the encoding (result, then size, then page) takes exactly 20 bytes plus the page |
| FileOps.DecodeResponse | fxmark/src/fxrpc/drpc/fileops.rs:72-78 | a decoded Response consumed exactly its encoded size (20 bytes plus the page) and no more of the buffer |
| Drbl.Kernel.Remove | src/fxmark/bench/drbl.rs:36 | records the remove call with the name and the result the system returned |
| Drbl.Kernel.Open | src/fxmark/bench/drbl.rs:37 | records the open call with the name, the flags, the mode and the descriptor returned |
| Drbl.Kernel.Write | src/fxmark/bench/drbl.rs:42 | records the write call with the descriptor, the bytes written and the count returned |
| Drbl.Kernel.PRead | src/fxmark/bench/drbl.rs:69 | records the pread call with the descriptor, length, offset and count returned |
| Drbl.Kernel.Close | src/fxmark/bench/drbl.rs:81 | records the close call |
| Drbl.Clock.Now | src/fxmark/bench/drbl.rs:64-66 | every reading of the monotonic clock is strictly later than the one before, and is added to the history of readings |
| Drbl.FileNameInjective | src/fxmark/bench/drbl.rs:34 | different cores never share a scratch file name |
| Drbl.FileNameParts | src/fxmark/bench/drbl.rs:34 | the scratch file name is the directory, `/file`, the core's decimal number, and `.txt` with a closing NUL |
| Drbl.OpenedIndex | src/fxmark/bench/drbl.rs:38-45 | each core `init` handled has a slot in the table and got a descriptor other than -1 |
| Drbl.AssignedSnoc | src/fxmark/bench/drbl.rs:45 | one more in-range write with a valid descriptor extends the table history by exactly that slot update |
| Drbl.AssignedElsewhere | src/fxmark/bench/drbl.rs:33-46 | a slot no handled core names keeps its old value |
| Drbl.AssignedLast | src/fxmark/bench/drbl.rs:33-46 | a core's slot holds the descriptor from its last occurrence in the list |
| Drbl.AssignedCovers | src/fxmark/bench/drbl.rs:33-58 | no slot of a core that got a descriptor is -1, so after an `init` that completed, `run` on any of its cores gets past the descriptor check |
| Drbl.SetupTraceLength | src/fxmark/bench/drbl.rs:33-46 | a completed `init` makes exactly three file calls per core |
| Drbl.InitStep | src/fxmark/bench/drbl.rs:33-46 | one more core set up keeps `init`'s progress: the table gains exactly that core's slot update, and the descriptors and the call log grow by that core's part |
| Drbl.FullReadsAppend | src/fxmark/bench/drbl.rs:62-79 | two stretches of full-page reads at offset 0 of one descriptor make one |
| Drbl.BatchedIndex | src/fxmark/bench/drbl.rs:66-77 | in a series of whole batches, every count is a multiple of 128 |
| Drbl.Drbl.constructor | src/fxmark/bench/drbl.rs:17-27 | the path is `/mnt`, the page is `PAGE_SIZE` bytes of `0x0b`, and the table has 512 fresh slots, all -1 |
| Drbl.Drbl.Prepare | src/fxmark/bench/drbl.rs:34-44 | remove, then open with `O_CREAT or O_RDWR` and mode `S_IRWXU`, then write of the DRBL page to the core's scratch file. It aborts when open returns -1 (after two calls) or when write does not write the whole page (after three) |
| Drbl.Drbl.Install | src/fxmark/bench/drbl.rs:34-45 | on success the core's slot holds the new descriptor and nothing else in the table changes. A core outside the table aborts with the table unchanged |
| Drbl.Drbl.Init | src/fxmark/bench/drbl.rs:31-48 | completes exactly when every core was handled. The table is the old one with each handled core's slot set to its descriptor, in list order, and every other slot unchanged. The log holds three calls per handled core, then the failed core's calls. A panic is an open of -1, a short write, or a core outside the 512 slots |
| Drbl.Drbl.Run | src/fxmark/bench/drbl.rs:50-92 | aborts, with no file call and no clock reading, exactly when the core is outside the table or its descriptor is -1. A read that does not return a full page aborts, and every read before it returned a full page of `fds[core]` at offset 0. Otherwise it returns exactly `duration` counts and the clock has advanced by at least `duration` seconds. Each count is timed by its own clock readings: one batch of 128 reads for every reading inside the second's window and none after. Every call before the final close and remove is a full-page read of `fds[core]` at offset 0, and the number of reads is the sum of the counts. It ends with close, then remove of the core's file, panicking exactly when remove returns non-zero |
| Drbl.Drbl.Second | src/fxmark/bench/drbl.rs:63-76 | the first clock reading opens a one-second window. Every later reading inside it is followed by one batch of 128 reads, and the first reading at or past its end stops the second, so the count is 128 times the readings inside. Each read is a full-page read of `fd` at offset 0, and the count equals the reads made. A read that returns less aborts, after only full reads, within the batch of the last reading, which was inside the window |
| Drbl.Drbl.Seconds | src/fxmark/bench/drbl.rs:50-79 | the countdown loop pushes one count per second, exactly `duration` of them unless a short read aborts it. Each count is timed by its own second's readings, as in `Second`, and the clock readings are those of the seconds in order. The clock advances by at least `duration` seconds, and the counts add up to the number of full-page reads made |
| Drbl.Drbl.Batch | src/fxmark/bench/drbl.rs:67-75 | 128 full-page reads of `fd` at offset 0, or an abort at the first read that returns less, after only full reads |
| Drbl.WindowsIndex | src/fxmark/bench/drbl.rs:62-77 | second `k` of a timed series counted 128 reads for each reading inside its own window |
| Drbl.WindowsReadings | src/fxmark/bench/drbl.rs:62-77 | over a whole run, the reads are 128 per clock reading, less the two readings of each second that start no batch |

## Left out

- Threads, `thread::spawn`/`join`, `Arc`, pinning, and the trampoline are left out. Only the sequential order of a round's steps is modelled. The barrier is a recorded store, and its waiting side (`b.wait()` in `run`) is not modelled.
- Topology discovery (`MachineTopology`, `max_open_files`, `MAX_OPEN_FILES`) is not part of this model. The core allocation is a parameter `allocate` of `Start` and `Bench`.
- `pin_thread` and `disable_dvfs` (prog/src/fxmark/utils/mod.rs) are platform side effects and are not modelled.
- Opening the CSV file, `print!`/`println!`, and the CSV-mode file-missing panic are I/O. A row is modelled as its twelve field texts and the line joining them. `{:?}` is modelled as plain double quotes around the name, without escaping.
- The `init` step of a round records only the core list. The open-file count, connection kind and RPC kind passed along with it (fxmark/src/fxmark/mod.rs:278-283) are not recorded.
- The MIX workload, the only one `bench` dispatches to, is not part of this model. Its `init` and `run` therefore appear only as steps of the plan, and a workload's series is an input of `ReportRows`.
- Fxmark.ReportRows: the worker is given a series and reports from `iops[1]` on, as the loop indexes it. A series of exactly `duration` entries, the length DRBL returns, therefore panics at the last second. The two are not connected in the source, because DRBL's `Bench` signature (src/fxmark/bench/drbl.rs:31, 50) differs from the trait at fxmark/src/fxmark/mod.rs:80-91.
- Abomonation's in-memory layout is a foreign library. The records are modelled as an explicit codec:
  - fields in declaration order;
  - fixed-width little-endian integers;
  - byte vectors with an 8-byte length prefix.
- The results of the file calls, `errno`, and the wall-clock times are oracles. The model records them but never fixes their values.
- The flag and mode values of `open` are those of Linux; other systems' `libc` may use other numbers.
- Drbl.Clock.Now: the model assumes each clock reading is strictly later than the last, which is what makes the one-second loop end. A real `Instant` may return equal readings.
- `usize` overflow is not modelled in `core_id + ccores * cid`, `cores * nclients` or `duration + 1`. Row fields are unbounded numbers.
- `PAGE_SIZE` in src/fxmark/bench/drbl.rs comes from its parent module, which is not part of this model. It is taken to be 1024, as at fxmark/src/fxmark/mod.rs:33.
- The `open_files` and `write_ratio` arguments of DRBL's `init` and `run` are unused in the source. They are accepted and ignored.
- `ConnType` and `RPCType` are kept as their displayed names. `ThreadMapping` has only `Sequential`, the mapping the driver uses; the topology module's other strategies are not part of this model.
- tests/server_tests.rs exercises a live gRPC server whose implementation is not part of this model.
