# ngram-sample-generator in Dafny

A model of the core of `ngram-sample-generator`, with proofs. The tool reads, for each n-gram
order 1 to 5, a table of row references `(file, byte offset)`. It splits the table into chunks
of `chunk_size` rows. For every chunk it writes one output file `<n>/<n>-<index:05>-of-<label:05>`
holding the referenced lines, concatenated in row order. Lines are fetched through a per-order
`FileCache`. The cache keeps whole source files in memory. It scores entries by recency, and it
evicts the entry with the lowest score when free memory is short. With `--continue`, chunks whose
output file already exists are skipped.

Modules, in dependency order:

- `Wrappers`: `Option`.
- `Seqs`: `Flatten`, the concatenation of a sequence of sequences, and `FlatMap`, a function
  applied to each element with the results concatenated.
- `Lines`: bytes, and `read_line` after a seek: `LineEnd`, `ReadLine`, `LinesFrom`.
- `Decimal`: `{}` and `{:05}` formatting of naturals, with their parse `Value`.
- `Naming`: the output file name and its injectivity.
- `Chunking`: `step_by`, `skip`/`take`, the chunk index, the count label, and the exact partition of
  the rows.
- `FileCache` and `FileCacheProperties`: the cache state, `remove_oldest`, `get`, and lemmas about
  sequences of calls.
- `Paths`: the row columns, `PathBuf::join` on Unix, and the path handed to the cache.
- `Pipeline`: one order's chunk loop. It is written twice:
  - as methods (`Resolve`, `ResolveChunk`, `ProcessChunk`, `RunOrder`) that thread a real cache
    through every row;
  - as a pure reference (`WriteChunk`, `WriteChunks`, `OrderOutputs`).
  The methods are proved equal to the reference.
- `Runner`: the five orders in sequence (`Run`, `Outputs`), and the resume theorem.

Inputs the program takes from its environment are parameters of the model:

- the disk, a map from path to bytes;
- the free memory at each cache miss, a number (a function of the order and the lookup count in
  `Runner.Run`);
- the iteration order of the `ttl` hash map: a sequence enumerating its keys, produced by the
  nondeterministic method `FileCache.IterationOrder`;
- the parquet tables, one sequence of `NgramIndex` rows per order;
- the output directory's current files, `None` when the directory does not exist.

The output tree is keyed by `Pipeline.OutFile(n, index, countLabel)`, which stands for the path
`<n>/<n>-<index:05>-of-<countLabel:05>`. `Pipeline.PathInjective` shows that two keys name the
same path only if they are equal.

Three behaviours of the code may surprise a reader. The model follows the code in each:

- Scores (src/file_cache.rs:49-55). Read as a recency rank, the score would make the path just
  resolved strictly the highest. It does not. The code adds one to the resolved entry, then
  subtracts one from every entry, the resolved one included. So the resolved entry keeps its
  score, or 0 after a miss, and every other entry loses one. After lookups of a, b and a again,
  a and b tie at -1 (`FileCacheProperties.ResolvedEntryMayTie`).
- Clearing the output (src/main.rs:36-38). Without `--continue`, `remove_dir_all(&output).unwrap()`
  runs whether or not the directory exists, and it aborts when the directory is missing. Yet the
  program is plainly meant to start without an output directory. Lines 40-42 create it when it is
  missing, and with `--continue` a run into a new path gets that far. The model keeps the code as
  written (`Runner.ClearOutputAsWritten`) and runs the orders from the evidently intended start
  (`Runner.InitialTree`). See Findings.
- The count label (src/main.rs:66). `count / c + 1` is kept as written. It is one more than the
  true number of chunks exactly when `c` divides `count` (`Chunking.LabelVersusChunkCount`). It
  only affects file names, and nothing in the code shows which count was meant. So it is
  documented, not corrected.

## Model

| member | source | states |
|---|---|---|
| Lines.LineEnd | src/file_cache.rs:57-60 | the end of the line read from `start` is one past the first newline at or after `start`, or the content length when there is none |
| Lines.ReadLine | src/file_cache.rs:57-62 | the line is the content slice at `start`: newline-free except possibly its last byte, ending with a newline or at the end of the content; it is empty exactly when `start` is at or past the end |
| Lines.ReadLineUnique | src/file_cache.rs:57-62 | any byte string with those properties is the line `ReadLine` returns, so the read is determined by content and offset |
| Lines.LinesReassemble | src/file_cache.rs:57-60 | reading line after line from an offset concatenates back to the rest of the content: nothing lost, nothing repeated |
| FileCache.FirstMin | src/file_cache.rs:25 | `min_by_key` yields nothing exactly when the map is empty, and otherwise a key whose score is at most every score and is the first such key in iteration order |
| FileCache.RemoveOldest | src/file_cache.rs:24-31 | `remove_oldest` removes exactly one entry from a non-empty cache and nothing from an empty one; the removed entry had a minimal score; both maps keep equal key sets; every surviving entry keeps its content and score |
| FileCache.AnyOldestCanBeEvicted | src/file_cache.rs:25-29 | every minimal-score entry is the one evicted under some iteration order, so the tie-break is left to the hash map |
| FileCache.IterationOrder | src/file_cache.rs:25 | walking the score map visits every key exactly once |
| FileCache.MaybeEvict | src/file_cache.rs:39-41 | an entry is removed if and only if memory is short and the cache is non-empty; at most one is removed, it had a minimal score, and the rest are unchanged |
| FileCache.Insert | src/file_cache.rs:43-46 | a miss adds the file's content and score 0 together, growing the cache by exactly one entry and changing no other entry |
| FileCache.Load | src/file_cache.rs:34-47 | a hit leaves the cache unchanged; a miss caches the file's disk content with score 0; some entry is evicted if and only if the lookup is a miss under memory pressure on a non-empty cache; at most one entry is evicted, it had a minimal score, and the cache grows by at most one |
| FileCache.Touch | src/file_cache.rs:49-55 | after the score update the resolved entry's score is unchanged and every other entry's score is one lower; no key is added or removed |
| FileCache.Get | src/file_cache.rs:33-63 | after `get` the path is cached, with its old content on a hit and its disk content on a miss; the line is read from that content at `start`; a hit changes no buffer; the eviction facts of `Load` hold; the resolved entry's score is its old score (0 after a miss) and every other surviving score drops by one |
| FileCacheProperties.GetReadsDisk | src/file_cache.rs:43-60 | a cache that mirrors the disk still mirrors it after `get`, and the line returned is the line of the file on disk |
| FileCacheProperties.LineIndependentOfHistory | src/file_cache.rs:43-60 | two caches with different histories, memory readings and iteration orders return the same line for the same request |
| FileCacheProperties.RepeatedGetIsStable | src/file_cache.rs:34-60 | repeating a request returns the same line and is a hit that leaves every buffer as it was |
| FileCacheProperties.GetRaisesRelativeRank | src/file_cache.rs:49-55 | a hit raises the resolved entry by exactly one relative to every other surviving entry |
| FileCacheProperties.GetKeepsScoresNonPositive | src/file_cache.rs:46-55 | if no score is positive before `get`, none is positive after it |
| FileCacheProperties.ResolvedEntryMayTie | src/file_cache.rs:49-55 | after lookups of a, b and a again without memory pressure, a and b both have score -1: the resolved entry is not strictly highest |
| Decimal.Digits | src/main.rs:63-64 | `{}` formatting yields a non-empty string of decimal digits with no leading zero, of length one exactly for values below ten |
| Decimal.ValueOfDigits | src/main.rs:63-64 | reading back a `{}`-formatted number gives the number |
| Decimal.Padded5 | src/main.rs:63-66 | `{:05}` formatting yields at least five decimal digits |
| Decimal.Padded5RoundTrip | src/main.rs:63-66 | reading back a `{:05}`-formatted number gives the number, leading zeros included |
| Decimal.Padded5Injective | src/main.rs:63-66 | two numbers have the same `{:05}` text if and only if they are equal |
| Naming.OutputNameInjective | src/main.rs:62-67 | two output names are equal if and only if their order, chunk index and count label are equal |
| Pipeline.PathInjective | src/main.rs:62-67 | two output-file keys give the same (order directory, file name) path if and only if they are equal |
| Chunking.ChunkRowsIsSkipTake | src/main.rs:79-82 | `skip(offset).take(c)` selects the rows from `offset` up to `min(offset + c, count)`, at most `c` of them, in order |
| Chunking.StepByShape | src/main.rs:61 | `(lo..hi).step_by(c)` yields `lo + i*c` at position i and has `ceil((hi - lo) / c)` elements |
| Chunking.StepByBelow | src/main.rs:61 | every start produced by `step_by` lies within the range |
| Chunking.ChunkStartsExact | src/main.rs:61-65 | the chunk starts are exactly `k*c` for `k < ceil(count / c)`, and the chunk index `offset / c` of the start at position k is k |
| Chunking.ChunkCovers | src/main.rs:81-82 | chunk k starts inside the rows and holds exactly the rows `[k*c, min((k+1)*c, count))` |
| Chunking.RowInExactlyOneChunk | src/main.rs:61 | every row index lies in exactly one chunk, the one with index `i / c` |
| Chunking.ChunksPartitionRows | src/main.rs:79-82 | the chunks concatenated in order are exactly the rows: none skipped, none repeated |
| Chunking.LabelVersusChunkCount | src/main.rs:66 | the label `count / c + 1` is at least the number of chunks; it equals that number exactly when `c` does not divide `count`, and exceeds it by one exactly when `c` does |
| Chunking.TenRowsInChunksOfFour | src/main.rs:61 | ten rows in chunks of four start at 0, 4 and 8 and have widths 4, 4 and 2 |
| Paths.AsU64 | src/main.rs:87 | the `as u64` cast keeps non-negative values and adds 2^64 to negative 64-bit values, always giving a value below 2^64 |
| Paths.Join | src/main.rs:92 | joining keeps an absolute file as is; a relative file is appended to the base, separated by `/` when the base is non-empty and does not already end in one, so the result is exactly one byte longer than base and file together when a separator is inserted and exactly as long otherwise |
| Paths.RowPathInjective | src/main.rs:90-95 | without `--ngrams`, or for two files that are both relative or both absolute, two row files give the same cache path if and only if they are the same file |
| Paths.RowPathMixedCollide | src/main.rs:90-95 | with a base directory, a relative and an absolute file can share a cache path: under `/x`, `a` and `/x/a` both become `/x/a` |
| Paths.JoinInjective | src/main.rs:92 | under one base, distinct relative files give distinct paths |
| Pipeline.ChunkSizePositive | src/main.rs:34 | `chunk_size.unwrap_or(DEFAULT_CHUNK_SIZE)` is zero, so that `step_by` at line 61 panics, exactly when `--chunk_size 0` is given explicitly |
| Pipeline.NegativeOffsetReadsNothing | src/main.rs:84-95 | a negative offset column, cast `as u64`, seeks past the end of any file of at most 2^63 bytes, so the row contributes an empty line |
| Pipeline.ChunkTextAppend | src/main.rs:97-98 | the output for rows `a + b` is the output for `a` followed by the output for `b` |
| Pipeline.Resolve | src/main.rs:90-95 | one lookup through a cache that mirrors the disk returns the line of the file on disk and leaves the cache valid and mirroring the disk |
| Pipeline.ResolveChunk | src/main.rs:79-98 | resolving a chunk's rows through the cache, one lookup per row, produces the lines of those rows in order with no separators |
| Pipeline.ProcessChunk | src/main.rs:62-100 | one pass of the chunk loop skips the chunk when resuming and its file exists, and otherwise writes that file with the chunk's lines; only a chunk that is read needs its rows' files on disk |
| Pipeline.RunOrder | src/main.rs:59-103 | the chunk loop of one order, with a fresh cache shared by all its chunks, produces the reference tree `OrderOutputs`; it needs the rows' files only for the chunks it does not skip (`Ready`) |
| Pipeline.StartFound | src/main.rs:61-71 | when the loop reaches a chunk, that chunk's file is present exactly when it was present before the loop, since no earlier chunk of the order writes it; so the chunks the loop reads are the ones `Ready` provides files for |
| Pipeline.SkippedChunkNeedsNoFile | src/main.rs:69-71 | a chunk whose file already exists under `--continue` is never read: an order whose only row names a missing file can run when its output file is present, and cannot when it is absent |
| Pipeline.OrderOutputsKeys | src/main.rs:61-100 | after one order the tree holds the files it held before plus one file per chunk, and nothing else |
| Pipeline.OrderOutputsChunk | src/main.rs:69-100 | after one order, chunk k's file is present and holds the chunk's lines, unless resuming found it already present, in which case it is unchanged |
| Pipeline.OrderChunkOnDisk | src/main.rs:69-95 | in an order that is `Ready`, every chunk that is not skipped has all its rows' files on disk, so the lines written for it are real file lines |
| Pipeline.OrderOutputsKeepsOther | src/main.rs:61-103 | a file that is not one of the order's chunk files is left unchanged by that order |
| Pipeline.ChunkOutputsConcatenate | src/main.rs:79-98 | an order's chunk outputs, concatenated in index order, are the lines of all its rows in row order |
| Runner.ClearOutputAsWritten | src/main.rs:36-42 | as written, a run without `--continue` aborts exactly when the output directory is missing; otherwise it starts from the intended tree |
| Runner.InitialTree | src/main.rs:36-42 | the intended start: the existing files when resuming (an empty tree if the directory was missing), an empty tree otherwise |
| Runner.Run | src/main.rs:36-104 | the five orders processed in sequence from the intended start, each with its own fresh cache, produce the reference tree `Outputs`; only the chunks that are read need their rows' files on disk (`CanRun`) |
| Runner.ReadyAfter | src/main.rs:44-71 | earlier orders write only into their own directories, so every order of a run that `CanRun` finds its chunks ready when its loop starts |
| Runner.RunStep | src/main.rs:44-104 | order n of such a run is ready and takes the tree of orders 1..n-1 to the tree of orders 1..n |
| Runner.RunOrdersKeys | src/main.rs:44-104 | after orders 1..m the tree holds the starting files plus the files of those orders' chunks, and nothing else |
| Runner.RunOrdersKeepsOther | src/main.rs:44-104 | a file that no order writes keeps its content |
| Runner.RunOrdersHas | src/main.rs:44-104 | a file is in the tree after orders 1..m if and only if it was there at the start or one of those orders writes it |
| Runner.RunOrdersChunk | src/main.rs:44-100 | chunk k of order n ends with its rows' lines, or with the existing file when resuming and the file was present |
| Runner.ChunkOnDisk | src/main.rs:69-95 | in a run that `CanRun`, every chunk that is not skipped at the start has all its rows' files on disk |
| Runner.FullRunOutputs | src/main.rs:36-100 | a run without `--continue` leaves exactly one file per chunk of every order, each holding that chunk's lines, whatever was there before |
| Runner.ResumeCompletesRun | src/main.rs:69-71 | resuming from any part of a full run's output (each present file complete) gives exactly the tree of an uninterrupted full run, and is possible whenever the full run is |
| Runner.ResumeNeedsLess | src/main.rs:69-71 | a resumed run reads a subset of the chunks a full run reads, so whatever files a full run needs suffice for it |
| Runner.AllKeysIgnoreResume | src/main.rs:62-67 | which file names a run writes does not depend on `--continue` |

## Left out

- Parquet reading (`SerializedFileReader`, `num_rows`, `get_string`, `get_long`) is an external library. Each order's rows are a given sequence of rows. `Paths.FromColumns` (src/main.rs:84-88) builds a row from its two column values. It stands apart from the pipeline, whose tables are taken as rows already built this way; `Pipeline.NegativeOffsetReadsNothing` says what its `as u64` cast means downstream.
- Command-line parsing, `println!`, `create_dir` of the order subdirectories, and `fs::write` are I/O. Directories are implicit in the output-file keys, and a write is a map update.
- Free memory is a parameter. The `sysinfo` query and the possible underflow of `total - used` are not modelled.
- FileCache.UnderPressure: `(1.5 * size as f64) as u64` is modelled as `3 * size / 2` rounded down. This equals the float computation while `3 * size` is exactly representable in an `f64`, i.e. below 2^53.
- The file size comes from `fs::metadata` and the content from `fs::read`. Both are read from the same disk map, so the file cannot change between the two calls.
- Lines.ReadLine returns bytes. `read_line` into a `String` also checks UTF-8 and panics on invalid input, which is not modelled. `display().to_string()` on the joined path is taken to be lossless.
- Panics on `step_by(0)`, on a missing source file, or on an I/O error are preconditions instead. The chunk size is positive (`Runner.WellFormed`). Every row of a chunk the loop reads names a file on disk (`Pipeline.Ready`, `Runner.CanRun`). Rows of chunks skipped under `--continue` may name missing files, since they are never resolved. `Pipeline.RowLine` is total: it gives a row whose file is missing an empty line. The program would abort on such a row, and no member that runs the loop reaches one.
- Scores are unbounded integers. The `i64` score would need more than 2^63 accesses to overflow. Offsets and counts are unbounded naturals instead of `u64`/`usize`, and the `chunk_size as usize` conversion is the identity.
- Paths.Join follows Unix rules only, with `/` as the separator. Other platforms' prefixes are not modelled.
- Runner.ResumeCompletesRun assumes each chunk file present when resuming is complete. A file truncated by a crash mid-write would be kept as it is, exactly as the source does, and is outside the theorem.
- Files in the output directory other than chunk files are not represented. The program never reads them, and with `--continue` it never writes them.

## Findings

| source | as written | input that shows it | evidently intended | confidence | as-written member | corrected member |
|---|---|---|---|---|---|---|
| src/main.rs:36-38 | without `--continue`, `fs::remove_dir_all(&output).unwrap()` runs unconditionally and panics when the output directory does not exist | first run without `--continue` into a new output path (`Runner.FreshOutputAborts`) | remove the tree only if present: lines 40-42 create the output directory when it is missing, and with `--continue` a run into a new path gets past them | high, not executed | Runner.ClearOutputAsWritten | Runner.InitialTree |
