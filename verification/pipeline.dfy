/**
 The chunk pipeline of `main`: for each n-gram order 1..5, with one fresh cache
 per order, walk the chunk starts, skip a chunk whose output already exists in
 resume mode, and otherwise write the concatenation of the lines its rows
 resolve to. The output tree maps each output file present to its content.
 */
module Pipeline {

  import opened Wrappers
  import opened Seqs
  import opened Lines
  import opened FileCache
  import opened FileCacheProperties
  import opened Paths
  import opened Chunking
  import opened Naming

  /** The chunk size used when `--chunk_size` is not given. */
  const DEFAULT_CHUNK_SIZE: nat := 2500000

  /** The n-gram orders, processed in this sequence. */
  const FIRST_ORDER: nat := 1
  const LAST_ORDER: nat := 5

  /** Command-line options: `--chunk_size`, `--continue`, `--ngrams`. */
  datatype Config = Config(chunkSize: Option<nat>, resume: bool, ngrams: Option<Path>)

  function ChunkSize(cfg: Config): (c: nat)
    ensures cfg.chunkSize.None? ==> c == DEFAULT_CHUNK_SIZE
  {
    cfg.chunkSize.GetOr(DEFAULT_CHUNK_SIZE)
  }

  /** The chunk size is positive, as `step_by` requires, unless `--chunk_size 0`
      is given explicitly: the default is always usable. */
  lemma ChunkSizePositive(cfg: Config)
    ensures ChunkSize(cfg) == 0 <==> cfg.chunkSize == Some(0)
  {
  }

  /** An output file: `<n>/<n>-<index:05>-of-<countLabel:05>` under the
      output directory. */
  datatype OutFile = OutFile(n: nat, index: nat, countLabel: nat) {
    /** The (order directory, file name) the file is written to. */
    function Path(): (p: (nat, string))
      ensures p.0 == n
    {
      (n, OutputName(n, index, countLabel))
    }
  }

  /** Distinct output files have distinct paths, so the tree below may be
      keyed by `OutFile` without merging two files of the source's tree. */
  lemma PathInjective(f: OutFile, g: OutFile)
    ensures f.Path() == g.Path() <==> f == g
  {
    OutputNameInjective(f.n, f.index, f.countLabel, g.n, g.index, g.countLabel);
  }

  /** The output tree: content of every output file present. */
  type Tree = map<OutFile, seq<byte>>

  /** The work for one order: its rows and the options that shape its chunks. */
  datatype Job = Job(n: nat, rows: seq<NgramIndex>, chunkSize: nat, resume: bool, ngrams: Option<Path>)

  /** Whether the chunk loop reads the rows of chunk k, given the tree it
      finds: in resume mode a chunk whose file is present is skipped before
      any of its rows is read. */
  predicate Needed(job: Job, tree: Tree, k: nat)
    requires job.chunkSize > 0
  {
    !(job.resume && ChunkKey(job.n, |job.rows|, job.chunkSize, k) in tree)
  }

  /** `step_by` has a positive step (it panics on zero), and every chunk the
      loop reads, starting from `tree`, names only files that exist (`get`
      aborts otherwise). Chunks skipped in resume mode may name missing files. */
  predicate Ready(job: Job, fs: FileSystem, tree: Tree) {
    && job.chunkSize > 0
    && forall k | 0 <= k < CeilDiv(|job.rows|, job.chunkSize) && Needed(job, tree, k) ::
         AllResolvable(fs, job.ngrams, ChunkRows(job.rows, k * job.chunkSize, job.chunkSize))
  }

  /** The line a row resolves to, read straight from the disk. A row whose
      file is missing has no line: the program aborts on such a row, and
      every member that runs the chunk loop requires that the chunks it
      reads have none. */
  function RowLine(fs: FileSystem, ngrams: Option<Path>, row: NgramIndex): seq<byte>
  {
    var path := RowPath(ngrams, row.file);
    if path in fs then ReadLine(fs[path], row.startInFile) else []
  }

  predicate AllResolvable(fs: FileSystem, ngrams: Option<Path>, rows: seq<NgramIndex>) {
    forall i | 0 <= i < |rows| :: RowPath(ngrams, rows[i].file) in fs
  }

  /** A row whose offset column is negative is read from `2^64` plus that
      offset, past the end of any file shorter than `2^63` bytes, so it
      contributes an empty line. */
  lemma NegativeOffsetReadsNothing(fs: FileSystem, ngrams: Option<Path>, file: string, offset: int)
    requires -TWO_TO_64 / 2 <= offset < 0
    requires RowPath(ngrams, file) in fs ==> |fs[RowPath(ngrams, file)]| <= TWO_TO_64 / 2
    ensures RowLine(fs, ngrams, FromColumns(file, offset)) == []
  {
  }

  /** A chunk's output: the rows' lines, in row order, with no separators. */
  function ChunkText(fs: FileSystem, ngrams: Option<Path>, rows: seq<NgramIndex>): seq<byte>
    decreases |rows|
  {
    if |rows| == 0 then [] else RowLine(fs, ngrams, rows[0]) + ChunkText(fs, ngrams, rows[1..])
  }

  function LineOf(fs: FileSystem, ngrams: Option<Path>): NgramIndex -> seq<byte>
  {
    row => RowLine(fs, ngrams, row)
  }

  /** A chunk's text is `FlatMap` of the row lines, so it inherits the
      concatenation law of `FlatMap`. */
  lemma {:induction false} ChunkTextIsFlatMap(fs: FileSystem, ngrams: Option<Path>, rows: seq<NgramIndex>)
    ensures ChunkText(fs, ngrams, rows) == FlatMap(LineOf(fs, ngrams), rows)
    decreases |rows|
  {
    if |rows| > 0 {
      ChunkTextIsFlatMap(fs, ngrams, rows[1..]);
    }
  }

  /** The text of consecutive rows is the text of the first part followed by
      the text of the second. */
  lemma ChunkTextAppend(fs: FileSystem, ngrams: Option<Path>, a: seq<NgramIndex>, b: seq<NgramIndex>)
    requires AllResolvable(fs, ngrams, a) && AllResolvable(fs, ngrams, b)
    ensures AllResolvable(fs, ngrams, a + b)
    ensures ChunkText(fs, ngrams, a + b) == ChunkText(fs, ngrams, a) + ChunkText(fs, ngrams, b)
  {
    var ab := a + b;
    assert AllResolvable(fs, ngrams, ab) by {
      forall i | 0 <= i < |ab|
        ensures RowPath(ngrams, ab[i].file) in fs
      {
        if i >= |a| {
          assert ab[i] == b[i - |a|];
        }
      }
    }
    ChunkTextIsFlatMap(fs, ngrams, a);
    ChunkTextIsFlatMap(fs, ngrams, b);
    ChunkTextIsFlatMap(fs, ngrams, ab);
    FlatMapAppend(LineOf(fs, ngrams), a, b);
  }

  /** The key an output file has: `<n>/<n>-<index:05>-of-<label:05>`. */
  function ChunkKey(n: nat, count: nat, c: nat, index: nat): (key: OutFile)
    requires c > 0
  {
    OutFile(n, index, Label(count, c))
  }

  /** One iteration of the chunk loop for the chunk starting at `offset`. */
  function WriteChunk(job: Job, fs: FileSystem, tree: Tree, offset: nat): Tree
    requires job.chunkSize > 0
  {
    var key := ChunkKey(job.n, |job.rows|, job.chunkSize, offset / job.chunkSize);
    var rows := ChunkRows(job.rows, offset, job.chunkSize);
    if job.resume && key in tree then tree
    else tree[key := ChunkText(fs, job.ngrams, rows)]
  }

  /** The chunk loop over the given starts, in order. */
  function WriteChunks(job: Job, fs: FileSystem, tree: Tree, offsets: seq<nat>): Tree
    requires job.chunkSize > 0
    decreases |offsets|
  {
    if |offsets| == 0 then tree
    else WriteChunk(job, fs, WriteChunks(job, fs, tree, offsets[..|offsets| - 1]), offsets[|offsets| - 1])
  }

  lemma WriteChunksSnoc(job: Job, fs: FileSystem, tree: Tree, offsets: seq<nat>, j: nat)
    requires job.chunkSize > 0
    requires j < |offsets|
    ensures WriteChunks(job, fs, tree, offsets[..j + 1])
         == WriteChunk(job, fs, WriteChunks(job, fs, tree, offsets[..j]), offsets[j])
  {
    assert offsets[..j + 1][..j] == offsets[..j];
  }

  /** The output tree after one order has been processed. */
  function OrderOutputs(job: Job, fs: FileSystem, tree: Tree): Tree
    requires job.chunkSize > 0
  {
    WriteChunks(job, fs, tree, ChunkStarts(|job.rows|, job.chunkSize))
  }

  /** Extending the rows by one extends the text by that row's line. */
  lemma ChunkTextSnoc(fs: FileSystem, ngrams: Option<Path>, rows: seq<NgramIndex>, i: nat)
    requires i < |rows|
    ensures ChunkText(fs, ngrams, rows[..i + 1]) == ChunkText(fs, ngrams, rows[..i]) + RowLine(fs, ngrams, rows[i])
  {
    var one := [rows[i]];
    assert one[1..] == [];
    assert ChunkText(fs, ngrams, one) == RowLine(fs, ngrams, rows[i]);
    assert rows[..i + 1] == rows[..i] + one;
    ChunkTextIsFlatMap(fs, ngrams, rows[..i]);
    ChunkTextIsFlatMap(fs, ngrams, one);
    ChunkTextIsFlatMap(fs, ngrams, rows[..i + 1]);
    FlatMapAppend(LineOf(fs, ngrams), rows[..i], one);
  }


  /** One `buffer.get(&path, start)` of the chunk loop: the map is walked in
      its own iteration order should an eviction be needed. */
  method Resolve(cache: Cache, fs: FileSystem, freeMemory: nat, path: Path, start: nat)
      returns (cache': Cache, line: seq<byte>)
    requires Valid(cache) && Coherent(cache, fs)
    requires path in fs
    ensures Valid(cache') && Coherent(cache', fs)
    ensures line == ReadLine(fs[path], start)
  {
    var order := IterationOrder(cache.ttl.Keys);
    GetReadsDisk(cache, fs, freeMemory, order, path, start);
    var access := Get(cache, fs, freeMemory, order, path, start);
    cache', line := access.cache, access.line;
  }

  /** The `map(...).collect().join("")` of one chunk: one `get` per row, in
      row order, through the shared cache. The i-th lookup sees free memory
      `freeMemory(calls + i)`. */
  method ResolveChunk(cache: Cache, fs: FileSystem, ngrams: Option<Path>, rows: seq<NgramIndex>,
                      freeMemory: nat -> nat, calls: nat)
      returns (cache': Cache, text: seq<byte>, calls': nat)
    requires Valid(cache) && Coherent(cache, fs)
    requires AllResolvable(fs, ngrams, rows)
    ensures Valid(cache') && Coherent(cache', fs)
    ensures text == ChunkText(fs, ngrams, rows)
    ensures calls' == calls + |rows|
  {
    cache' := cache;
    text := [];
    calls' := calls;
    var i := 0;
    while i < |rows|
      invariant 0 <= i <= |rows|
      invariant calls' == calls + i
      invariant Valid(cache') && Coherent(cache', fs)
      invariant text == ChunkText(fs, ngrams, rows[..i])
    {
      var line;
      cache', line := Resolve(cache', fs, freeMemory(calls'), RowPath(ngrams, rows[i].file), rows[i].startInFile);
      ChunkTextSnoc(fs, ngrams, rows, i);
      text := text + line;
      calls' := calls' + 1;
      i := i + 1;
    }
    assert rows[..i] == rows;
  }

  /** One iteration of the chunk loop: in resume mode an existing output is
      left alone; otherwise the chunk's rows are resolved and written. */
  method ProcessChunk(job: Job, fs: FileSystem, freeMemory: nat -> nat, cache: Cache, calls: nat,
                      tree: Tree, offset: nat)
      returns (cache': Cache, calls': nat, out: Tree)
    requires job.chunkSize > 0
    requires !(job.resume && OffsetKey(job, offset) in tree) ==>
      AllResolvable(fs, job.ngrams, ChunkRows(job.rows, offset, job.chunkSize))
    requires Valid(cache) && Coherent(cache, fs)
    ensures Valid(cache') && Coherent(cache', fs)
    ensures out == WriteChunk(job, fs, tree, offset)
  {
    var c := job.chunkSize;
    var key := ChunkKey(job.n, |job.rows|, c, offset / c);
    cache', calls', out := cache, calls, tree;
    if !(job.resume && key in tree) {
      var rows := ChunkRows(job.rows, offset, c);
      var text;
      cache', text, calls' := ResolveChunk(cache, fs, job.ngrams, rows, freeMemory, calls);
      out := tree[key := text];
    }
  }

  /** The processing of one order, as `main` performs it: one fresh cache
      shared by all chunks, one `get` per row of every chunk that is not
      skipped. Free memory readings come from `freeMemory`; eviction ties are
      broken by the cache's own iteration order. */
  method RunOrder(job: Job, fs: FileSystem, freeMemory: nat -> nat, tree: Tree) returns (out: Tree)
    requires Ready(job, fs, tree)
    ensures out == OrderOutputs(job, fs, tree)
  {
    var count := |job.rows|;
    var c := job.chunkSize;
    var starts := StepBy(0, count, c);
    var cache := FileCache.Empty;
    var calls: nat := 0;
    out := tree;
    for j := 0 to |starts|
      invariant Valid(cache) && Coherent(cache, fs)
      invariant out == WriteChunks(job, fs, tree, starts[..j])
    {
      WriteChunksSnoc(job, fs, tree, starts, j);
      StartFound(job, fs, tree, j);
      cache, calls, out := ProcessChunk(job, fs, freeMemory, cache, calls, out, starts[j]);
    }
    assert starts[..|starts|] == starts;
  }

  /** When the loop reaches start j, the chunk's file is present exactly when
      it was present before the loop (no earlier chunk writes it), so the loop
      reads the chunk's rows exactly when `Ready` asks for their files. */
  lemma StartFound(job: Job, fs: FileSystem, tree: Tree, j: nat)
    requires Ready(job, fs, tree)
    requires j < |ChunkStarts(|job.rows|, job.chunkSize)|
    ensures var offset := ChunkStarts(|job.rows|, job.chunkSize)[j];
      var key := OffsetKey(job, offset);
      && (key in WriteChunks(job, fs, tree, ChunkStarts(|job.rows|, job.chunkSize)[..j]) <==> key in tree)
      && (!(job.resume && key in tree) ==> AllResolvable(fs, job.ngrams, ChunkRows(job.rows, offset, job.chunkSize)))
  {
    var c := job.chunkSize;
    var starts := ChunkStarts(|job.rows|, c);
    ChunkStartsExact(|job.rows|, c);
    var init := starts[..j + 1];
    assert init[..j] == starts[..j];
    assert forall i | 0 <= i < j :: init[i] / c == i;
    LastKeyFresh(job, init);
    WriteChunksKeys(job, fs, tree, starts[..j]);
    assert OffsetKey(job, starts[j]) == ChunkKey(job.n, |job.rows|, c, j);
    assert Needed(job, tree, j) == !(job.resume && OffsetKey(job, starts[j]) in tree);
  }

  /** In resume mode a chunk whose file is present may name a file that is no
      longer on disk: one row in a chunk of one, whose `1-00000-of-00002`
      exists, needs no file, while the same order without that file does. */
  lemma SkippedChunkNeedsNoFile()
    ensures var job := Job(1, [NgramIndex("gone", 0)], 1, true, None);
      && Ready(job, map[], map[OutFile(1, 0, 2) := []])
      && !Ready(job, map[], map[])
  {
    var job := Job(1, [NgramIndex("gone", 0)], 1, true, None);
    assert CeilDiv(1, 1) == 1;
    assert ChunkKey(1, 1, 1, 0) == OutFile(1, 0, 2);
    assert ChunkRows(job.rows, 0 * 1, 1) == job.rows;
    var none: FileSystem := map[];
    assert Needed(job, map[], 0);
    assert !AllResolvable(none, None, ChunkRows(job.rows, 0 * 1, 1)) by {
      assert RowPath(None, job.rows[0].file) !in none;
    }
  }

  /** The file a chunk start writes to. */
  function OffsetKey(job: Job, offset: nat): OutFile
    requires job.chunkSize > 0
  {
    ChunkKey(job.n, |job.rows|, job.chunkSize, offset / job.chunkSize)
  }

  /** The content the chunk at `offset` has once the loop has passed it: the
      existing file in resume mode, the freshly resolved text otherwise. */
  function Expected(job: Job, fs: FileSystem, tree: Tree, offset: nat): seq<byte>
    requires job.chunkSize > 0
  {
    var key := OffsetKey(job, offset);
    if job.resume && key in tree then tree[key]
    else ChunkText(fs, job.ngrams, ChunkRows(job.rows, offset, job.chunkSize))
  }

  /** The files the chunk loop visits, given its starts. */
  function KeysOf(job: Job, offsets: seq<nat>): set<OutFile>
    requires job.chunkSize > 0
    decreases |offsets|
  {
    if |offsets| == 0 then {}
    else KeysOf(job, offsets[..|offsets| - 1]) + {OffsetKey(job, offsets[|offsets| - 1])}
  }

  lemma {:induction false} KeysOfMember(job: Job, offsets: seq<nat>, i: nat)
    requires job.chunkSize > 0
    requires i < |offsets|
    ensures OffsetKey(job, offsets[i]) in KeysOf(job, offsets)
    decreases |offsets|
  {
    var m := |offsets| - 1;
    if i < m {
      KeysOfMember(job, offsets[..m], i);
    }
  }

  lemma {:induction false} KeysOfWitness(job: Job, offsets: seq<nat>, key: OutFile) returns (i: nat)
    requires job.chunkSize > 0
    requires key in KeysOf(job, offsets)
    ensures i < |offsets| && key == OffsetKey(job, offsets[i])
    decreases |offsets|
  {
    var m := |offsets| - 1;
    if key == OffsetKey(job, offsets[m]) {
      i := m;
    } else {
      i := KeysOfWitness(job, offsets[..m], key);
    }
  }

  /** One pass of the loop body writes (at most) the chunk's own file. */
  lemma WriteChunkEffect(job: Job, fs: FileSystem, tree: Tree, offset: nat)
    requires job.chunkSize > 0
    ensures var out := WriteChunk(job, fs, tree, offset);
      && out.Keys == tree.Keys + {OffsetKey(job, offset)}
      && out[OffsetKey(job, offset)] == Expected(job, fs, tree, offset)
      && (forall key | key in tree && key != OffsetKey(job, offset) :: out[key] == tree[key])
  {
  }

  lemma LastKeyFresh(job: Job, offsets: seq<nat>)
    requires job.chunkSize > 0
    requires |offsets| > 0
    requires forall i | 0 <= i < |offsets| - 1 :: offsets[i] / job.chunkSize != offsets[|offsets| - 1] / job.chunkSize
    ensures OffsetKey(job, offsets[|offsets| - 1]) !in KeysOf(job, offsets[..|offsets| - 1])
  {
    var m := |offsets| - 1;
    var key := OffsetKey(job, offsets[m]);
    if key in KeysOf(job, offsets[..m]) {
      var i := KeysOfWitness(job, offsets[..m], key);
    }
  }

  /** The chunk loop creates exactly the files of the chunks it visits. */
  lemma {:induction false} WriteChunksKeys(job: Job, fs: FileSystem, tree: Tree, offsets: seq<nat>)
    requires job.chunkSize > 0
    ensures WriteChunks(job, fs, tree, offsets).Keys == tree.Keys + KeysOf(job, offsets)
    decreases |offsets|
  {
    if |offsets| > 0 {
      var m := |offsets| - 1;
      WriteChunksKeys(job, fs, tree, offsets[..m]);
      WriteChunkEffect(job, fs, WriteChunks(job, fs, tree, offsets[..m]), offsets[m]);
    }
  }

  /** A file that is no chunk's output survives the chunk loop unchanged. */
  lemma {:induction false} WriteChunksKeepsOther(job: Job, fs: FileSystem, tree: Tree, offsets: seq<nat>, key: OutFile)
    requires job.chunkSize > 0
    requires key in tree && key !in KeysOf(job, offsets)
    ensures key in WriteChunks(job, fs, tree, offsets)
    ensures WriteChunks(job, fs, tree, offsets)[key] == tree[key]
    decreases |offsets|
  {
    if |offsets| > 0 {
      var m := |offsets| - 1;
      WriteChunksKeepsOther(job, fs, tree, offsets[..m], key);
      WriteChunkEffect(job, fs, WriteChunks(job, fs, tree, offsets[..m]), offsets[m]);
    }
  }

  /** With pairwise distinct chunk indices, the i-th visited chunk's file ends
      up with its expected content. */
  lemma {:induction false} WriteChunksValue(job: Job, fs: FileSystem, tree: Tree, offsets: seq<nat>, i: nat)
    requires job.chunkSize > 0
    requires forall a, b | 0 <= a < b < |offsets| :: offsets[a] / job.chunkSize != offsets[b] / job.chunkSize
    requires i < |offsets|
    ensures OffsetKey(job, offsets[i]) in WriteChunks(job, fs, tree, offsets)
    ensures WriteChunks(job, fs, tree, offsets)[OffsetKey(job, offsets[i])] == Expected(job, fs, tree, offsets[i])
    decreases |offsets|
  {
    var m := |offsets| - 1;
    var init := offsets[..m];
    var prev := WriteChunks(job, fs, tree, init);
    var out := WriteChunks(job, fs, tree, offsets);
    assert out == WriteChunk(job, fs, prev, offsets[m]);
    var key := OffsetKey(job, offsets[i]);
    WriteChunkEffect(job, fs, prev, offsets[m]);
    if i < m {
      assert init[i] == offsets[i];
      WriteChunksValue(job, fs, tree, init, i);
      assert key in prev && key != OffsetKey(job, offsets[m]);
      assert out[key] == prev[key];
    } else {
      LastKeyFresh(job, offsets);
      WriteChunksKeys(job, fs, tree, init);
      if key in tree {
        WriteChunksKeepsOther(job, fs, tree, init, key);
      }
      assert Expected(job, fs, prev, offsets[m]) == Expected(job, fs, tree, offsets[m]);
      assert out[key] == Expected(job, fs, prev, offsets[m]);
    }
  }

  /** The files of one order's chunks. */
  function OrderKeys(job: Job): set<OutFile>
    requires job.chunkSize > 0
  {
    set k | 0 <= k < CeilDiv(|job.rows|, job.chunkSize) :: ChunkKey(job.n, |job.rows|, job.chunkSize, k)
  }

  /** An order writes only into its own directory. */
  lemma OrderKeysInDirectory(job: Job, key: OutFile)
    requires job.chunkSize > 0
    requires key in OrderKeys(job)
    ensures key.n == job.n
  {
    var k :| 0 <= k < CeilDiv(|job.rows|, job.chunkSize) && key == ChunkKey(job.n, |job.rows|, job.chunkSize, k);
  }

  lemma StartsDistinct(count: nat, c: nat)
    requires c > 0
    ensures forall a, b | 0 <= a < b < |ChunkStarts(count, c)| ::
      ChunkStarts(count, c)[a] / c != ChunkStarts(count, c)[b] / c
  {
    ChunkStartsExact(count, c);
  }

  /** After one order the output tree holds exactly the files it held before
      plus one file per chunk. */
  lemma OrderOutputsKeys(job: Job, fs: FileSystem, tree: Tree)
    requires job.chunkSize > 0
    ensures OrderOutputs(job, fs, tree).Keys == tree.Keys + OrderKeys(job)
  {
    var c, count := job.chunkSize, |job.rows|;
    var starts := ChunkStarts(count, c);
    ChunkStartsExact(count, c);
    assert KeysOf(job, starts) == OrderKeys(job) by {
      forall key | key in OrderKeys(job)
        ensures key in KeysOf(job, starts)
      {
        var k :| 0 <= k < CeilDiv(count, c) && key == ChunkKey(job.n, count, c, k);
        assert key == OffsetKey(job, starts[k]);
        KeysOfMember(job, starts, k);
      }
      forall key | key in KeysOf(job, starts)
        ensures key in OrderKeys(job)
      {
        var i := KeysOfWitness(job, starts, key);
        assert key == ChunkKey(job.n, count, c, i);
      }
    }
    WriteChunksKeys(job, fs, tree, starts);
  }

  /** After one order, chunk k's file `n-kkkkk-of-LLLLL` holds the chunk's
      lines, unless resume mode found that file already present, in which
      case it is left as it was. */
  lemma OrderOutputsChunk(job: Job, fs: FileSystem, tree: Tree, k: nat)
    requires job.chunkSize > 0
    requires k < |Chunks(job.rows, job.chunkSize)|
    ensures var key := ChunkKey(job.n, |job.rows|, job.chunkSize, k);
      && key in OrderOutputs(job, fs, tree)
      && OrderOutputs(job, fs, tree)[key] ==
           if job.resume && key in tree then tree[key]
           else ChunkText(fs, job.ngrams, Chunks(job.rows, job.chunkSize)[k])
  {
    var c, count := job.chunkSize, |job.rows|;
    var starts := ChunkStarts(count, c);
    ChunkStartsExact(count, c);
    StartsDistinct(count, c);
    assert ChunkKey(job.n, count, c, k) == OffsetKey(job, starts[k]);
    WriteChunksValue(job, fs, tree, starts, k);
  }

  /** An order that is `Ready` finds on disk the files of every chunk it
      does not skip, so the text `OrderOutputsChunk` writes is made of the
      rows' lines. */
  lemma OrderChunkOnDisk(job: Job, fs: FileSystem, tree: Tree, k: nat)
    requires Ready(job, fs, tree)
    requires k < |Chunks(job.rows, job.chunkSize)|
    requires Needed(job, tree, k)
    ensures AllResolvable(fs, job.ngrams, Chunks(job.rows, job.chunkSize)[k])
  {
    var c := job.chunkSize;
    ChunkStartsExact(|job.rows|, c);
    assert Chunks(job.rows, c)[k] == ChunkRows(job.rows, k * c, c);
  }

  /** `OrderOutputsKeys` for one file. */
  lemma OrderOutputsHas(job: Job, fs: FileSystem, tree: Tree, key: OutFile)
    requires job.chunkSize > 0
    ensures key in OrderOutputs(job, fs, tree) <==> key in tree || key in OrderKeys(job)
  {
    OrderOutputsKeys(job, fs, tree);
  }

  /** A file that is not one of the order's chunks is not touched by it. */
  lemma OrderOutputsKeepsOther(job: Job, fs: FileSystem, tree: Tree, key: OutFile)
    requires job.chunkSize > 0
    requires key in tree && key !in OrderKeys(job)
    ensures key in OrderOutputs(job, fs, tree)
    ensures OrderOutputs(job, fs, tree)[key] == tree[key]
  {
    var c, count := job.chunkSize, |job.rows|;
    var starts := ChunkStarts(count, c);
    ChunkStartsExact(count, c);
    if key in KeysOf(job, starts) {
      var i := KeysOfWitness(job, starts, key);
      assert false;
    }
    WriteChunksKeepsOther(job, fs, tree, starts, key);
  }

  predicate EachResolvable(fs: FileSystem, ngrams: Option<Path>, css: seq<seq<NgramIndex>>) {
    forall i | 0 <= i < |css| :: AllResolvable(fs, ngrams, css[i])
  }

  /** The outputs of a sequence of chunks, in order. */
  function ChunkTexts(fs: FileSystem, ngrams: Option<Path>, css: seq<seq<NgramIndex>>): (ts: seq<seq<byte>>)
    requires EachResolvable(fs, ngrams, css)
    ensures |ts| == |css|
  {
    if |css| == 0 then [] else [ChunkText(fs, ngrams, css[0])] + ChunkTexts(fs, ngrams, css[1..])
  }

  lemma {:induction false} FlattenChunkTexts(fs: FileSystem, ngrams: Option<Path>, css: seq<seq<NgramIndex>>)
    requires EachResolvable(fs, ngrams, css)
    ensures AllResolvable(fs, ngrams, Flatten(css))
    ensures Flatten(ChunkTexts(fs, ngrams, css)) == ChunkText(fs, ngrams, Flatten(css))
    decreases |css|
  {
    if |css| == 0 {
      assert ChunkText(fs, ngrams, []) == [];
    } else {
      assert EachResolvable(fs, ngrams, css[1..]) by {
        forall i | 0 <= i < |css| - 1
          ensures AllResolvable(fs, ngrams, css[1..][i])
        {
          assert css[1..][i] == css[i + 1];
        }
      }
      FlattenChunkTexts(fs, ngrams, css[1..]);
      ChunkTextAppend(fs, ngrams, css[0], Flatten(css[1..]));
      var ts := ChunkTexts(fs, ngrams, css);
      assert ts[0] == ChunkText(fs, ngrams, css[0]);
      assert ts[1..] == ChunkTexts(fs, ngrams, css[1..]);
    }
  }

  lemma SliceResolvable(fs: FileSystem, ngrams: Option<Path>, rows: seq<NgramIndex>, lo: nat, hi: nat)
    requires lo <= hi <= |rows|
    requires AllResolvable(fs, ngrams, rows)
    ensures AllResolvable(fs, ngrams, rows[lo..hi])
  {
    assert forall i | 0 <= i < hi - lo :: rows[lo..hi][i] == rows[lo + i];
  }

  lemma ChunksResolvable(fs: FileSystem, ngrams: Option<Path>, rows: seq<NgramIndex>, c: nat)
    requires c > 0
    requires AllResolvable(fs, ngrams, rows)
    ensures EachResolvable(fs, ngrams, Chunks(rows, c))
  {
    var cs := Chunks(rows, c);
    forall k | 0 <= k < |cs|
      ensures AllResolvable(fs, ngrams, cs[k])
    {
      ChunkCovers(rows, c, k);
      SliceResolvable(fs, ngrams, rows, k * c, Min((k + 1) * c, |rows|));
    }
  }

  /** Concatenating an order's chunk outputs in index order gives the lines
      of all its rows in row order: nothing is lost or repeated at chunk
      boundaries. */
  lemma ChunkOutputsConcatenate(fs: FileSystem, ngrams: Option<Path>, rows: seq<NgramIndex>, c: nat)
    requires c > 0
    requires AllResolvable(fs, ngrams, rows)
    ensures EachResolvable(fs, ngrams, Chunks(rows, c))
    ensures Flatten(ChunkTexts(fs, ngrams, Chunks(rows, c))) == ChunkText(fs, ngrams, rows)
  {
    ChunksResolvable(fs, ngrams, rows, c);
    ChunksPartitionRows(rows, c);
    FlattenChunkTexts(fs, ngrams, Chunks(rows, c));
  }
}
