/**
 The top level of `main`: clear the output tree unless resuming, then run the
 chunk pipeline for every n-gram order 1..5 in turn, each with a fresh cache.
 The main result is that resuming from any partial output of a full run
 finishes that run: the tree ends up exactly as an uninterrupted run leaves it.
 */
module Runner {

  import opened Wrappers
  import opened FileCache
  import opened Paths
  import opened Chunking
  import opened Pipeline

  /** The index table of every order, one per `<n>.parquet`, and a chunk
      size `step_by` accepts. */
  predicate WellFormed(cfg: Config, tables: seq<seq<NgramIndex>>) {
    && |tables| == LAST_ORDER
    && ChunkSize(cfg) > 0
  }

  /** The chunk loop's work for order `n`. */
  function OrderJob(cfg: Config, tables: seq<seq<NgramIndex>>, n: nat): (job: Job)
    requires WellFormed(cfg, tables)
    requires FIRST_ORDER <= n <= LAST_ORDER
    ensures job.chunkSize == ChunkSize(cfg) > 0
    ensures job.n == n && job.rows == tables[n - 1]
    ensures job.resume == cfg.resume && job.ngrams == cfg.ngrams
  {
    Job(n, tables[n - 1], ChunkSize(cfg), cfg.resume, cfg.ngrams)
  }

  /** A run from the tree `start` reads only chunks whose rows name files on
      disk. Every order's chunk files are present in the tree its loop starts
      from exactly when they are in `start` (see `ReadyAfter`), so in resume
      mode the chunks already present in `start` may name missing files. */
  predicate CanRun(cfg: Config, tables: seq<seq<NgramIndex>>, fs: FileSystem, start: Tree)
    requires WellFormed(cfg, tables)
  {
    forall n | FIRST_ORDER <= n <= LAST_ORDER :: Ready(OrderJob(cfg, tables, n), fs, start)
  }

  /** The tree the order loop starts from, given the output directory's
      current files (None when the directory does not exist): with
      `--continue` the existing files, or an empty directory created for the
      run; without it, an empty directory, whether or not one existed. */
  function InitialTree(cfg: Config, existing: Option<Tree>): (t: Tree)
    ensures cfg.resume && existing.Some? ==> t == existing.value
    ensures !cfg.resume || existing.None? ==> t == map[]
  {
    if cfg.resume then existing.GetOr(map[]) else map[]
  }

  /** `remove_dir_all(&output).unwrap()` followed by the `create_dir` of a
      missing directory, as written: None when the run aborts. Removing a
      directory that does not exist fails, so a run without `--continue`
      into a missing output directory aborts; otherwise the result is the
      intended starting tree. */
  function ClearOutputAsWritten(cfg: Config, existing: Option<Tree>): (r: Option<Tree>)
    ensures r.None? <==> !cfg.resume && existing.None?
    ensures r.Some? ==> r.value == InitialTree(cfg, existing)
  {
    if cfg.resume then Some(existing.GetOr(map[]))
    else if existing.None? then None
    else Some(map[])
  }

  /** The first run without `--continue` into a fresh output location aborts. */
  lemma FreshOutputAborts(cfg: Config)
    requires !cfg.resume
    ensures ClearOutputAsWritten(cfg, None) == None
  {
  }

  /** The tree after orders 1..m. */
  function RunOrders(cfg: Config, tables: seq<seq<NgramIndex>>, fs: FileSystem, start: Tree, m: nat): Tree
    requires WellFormed(cfg, tables)
    requires m <= LAST_ORDER
  {
    if m == 0 then start
    else OrderOutputs(OrderJob(cfg, tables, m), fs, RunOrders(cfg, tables, fs, start, m - 1))
  }

  /** The whole run's effect on the output tree. */
  function Outputs(cfg: Config, tables: seq<seq<NgramIndex>>, fs: FileSystem, existing: Option<Tree>): Tree
    requires WellFormed(cfg, tables)
  {
    RunOrders(cfg, tables, fs, InitialTree(cfg, existing), LAST_ORDER)
  }

  /** Runs every order with its own cache; the free memory the cache sees on
      the i-th lookup of order n is `freeMemory(n, i)`. The run starts from
      the corrected `InitialTree`: the program as written aborts before the
      order loop when `--continue` is absent and the output directory is
      missing (`ClearOutputAsWritten`). */
  method Run(cfg: Config, tables: seq<seq<NgramIndex>>, fs: FileSystem, freeMemory: (nat, nat) -> nat, existing: Option<Tree>)
    returns (out: Tree)
    requires WellFormed(cfg, tables)
    requires CanRun(cfg, tables, fs, InitialTree(cfg, existing))
    ensures out == Outputs(cfg, tables, fs, existing)
  {
    out := InitialTree(cfg, existing);
    ghost var start := out;
    for n := FIRST_ORDER to LAST_ORDER + 1
      invariant out == RunOrders(cfg, tables, fs, start, n - 1)
    {
      RunStep(cfg, tables, fs, start, n);
      out := RunOrder(OrderJob(cfg, tables, n), fs, (i: nat) => freeMemory(n, i), out);
    }
  }

  /** Order n of a run that `CanRun` finds its chunks ready and extends the
      tree of orders 1..n-1 to that of orders 1..n. */
  lemma RunStep(cfg: Config, tables: seq<seq<NgramIndex>>, fs: FileSystem, start: Tree, n: nat)
    requires WellFormed(cfg, tables)
    requires CanRun(cfg, tables, fs, start)
    requires FIRST_ORDER <= n <= LAST_ORDER
    ensures var prev := RunOrders(cfg, tables, fs, start, n - 1);
      && Ready(OrderJob(cfg, tables, n), fs, prev)
      && RunOrders(cfg, tables, fs, start, n) == OrderOutputs(OrderJob(cfg, tables, n), fs, prev)
  {
    ReadyAfter(cfg, tables, fs, start, n);
  }

  /** The files orders 1..m write. */
  function AllKeys(cfg: Config, tables: seq<seq<NgramIndex>>, m: nat): set<OutFile>
    requires WellFormed(cfg, tables)
    requires m <= LAST_ORDER
  {
    if m == 0 then {} else AllKeys(cfg, tables, m - 1) + OrderKeys(OrderJob(cfg, tables, m))
  }

  /** The output files of the first m orders all sit in directories 1..m. */
  lemma {:induction false} AllKeysDirectories(cfg: Config, tables: seq<seq<NgramIndex>>, m: nat, key: OutFile)
    requires WellFormed(cfg, tables)
    requires m <= LAST_ORDER
    requires key in AllKeys(cfg, tables, m)
    ensures 1 <= key.n <= m
  {
    if key !in AllKeys(cfg, tables, m - 1) {
      var job := OrderJob(cfg, tables, m);
      var k :| 0 <= k < CeilDiv(|job.rows|, job.chunkSize) && key == ChunkKey(job.n, |job.rows|, job.chunkSize, k);
    } else {
      AllKeysDirectories(cfg, tables, m - 1, key);
    }
  }

  /** Every file of `AllKeys` is the output of some chunk of some order. */
  lemma {:induction false} AllKeysChunk(cfg: Config, tables: seq<seq<NgramIndex>>, m: nat, key: OutFile)
    returns (n: nat, k: nat)
    requires WellFormed(cfg, tables)
    requires m <= LAST_ORDER
    requires key in AllKeys(cfg, tables, m)
    ensures 1 <= n <= m
    ensures k < |Chunks(tables[n - 1], ChunkSize(cfg))|
    ensures key == ChunkKey(n, |tables[n - 1]|, ChunkSize(cfg), k)
  {
    if key !in AllKeys(cfg, tables, m - 1) {
      var job := OrderJob(cfg, tables, m);
      ChunkStartsExact(|job.rows|, job.chunkSize);
      n := m;
      k :| 0 <= k < CeilDiv(|job.rows|, job.chunkSize) && key == ChunkKey(job.n, |job.rows|, job.chunkSize, k);
    } else {
      n, k := AllKeysChunk(cfg, tables, m - 1, key);
    }
  }

  /** After orders 1..m the tree holds the files it started with plus the
      files of those orders, and nothing else. */
  lemma {:induction false} RunOrdersKeys(cfg: Config, tables: seq<seq<NgramIndex>>, fs: FileSystem, start: Tree, m: nat)
    requires WellFormed(cfg, tables)
    requires m <= LAST_ORDER
    ensures RunOrders(cfg, tables, fs, start, m).Keys == start.Keys + AllKeys(cfg, tables, m)
  {
    forall key | true
      ensures key in RunOrders(cfg, tables, fs, start, m) <==> key in start || key in AllKeys(cfg, tables, m)
    {
      RunOrdersHas(cfg, tables, fs, start, m, key);
    }
  }

  /** `RunOrdersKeys` for one file. */
  lemma {:induction false} RunOrdersHas(cfg: Config, tables: seq<seq<NgramIndex>>, fs: FileSystem, start: Tree, m: nat, key: OutFile)
    requires WellFormed(cfg, tables)
    requires m <= LAST_ORDER
    ensures key in RunOrders(cfg, tables, fs, start, m) <==> key in start || key in AllKeys(cfg, tables, m)
  {
    if m > 0 {
      RunOrdersHas(cfg, tables, fs, start, m - 1, key);
      OrderOutputsHas(OrderJob(cfg, tables, m), fs, RunOrders(cfg, tables, fs, start, m - 1), key);
    }
  }

  /** Order n's chunk files are present when its loop starts exactly when they
      were present at the start of the run, since earlier orders write only
      into their own directories; so a run that `CanRun` finds every order
      `Ready`. */
  lemma ReadyAfter(cfg: Config, tables: seq<seq<NgramIndex>>, fs: FileSystem, start: Tree, n: nat)
    requires WellFormed(cfg, tables)
    requires CanRun(cfg, tables, fs, start)
    requires FIRST_ORDER <= n <= LAST_ORDER
    ensures Ready(OrderJob(cfg, tables, n), fs, RunOrders(cfg, tables, fs, start, n - 1))
  {
    var job := OrderJob(cfg, tables, n);
    var prev := RunOrders(cfg, tables, fs, start, n - 1);
    assert Ready(job, fs, start);
    forall k | 0 <= k < CeilDiv(|job.rows|, job.chunkSize)
      ensures Needed(job, prev, k) == Needed(job, start, k)
    {
      PresentBeforeOrder(cfg, tables, fs, start, n, ChunkKey(job.n, |job.rows|, job.chunkSize, k));
    }
  }

  /** The step of `RunOrdersChunk` for the order that writes the chunk: its
      file is present before that order exactly when it was at the start. */
  lemma LastOrderChunk(cfg: Config, tables: seq<seq<NgramIndex>>, fs: FileSystem, start: Tree, m: nat, k: nat)
    requires WellFormed(cfg, tables)
    requires 1 <= m <= LAST_ORDER
    requires k < |Chunks(tables[m - 1], ChunkSize(cfg))|
    ensures var key := ChunkKey(m, |tables[m - 1]|, ChunkSize(cfg), k);
      && key in RunOrders(cfg, tables, fs, start, m)
      && RunOrders(cfg, tables, fs, start, m)[key] ==
           if cfg.resume && key in start then start[key]
           else ChunkText(fs, cfg.ngrams, Chunks(tables[m - 1], ChunkSize(cfg))[k])
  {
    var key := ChunkKey(m, |tables[m - 1]|, ChunkSize(cfg), k);
    var job := OrderJob(cfg, tables, m);
    var prev := RunOrders(cfg, tables, fs, start, m - 1);
    assert RunOrders(cfg, tables, fs, start, m) == OrderOutputs(job, fs, prev);
    OrderOutputsChunk(job, fs, prev, k);
    PresentBeforeOrder(cfg, tables, fs, start, m, key);
  }

  /** Order m leaves every file outside its own directory as it was. */
  lemma OtherOrderKeeps(cfg: Config, tables: seq<seq<NgramIndex>>, fs: FileSystem, start: Tree, m: nat, key: OutFile)
    requires WellFormed(cfg, tables)
    requires 1 <= m <= LAST_ORDER && key.n != m
    requires key in RunOrders(cfg, tables, fs, start, m - 1)
    ensures key in RunOrders(cfg, tables, fs, start, m)
    ensures RunOrders(cfg, tables, fs, start, m)[key] == RunOrders(cfg, tables, fs, start, m - 1)[key]
  {
    var job := OrderJob(cfg, tables, m);
    var prev := RunOrders(cfg, tables, fs, start, m - 1);
    assert RunOrders(cfg, tables, fs, start, m) == OrderOutputs(job, fs, prev);
    if key in OrderKeys(job) {
      OrderKeysInDirectory(job, key);
      assert false;
    }
    OrderOutputsKeepsOther(job, fs, prev, key);
  }

  /** A file of order m's directory is untouched by orders 1..m-1. */
  lemma PresentBeforeOrder(cfg: Config, tables: seq<seq<NgramIndex>>, fs: FileSystem, start: Tree, m: nat, key: OutFile)
    requires WellFormed(cfg, tables)
    requires 1 <= m <= LAST_ORDER && key.n == m
    ensures key in RunOrders(cfg, tables, fs, start, m - 1) <==> key in start
    ensures key in start ==> RunOrders(cfg, tables, fs, start, m - 1)[key] == start[key]
  {
    RunOrdersKeys(cfg, tables, fs, start, m - 1);
    if key in AllKeys(cfg, tables, m - 1) {
      AllKeysDirectories(cfg, tables, m - 1, key);
      assert false;
    }
    if key in start {
      RunOrdersKeepsOther(cfg, tables, fs, start, m - 1, key);
    }
  }

  /** A run that `CanRun` from `start` finds on disk the files of every chunk
      it does not skip. */
  lemma ChunkOnDisk(cfg: Config, tables: seq<seq<NgramIndex>>, fs: FileSystem, start: Tree, n: nat, k: nat)
    requires WellFormed(cfg, tables) && CanRun(cfg, tables, fs, start)
    requires FIRST_ORDER <= n <= LAST_ORDER
    requires k < |Chunks(tables[n - 1], ChunkSize(cfg))|
    requires !(cfg.resume && ChunkKey(n, |tables[n - 1]|, ChunkSize(cfg), k) in start)
    ensures AllResolvable(fs, cfg.ngrams, Chunks(tables[n - 1], ChunkSize(cfg))[k])
  {
    var job := OrderJob(cfg, tables, n);
    assert Ready(job, fs, start);
    OrderChunkOnDisk(job, fs, start, k);
  }

  /** A file no order writes keeps its content. */
  lemma {:induction false} RunOrdersKeepsOther(cfg: Config, tables: seq<seq<NgramIndex>>, fs: FileSystem, start: Tree, m: nat, key: OutFile)
    requires WellFormed(cfg, tables)
    requires m <= LAST_ORDER
    requires key in start && key !in AllKeys(cfg, tables, m)
    ensures key in RunOrders(cfg, tables, fs, start, m)
    ensures RunOrders(cfg, tables, fs, start, m)[key] == start[key]
  {
    if m > 0 {
      RunOrdersKeepsOther(cfg, tables, fs, start, m - 1, key);
      OrderOutputsKeepsOther(OrderJob(cfg, tables, m), fs, RunOrders(cfg, tables, fs, start, m - 1), key);
    }
  }

  /** Chunk k of order n ends up holding the lines of its rows, unless
      resuming and a file of that name was already there, which is kept. */
  lemma {:induction false} RunOrdersChunk(cfg: Config, tables: seq<seq<NgramIndex>>, fs: FileSystem, start: Tree, m: nat, n: nat, k: nat)
    requires WellFormed(cfg, tables)
    requires 1 <= n <= m <= LAST_ORDER
    requires k < |Chunks(tables[n - 1], ChunkSize(cfg))|
    ensures var key := ChunkKey(n, |tables[n - 1]|, ChunkSize(cfg), k);
      && key in RunOrders(cfg, tables, fs, start, m)
      && RunOrders(cfg, tables, fs, start, m)[key] ==
           if cfg.resume && key in start then start[key]
           else ChunkText(fs, cfg.ngrams, Chunks(tables[n - 1], ChunkSize(cfg))[k])
  {
    if n == m {
      LastOrderChunk(cfg, tables, fs, start, m, k);
    } else {
      RunOrdersChunk(cfg, tables, fs, start, m - 1, n, k);
      OtherOrderKeeps(cfg, tables, fs, start, m, ChunkKey(n, |tables[n - 1]|, ChunkSize(cfg), k));
    }
  }

  /** A run without `--continue` whose rows all name files on disk writes
      exactly the files of all chunks of all orders, each holding its rows'
      lines, whatever the output directory held before. This is the corrected
      start: as written, a missing output directory aborts the run first. */
  lemma FullRunOutputs(cfg: Config, tables: seq<seq<NgramIndex>>, fs: FileSystem, existing: Option<Tree>, n: nat, k: nat)
    requires WellFormed(cfg, tables) && !cfg.resume
    requires CanRun(cfg, tables, fs, InitialTree(cfg, existing))
    requires FIRST_ORDER <= n <= LAST_ORDER
    requires k < |Chunks(tables[n - 1], ChunkSize(cfg))|
    ensures Outputs(cfg, tables, fs, existing).Keys == AllKeys(cfg, tables, LAST_ORDER)
    ensures var key := ChunkKey(n, |tables[n - 1]|, ChunkSize(cfg), k);
      && AllResolvable(fs, cfg.ngrams, Chunks(tables[n - 1], ChunkSize(cfg))[k])
      && key in Outputs(cfg, tables, fs, existing)
      && Outputs(cfg, tables, fs, existing)[key] == ChunkText(fs, cfg.ngrams, Chunks(tables[n - 1], ChunkSize(cfg))[k])
  {
    RunOrdersKeys(cfg, tables, fs, map[], LAST_ORDER);
    RunOrdersChunk(cfg, tables, fs, map[], LAST_ORDER, n, k);
    ChunkOnDisk(cfg, tables, fs, map[], n, k);
  }

  /** The previous state a resumed run may start from: part of what an
      uninterrupted run writes (chunk files being all-or-nothing). */
  predicate PartOfFullRun(cfg: Config, tables: seq<seq<NgramIndex>>, fs: FileSystem, stale: Option<Tree>, partial: Tree)
    requires WellFormed(cfg, tables)
  {
    AllKeysIgnoreResume(cfg, tables, LAST_ORDER);
    var full := Outputs(cfg.(resume := false), tables, fs, stale);
    forall key | key in partial :: key in full && partial[key] == full[key]
  }

  /** One file of the resumed run: the same as in the uninterrupted run. */
  lemma ResumeAgreesOn(cfg: Config, tables: seq<seq<NgramIndex>>, fs: FileSystem, stale: Option<Tree>, partial: Tree, key: OutFile)
    requires WellFormed(cfg, tables)
    requires PartOfFullRun(cfg, tables, fs, stale, partial)
    requires key in Outputs(cfg.(resume := false), tables, fs, stale)
    ensures WellFormed(cfg.(resume := true), tables)
    ensures key in Outputs(cfg.(resume := true), tables, fs, Some(partial))
    ensures Outputs(cfg.(resume := true), tables, fs, Some(partial))[key] == Outputs(cfg.(resume := false), tables, fs, stale)[key]
  {
    var restart, cont := cfg.(resume := false), cfg.(resume := true);
    AllKeysIgnoreResume(cfg, tables, LAST_ORDER);
    RunOrdersKeys(restart, tables, fs, map[], LAST_ORDER);
    var n, k := AllKeysChunk(restart, tables, LAST_ORDER, key);
    RunOrdersChunk(restart, tables, fs, map[], LAST_ORDER, n, k);
    RunOrdersChunk(cont, tables, fs, partial, LAST_ORDER, n, k);
  }

  /** Resuming from any part of a full run's output (the state an interrupted
      run leaves behind) completes it: the resumed run's tree equals the
      uninterrupted run's. */
  lemma ResumeCompletesRun(cfg: Config, tables: seq<seq<NgramIndex>>, fs: FileSystem, stale: Option<Tree>, partial: Tree)
    requires WellFormed(cfg, tables)
    requires PartOfFullRun(cfg, tables, fs, stale, partial)
    ensures WellFormed(cfg.(resume := true), tables) && WellFormed(cfg.(resume := false), tables)
    ensures Outputs(cfg.(resume := true), tables, fs, Some(partial)) == Outputs(cfg.(resume := false), tables, fs, stale)
    ensures CanRun(cfg.(resume := false), tables, fs, map[]) ==> CanRun(cfg.(resume := true), tables, fs, partial)
  {
    ResumeNeedsLess(cfg, tables, fs, partial);
    var restart, cont := cfg.(resume := false), cfg.(resume := true);
    AllKeysIgnoreResume(cfg, tables, LAST_ORDER);
    var full := Outputs(restart, tables, fs, stale);
    var resumed := Outputs(cont, tables, fs, Some(partial));
    RunOrdersKeys(restart, tables, fs, map[], LAST_ORDER);
    RunOrdersKeys(cont, tables, fs, partial, LAST_ORDER);
    assert resumed.Keys == full.Keys;
    forall key | key in full
      ensures resumed[key] == full[key]
    {
      ResumeAgreesOn(cfg, tables, fs, stale, partial, key);
    }
  }

  /** A resumed run reads at most the rows an uninterrupted run reads: it
      needs no more files on disk, and fewer when chunk files are present. */
  lemma ResumeNeedsLess(cfg: Config, tables: seq<seq<NgramIndex>>, fs: FileSystem, partial: Tree)
    requires WellFormed(cfg, tables)
    ensures WellFormed(cfg.(resume := true), tables) && WellFormed(cfg.(resume := false), tables)
    ensures CanRun(cfg.(resume := false), tables, fs, map[]) ==> CanRun(cfg.(resume := true), tables, fs, partial)
  {
    var restart, cont := cfg.(resume := false), cfg.(resume := true);
    if CanRun(restart, tables, fs, map[]) {
      forall n | FIRST_ORDER <= n <= LAST_ORDER
        ensures Ready(OrderJob(cont, tables, n), fs, partial)
      {
        var full := OrderJob(restart, tables, n);
        assert Ready(full, fs, map[]);
        var job := OrderJob(cont, tables, n);
        forall k | 0 <= k < CeilDiv(|job.rows|, job.chunkSize) && Needed(job, partial, k)
          ensures AllResolvable(fs, job.ngrams, ChunkRows(job.rows, k * job.chunkSize, job.chunkSize))
        {
          assert Needed(full, map[], k);
        }
      }
    }
  }

  /** Which files an order writes does not depend on `--continue`. */
  lemma {:induction false} AllKeysIgnoreResume(cfg: Config, tables: seq<seq<NgramIndex>>, m: nat)
    requires WellFormed(cfg, tables)
    requires m <= LAST_ORDER
    ensures WellFormed(cfg.(resume := true), tables) && WellFormed(cfg.(resume := false), tables)
    ensures AllKeys(cfg.(resume := true), tables, m) == AllKeys(cfg.(resume := false), tables, m)
  {
    if m > 0 {
      AllKeysIgnoreResume(cfg, tables, m - 1);
    }
  }
}
