/**
 The per-order cache of whole source files. Each entry holds a file's bytes and
 an integer recency score. A miss may first evict the entry with the lowest
 score (only under memory pressure), then loads the file with score 0; every
 access then adds one to the resolved entry's score and subtracts one from every
 entry's score, and returns the line at the requested byte offset.
 */
module FileCache {

  import opened Wrappers
  import opened Lines

  type Path = string

  /** The files on disk, by path. */
  type FileSystem = map<Path, seq<byte>>

  /** `buffers` holds each cached file's content, `ttl` its recency score. */
  datatype Cache = Cache(buffers: map<Path, seq<byte>>, ttl: map<Path, int>)

  /** The two maps of a cache always describe the same set of files. */
  predicate Valid(c: Cache) {
    c.buffers.Keys == c.ttl.Keys
  }

  /** `FileCache::new()`. */
  const Empty: Cache := Cache(map[], map[])

  /** Every cached buffer is the current content of its file on disk. */
  predicate Coherent(c: Cache, fs: FileSystem) {
    forall p | p in c.buffers :: p in fs && c.buffers[p] == fs[p]
  }

  /** `order` is one iteration order of a hash map with key set `keys`:
      every key exactly once. */
  predicate IsEnumeration(order: seq<Path>, keys: set<Path>) {
    && (forall i | 0 <= i < |order| :: order[i] in keys)
    && (forall k | k in keys :: k in order)
    && (forall i, j | 0 <= i < j < |order| :: order[i] != order[j])
  }

  /** `v` has a score no higher than any other entry. */
  predicate IsOldest(ttl: map<Path, int>, v: Path) {
    v in ttl && forall k | k in ttl :: ttl[v] <= ttl[k]
  }

  /** `min_by_key` over the scores, visiting keys in `order`: the first key
      whose score is minimal, or None when there is nothing to visit. */
  function FirstMin(ttl: map<Path, int>, order: seq<Path>): (m: Option<Path>)
    requires forall i | 0 <= i < |order| :: order[i] in ttl
    ensures m.None? <==> |order| == 0
    ensures m.Some? ==> m.value in order
    ensures m.Some? ==> forall i | 0 <= i < |order| :: ttl[m.value] <= ttl[order[i]]
    ensures m.Some? ==> exists j | 0 <= j < |order| ::
      order[j] == m.value && forall i | 0 <= i < j :: ttl[order[i]] > ttl[m.value]
  {
    if |order| == 0 then None
    else
      var rest := FirstMin(ttl, order[1..]);
      if rest.None? || ttl[order[0]] <= ttl[rest.value] then Some(order[0])
      else
        ghost var j' :| 0 <= j' < |order[1..]| && order[1..][j'] == rest.value
          && forall i | 0 <= i < j' :: ttl[order[1..][i]] > ttl[rest.value];
        assert order[j' + 1] == rest.value;
        rest
  }

  /** `remove_oldest`: drops the entry with the lowest score, ties going to the
      first such key in the map's iteration order; does nothing on an empty cache. */
  function RemoveOldest(c: Cache, order: seq<Path>): (r: Cache)
    requires Valid(c)
    requires IsEnumeration(order, c.ttl.Keys)
    ensures Valid(r)
    ensures |c.ttl| == 0 ==> r == c
    ensures |c.ttl| > 0 ==> |r.ttl| == |c.ttl| - 1
    ensures r.ttl.Keys <= c.ttl.Keys
    ensures forall k | k in c.ttl && k !in r.ttl :: IsOldest(c.ttl, k)
    ensures forall k | k in r.ttl :: r.ttl[k] == c.ttl[k] && r.buffers[k] == c.buffers[k]
  {
    match FirstMin(c.ttl, order)
    case None =>
      assert c.ttl.Keys == {};
      c
    case Some(v) =>
      Cache(c.buffers - {v}, c.ttl - {v})
  }

  /** Whatever minimal-score entry one picks, some iteration order makes
      `remove_oldest` evict exactly that entry: the tie-break is unconstrained. */
  lemma AnyOldestCanBeEvicted(c: Cache, v: Path)
    requires Valid(c)
    requires IsOldest(c.ttl, v)
    ensures exists order :: IsEnumeration(order, c.ttl.Keys) && RemoveOldest(c, order).ttl.Keys == c.ttl.Keys - {v}
  {
    var rest := SetToSeq(c.ttl.Keys - {v});
    var order := [v] + rest;
    assert order[1..] == rest;
    assert IsEnumeration(order, c.ttl.Keys) by {
      forall k | k in c.ttl.Keys
        ensures k in order
      {
        if k != v {
          assert k in rest;
        }
      }
    }
    assert FirstMin(c.ttl, order) == Some(v);
    assert RemoveOldest(c, order).ttl.Keys == c.ttl.Keys - {v};
  }

  ghost function SetToSeq(s: set<Path>): (order: seq<Path>)
    ensures IsEnumeration(order, s)
    decreases |s|
  {
    if s == {} then []
    else
      var x :| x in s;
      var rest := SetToSeq(s - {x});
      assert forall k | k in s :: k == x || k in rest;
      [x] + rest
  }

  /** Walking a hash map: some enumeration of its keys, each visited once; the
      order is the map's own and is not fixed by the program. */
  method IterationOrder(keys: set<Path>) returns (order: seq<Path>)
    ensures IsEnumeration(order, keys)
  {
    order := [];
    var remaining := keys;
    while remaining != {}
      invariant remaining <= keys
      invariant forall i | 0 <= i < |order| :: order[i] in keys && order[i] !in remaining
      invariant forall k | k in keys && k !in remaining :: k in order
      invariant forall i, j | 0 <= i < j < |order| :: order[i] != order[j]
      decreases remaining
    {
      var k :| k in remaining;
      order := order + [k];
      remaining := remaining - {k};
    }
  }

  /** The memory-pressure test `free < (1.5 * size as f64) as u64`, in integers. */
  predicate UnderPressure(freeMemory: nat, fileSize: nat) {
    freeMemory < 3 * fileSize / 2
  }

  /** The miss branch of `get`: under memory pressure evict one entry, then
      load the file with score 0. A hit leaves the cache as it is. */
  function Load(c: Cache, fs: FileSystem, freeMemory: nat, order: seq<Path>, path: Path): (r: Cache)
    requires Valid(c)
    requires path in c.buffers || path in fs
    requires IsEnumeration(order, c.ttl.Keys)
    ensures Valid(r)
    ensures path in r.buffers
    ensures path in c.buffers ==> r == c
    ensures path !in c.buffers ==> r.buffers[path] == fs[path] && r.ttl[path] == 0
    ensures forall k | k in r.ttl && k != path :: k in c.ttl && r.ttl[k] == c.ttl[k] && r.buffers[k] == c.buffers[k]
    ensures r.buffers.Keys <= c.buffers.Keys + {path}
    ensures |r.buffers| <= |c.buffers| + 1
    ensures |c.buffers.Keys - r.buffers.Keys| <= 1
    ensures c.buffers.Keys <= r.buffers.Keys <==>
      (path in c.buffers || !UnderPressure(freeMemory, |fs[path]|) || |c.buffers| == 0)
    ensures forall k | k in c.buffers && k !in r.buffers :: IsOldest(c.ttl, k)
  {
    if path in c.buffers then c
    else
      var kept := MaybeEvict(c, UnderPressure(freeMemory, |fs[path]|), order);
      var r := Insert(kept, path, fs[path]);
      MinusFresh(c.buffers.Keys, kept.buffers.Keys, path);
      assert |kept.buffers| <= |c.buffers| by {
        assert kept.buffers.Keys <= c.buffers.Keys;
        SubsetSize(kept.buffers.Keys, c.buffers.Keys);
      }
      r
  }

  lemma MinusFresh(a: set<Path>, b: set<Path>, x: Path)
    requires x !in a
    ensures a - (b + {x}) == a - b
  {
  }

  lemma SubsetSize(a: set<Path>, b: set<Path>)
    requires a <= b
    ensures |a| <= |b|
  {
    assert b == a + (b - a);
  }

  /** The eviction step of a miss: `remove_oldest` when under pressure. */
  function MaybeEvict(c: Cache, pressure: bool, order: seq<Path>): (r: Cache)
    requires Valid(c)
    requires IsEnumeration(order, c.ttl.Keys)
    ensures Valid(r)
    ensures r.buffers.Keys <= c.buffers.Keys
    ensures |c.buffers.Keys - r.buffers.Keys| <= 1
    ensures c.buffers.Keys <= r.buffers.Keys <==> !pressure || |c.buffers| == 0
    ensures forall k | k in c.buffers && k !in r.buffers :: IsOldest(c.ttl, k)
    ensures forall k | k in r.ttl :: r.ttl[k] == c.ttl[k] && r.buffers[k] == c.buffers[k]
  {
    if pressure then
      var r := RemoveOldest(c, order);
      assert |c.buffers.Keys - r.buffers.Keys| == |c.buffers.Keys| - |r.buffers.Keys| by {
        assert c.buffers.Keys == r.buffers.Keys + (c.buffers.Keys - r.buffers.Keys);
      }
      r
    else c
  }

  /** Loading a file that is not cached: content and score 0 are inserted together. */
  function Insert(c: Cache, path: Path, content: seq<byte>): (r: Cache)
    requires Valid(c)
    requires path !in c.buffers
    ensures Valid(r)
    ensures r.buffers.Keys == c.buffers.Keys + {path}
    ensures |r.buffers| == |c.buffers| + 1
    ensures r.buffers[path] == content && r.ttl[path] == 0
    ensures forall k | k in c.ttl :: r.ttl[k] == c.ttl[k] && r.buffers[k] == c.buffers[k]
  {
    Cache(c.buffers[path := content], c.ttl[path := 0])
  }

  /** The score update of `get`: `+1` on the resolved entry, then `-1` on all. */
  function Touch(ttl: map<Path, int>, path: Path): (r: map<Path, int>)
    requires path in ttl
    ensures r.Keys == ttl.Keys
    ensures r[path] == ttl[path]
    ensures forall k | k in r && k != path :: r[k] == ttl[k] - 1
  {
    var bumped := ttl[path := ttl[path] + 1];
    map k | k in bumped :: bumped[k] - 1
  }

  /** The outcome of one `get`: the next cache and the line read. */
  datatype Access = Access(cache: Cache, line: seq<byte>)

  /** `FileCache::get(path, start)`, with the host's free memory, the disk and
      the hash map's iteration order given as parameters. */
  function Get(c: Cache, fs: FileSystem, freeMemory: nat, order: seq<Path>, path: Path, start: nat): (r: Access)
    requires Valid(c)
    requires path in c.buffers || path in fs
    requires IsEnumeration(order, c.ttl.Keys)
    ensures Valid(r.cache)
    // the requested file is cached afterwards; a hit keeps its content, a miss loads it
    ensures path in r.cache.buffers
    ensures r.cache.buffers[path] == if path in c.buffers then c.buffers[path] else fs[path]
    ensures r.line == ReadLine(r.cache.buffers[path], start)
    // a hit changes no content and no key
    ensures path in c.buffers ==> r.cache.buffers == c.buffers
    // at most one new key, and any other change to the key set is an eviction
    ensures r.cache.buffers.Keys <= c.buffers.Keys + {path}
    ensures |r.cache.buffers| <= |c.buffers| + 1
    ensures |c.buffers.Keys - r.cache.buffers.Keys| <= 1
    // an eviction happens only on a miss under memory pressure, and always then
    ensures c.buffers.Keys <= r.cache.buffers.Keys <==>
      (path in c.buffers || !UnderPressure(freeMemory, |fs[path]|) || |c.buffers| == 0)
    // what is evicted has the lowest score; the rest keep their contents
    ensures forall k | k in c.buffers && k !in r.cache.buffers :: IsOldest(c.ttl, k)
    ensures forall k | k in r.cache.buffers && k != path :: k in c.buffers && r.cache.buffers[k] == c.buffers[k]
    // net score effect: the resolved entry keeps its score (0 when just loaded),
    // every other surviving entry loses exactly one
    ensures r.cache.ttl[path] == if path in c.ttl then c.ttl[path] else 0
    ensures forall k | k in r.cache.ttl && k != path :: r.cache.ttl[k] == c.ttl[k] - 1
  {
    var loaded := Load(c, fs, freeMemory, order, path);
    Access(Cache(loaded.buffers, Touch(loaded.ttl, path)), ReadLine(loaded.buffers[path], start))
  }
}

module FileCacheProperties {

  import opened Lines
  import opened FileCache

  /** A cache that mirrors the disk keeps mirroring it, and then the line `get`
      returns is the line of the file on disk, whatever the cache held before. */
  lemma GetReadsDisk(c: Cache, fs: FileSystem, freeMemory: nat, order: seq<Path>, path: Path, start: nat)
    requires Valid(c) && Coherent(c, fs)
    requires path in fs
    requires IsEnumeration(order, c.ttl.Keys)
    ensures Coherent(Get(c, fs, freeMemory, order, path, start).cache, fs)
    ensures Get(c, fs, freeMemory, order, path, start).line == ReadLine(fs[path], start)
  {
  }

  /** Two caches with different histories, memory readings and iteration
      orders return byte-identical lines for the same request. */
  lemma LineIndependentOfHistory(c1: Cache, c2: Cache, fs: FileSystem, free1: nat, free2: nat,
                                 order1: seq<Path>, order2: seq<Path>, path: Path, start: nat)
    requires Valid(c1) && Coherent(c1, fs) && IsEnumeration(order1, c1.ttl.Keys)
    requires Valid(c2) && Coherent(c2, fs) && IsEnumeration(order2, c2.ttl.Keys)
    requires path in fs
    ensures Get(c1, fs, free1, order1, path, start).line == Get(c2, fs, free2, order2, path, start).line
  {
    GetReadsDisk(c1, fs, free1, order1, path, start);
    GetReadsDisk(c2, fs, free2, order2, path, start);
  }

  /** Asking twice in a row for the same line gets the same bytes, and the
      second request is a hit that leaves every buffer as it was. */
  lemma RepeatedGetIsStable(c: Cache, fs: FileSystem, free1: nat, free2: nat,
                            order1: seq<Path>, order2: seq<Path>, path: Path, start: nat)
    requires Valid(c)
    requires path in c.buffers || path in fs
    requires IsEnumeration(order1, c.ttl.Keys)
    requires IsEnumeration(order2, Get(c, fs, free1, order1, path, start).cache.ttl.Keys)
    ensures var first := Get(c, fs, free1, order1, path, start);
            var second := Get(first.cache, fs, free2, order2, path, start);
            second.line == first.line && second.cache.buffers == first.cache.buffers
  {
  }

  /** Each access to a cached path moves it exactly one step up relative to
      every other surviving entry (recency is a relative ranking). */
  lemma GetRaisesRelativeRank(c: Cache, fs: FileSystem, freeMemory: nat, order: seq<Path>,
                              path: Path, start: nat, k: Path)
    requires Valid(c)
    requires path in c.buffers
    requires IsEnumeration(order, c.ttl.Keys)
    requires k in c.ttl && k != path
    ensures var r := Get(c, fs, freeMemory, order, path, start).cache;
            k in r.ttl && r.ttl[path] - r.ttl[k] == c.ttl[path] - c.ttl[k] + 1
  {
  }

  /** No score is ever positive: scores start at 0 and only ever drop. */
  predicate ScoresNonPositive(c: Cache) {
    forall k | k in c.ttl :: c.ttl[k] <= 0
  }

  lemma GetKeepsScoresNonPositive(c: Cache, fs: FileSystem, freeMemory: nat, order: seq<Path>,
                                  path: Path, start: nat)
    requires Valid(c) && ScoresNonPositive(c)
    requires path in c.buffers || path in fs
    requires IsEnumeration(order, c.ttl.Keys)
    ensures ScoresNonPositive(Get(c, fs, freeMemory, order, path, start).cache)
  {
  }

  /** The resolved entry is not guaranteed a strictly highest score: after
      resolving a, b and then a again on an unpressured cache, a and b tie. */
  lemma ResolvedEntryMayTie(fs: FileSystem, freeMemory: nat)
    requires "a" in fs && "b" in fs
    requires !UnderPressure(freeMemory, |fs["a"]|) && !UnderPressure(freeMemory, |fs["b"]|)
    ensures var c1 := Get(Empty, fs, freeMemory, [], "a", 0).cache;
            var c2 := Get(c1, fs, freeMemory, ["a"], "b", 0).cache;
            IsEnumeration(["a", "b"], c2.ttl.Keys) &&
            var c3 := Get(c2, fs, freeMemory, ["a", "b"], "a", 0).cache;
            c3.ttl["a"] == c3.ttl["b"] == -1
  {
    var c1 := Get(Empty, fs, freeMemory, [], "a", 0).cache;
    TieFirst(fs, freeMemory);
    TieSecond(c1, fs, freeMemory);
    var c2 := Get(c1, fs, freeMemory, ["a"], "b", 0).cache;
    TieThird(c2, fs, freeMemory);
  }

  /** Step one of `ResolvedEntryMayTie`: a is loaded with score 0. */
  lemma TieFirst(fs: FileSystem, freeMemory: nat)
    requires "a" in fs
    ensures var c := Get(Empty, fs, freeMemory, [], "a", 0).cache;
            c.ttl.Keys == {"a"} && c.ttl["a"] == 0
  {
  }

  /** Step two: b is loaded with score 0 and a drops to -1. */
  lemma TieSecond(c: Cache, fs: FileSystem, freeMemory: nat)
    requires Valid(c) && c.ttl.Keys == {"a"} && c.ttl["a"] == 0
    requires "b" in fs && !UnderPressure(freeMemory, |fs["b"]|)
    ensures IsEnumeration(["a"], c.ttl.Keys)
    ensures var r := Get(c, fs, freeMemory, ["a"], "b", 0).cache;
            r.ttl.Keys == {"a", "b"} && r.ttl["a"] == -1 && r.ttl["b"] == 0
  {
    var order: seq<Path> := ["a"];
    assert IsEnumeration(order, c.ttl.Keys);
    var r := Get(c, fs, freeMemory, order, "b", 0).cache;
    assert "a" != "b";
    assert c.buffers.Keys <= r.buffers.Keys;
    assert r.ttl["a"] == c.ttl["a"] - 1;
  }

  /** Step three: a is hit and keeps -1 while b drops to -1. */
  lemma TieThird(c: Cache, fs: FileSystem, freeMemory: nat)
    requires Valid(c) && c.ttl.Keys == {"a", "b"} && c.ttl["a"] == -1 && c.ttl["b"] == 0
    ensures IsEnumeration(["a", "b"], c.ttl.Keys)
    ensures var r := Get(c, fs, freeMemory, ["a", "b"], "a", 0).cache;
            r.ttl["a"] == r.ttl["b"] == -1
  {
    var order: seq<Path> := ["a", "b"];
    assert order[0] != order[1];
    assert IsEnumeration(order, c.ttl.Keys);
    var r := Get(c, fs, freeMemory, order, "a", 0).cache;
    assert r.buffers == c.buffers;
    assert r.ttl["b"] == c.ttl["b"] - 1;
  }
}
