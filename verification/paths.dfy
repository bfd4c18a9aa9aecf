/**
 From a parquet row to the file to read: the row's path column, joined under
 the optional n-gram base directory, and its offset column read as `u64`.
 */
module Paths {

  import opened Wrappers
  import opened FileCache

  /** One parquet row: column 0 is the corpus file, column 1 the line's byte offset. */
  datatype NgramIndex = NgramIndex(file: string, startInFile: nat)

  const TWO_TO_64: int := 0x1_0000_0000_0000_0000

  /** `columns.get_long(1) as u64`: the signed 64-bit column reinterpreted as unsigned. */
  function AsU64(v: int): (r: nat)
    ensures r < TWO_TO_64
    ensures 0 <= v < TWO_TO_64 ==> r == v
    ensures -TWO_TO_64 / 2 <= v < 0 ==> r == v + TWO_TO_64
  {
    v % TWO_TO_64
  }

  /** The `NgramIndex` built from a row's two columns. The tables the pipeline
      is given are sequences of rows already built this way;
      `Pipeline.NegativeOffsetReadsNothing` says what a negative offset
      column does downstream. */
  function FromColumns(file: string, offset: int): (x: NgramIndex)
    ensures x.file == file && x.startInFile == AsU64(offset)
  {
    NgramIndex(file, AsU64(offset))
  }

  predicate IsAbsolute(p: Path) {
    |p| > 0 && p[0] == '/'
  }

  /** `Path::join` on Unix: an absolute `file` replaces the base; otherwise a
      separator is inserted unless the base is empty or already ends in one. */
  function Join(base: Path, file: Path): (p: Path)
    ensures IsAbsolute(file) ==> p == file
    ensures |file| <= |p| && p[|p| - |file|..] == file
    ensures !IsAbsolute(file) ==> |base| <= |p| && p[..|base|] == base
    ensures !IsAbsolute(file) && |base| > 0 ==> |file| < |p| && p[|p| - |file| - 1] == '/'
    ensures !IsAbsolute(file) ==>
      |p| == |base| + |file| + (if 0 < |base| && base[|base| - 1] != '/' then 1 else 0)
  {
    if IsAbsolute(file) then file
    else if |base| == 0 || base[|base| - 1] == '/' then base + file
    else base + "/" + file
  }

  /** Under one base directory, distinct relative files give distinct paths. */
  lemma JoinInjective(base: Path, f1: Path, f2: Path)
    requires !IsAbsolute(f1) && !IsAbsolute(f2)
    ensures Join(base, f1) == Join(base, f2) ==> f1 == f2
  {
    var p1, p2 := Join(base, f1), Join(base, f2);
    if p1 == p2 {
      var head := |p1| - |f1|;
      assert head == |p2| - |f2|;
      assert f1 == p1[head..] == p2[head..] == f2;
    }
  }

  /** The path `get` is called with for a row's file column. */
  function RowPath(ngrams: Option<Path>, file: Path): (p: Path)
    ensures ngrams.None? ==> p == file
    ensures ngrams.Some? ==> p == Join(ngrams.value, file)
  {
    match ngrams
    case Some(base) => Join(base, file)
    case None => file
  }

  /** Two row files name the same cache entry only if they are the same file,
      as long as they are both relative or both absolute (or there is no
      base directory). */
  lemma RowPathInjective(ngrams: Option<Path>, f1: Path, f2: Path)
    requires ngrams.None? || IsAbsolute(f1) == IsAbsolute(f2)
    ensures RowPath(ngrams, f1) == RowPath(ngrams, f2) <==> f1 == f2
  {
    if ngrams.Some? && !IsAbsolute(f1) {
      JoinInjective(ngrams.value, f1, f2);
    }
  }

  /** Without that proviso the mapping is not injective: under base `/x` the
      relative file `a` and the absolute file `/x/a` share one cache entry. */
  lemma RowPathMixedCollide()
    ensures RowPath(Some("/x"), "a") == RowPath(Some("/x"), "/x/a")
    ensures "a" != "/x/a"
  {
    assert Join("/x", "a") == "/x" + "/" + "a";
  }
}
