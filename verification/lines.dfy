/**
 Byte contents of source files and the line a cursor reads from a byte offset:
 seeking a `Cursor` to `start` and calling `read_line` yields the bytes from
 `start` up to and including the next newline, or up to the end of the content.
 */
module Lines {

  import opened Seqs

  newtype byte = x: int | 0 <= x < 256

  /** The line terminator `read_line` stops after. */
  const NEWLINE: byte := 10

  /** `line` is what a read from `start` must return: a prefix of the content at
      `start`, free of newlines except possibly its last byte, and ending either
      with a newline or at the end of the content. */
  predicate IsLineAt(content: seq<byte>, start: nat, line: seq<byte>) {
    if start >= |content| then line == []
    else
      && 0 < |line| <= |content| - start
      && line == content[start..start + |line|]
      && (forall k | 0 <= k < |line| - 1 :: line[k] != NEWLINE)
      && (line[|line| - 1] == NEWLINE || start + |line| == |content|)
  }

  /** One past the first newline at or after `start`, or `|content|` if there is none. */
  function LineEnd(content: seq<byte>, start: nat): (e: nat)
    requires start <= |content|
    ensures start <= e <= |content|
    ensures e == |content| || (start < e && content[e - 1] == NEWLINE)
    ensures forall k | start <= k < |content| && content[k] == NEWLINE :: e <= k + 1
    decreases |content| - start
  {
    if start == |content| then start
    else if content[start] == NEWLINE then start + 1
    else LineEnd(content, start + 1)
  }

  /** The line a cursor positioned at `start` reads; empty at or past the end. */
  function ReadLine(content: seq<byte>, start: nat): (line: seq<byte>)
    ensures IsLineAt(content, start, line)
    ensures |line| == 0 <==> start >= |content|
    ensures start + |line| <= |content| || line == []
  {
    if start >= |content| then [] else content[start..LineEnd(content, start)]
  }

  /** There is only one line at a given offset: `ReadLine` is the unique read. */
  lemma ReadLineUnique(content: seq<byte>, start: nat, line: seq<byte>)
    requires IsLineAt(content, start, line)
    ensures line == ReadLine(content, start)
  {
    if start < |content| {
      var n := start + |line|;
      // The line stops at its first newline, or at the end: where `LineEnd` stops.
      assert content[n - 1] == line[|line| - 1];
      assert forall k | start <= k < n - 1 :: content[k] == line[k - start];
    }
  }

  /** The successive lines a cursor yields when `read_line` is called repeatedly from `start`. */
  function LinesFrom(content: seq<byte>, start: nat): (ls: seq<seq<byte>>)
    ensures start >= |content| ==> ls == []
    ensures forall i | 0 <= i < |ls| :: |ls[i]| > 0
    decreases |content| - start
  {
    if start >= |content| then []
    else
      var line := ReadLine(content, start);
      [line] + LinesFrom(content, start + |line|)
  }

  /** One step of the reader: the first line is the content from `start` up
      to where the next read begins. */
  lemma LinesFromStep(content: seq<byte>, start: nat)
    requires start < |content|
    ensures var next := start + |ReadLine(content, start)|;
      && start < next <= |content|
      && ReadLine(content, start) == content[start..next]
      && LinesFrom(content, start) == [ReadLine(content, start)] + LinesFrom(content, next)
  {
  }

  /** Reading line after line from `start` loses and duplicates nothing:
      the lines concatenate back to the rest of the content. */
  lemma {:induction false} LinesReassemble(content: seq<byte>, start: nat)
    requires start <= |content|
    ensures Flatten(LinesFrom(content, start)) == content[start..]
    decreases |content| - start
  {
    if start < |content| {
      var line := ReadLine(content, start);
      var next := start + |line|;
      LinesFromStep(content, start);
      LinesReassemble(content, next);
      FlattenCons(line, LinesFrom(content, next));
      assert content[start..] == content[start..next] + content[next..];
    }
  }

}
