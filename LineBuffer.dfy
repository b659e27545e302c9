/**
 * `TLimitedFileBuffer`: a list of lines that keeps only the most recent
 * ones, used by the crash handler to collect the tail of the P2P log.
 */
module LineBuffer {

  /** The last `n` lines of `s`, or all of them when there are no more than `n`. */
  function LastLines(s: seq<string>, n: nat): (r: seq<string>)
    ensures |r| == if |s| <= n then |s| else n
    ensures forall k :: 0 <= k < |r| ==> r[k] == s[|s| - |r| + k]
  {
    if |s| <= n then s else s[|s| - n..]
  }

  /** Appending a line and then dropping the front when over capacity keeps the last `n` lines. */
  lemma LastLinesSnoc(s: seq<string>, line: string, n: nat)
    ensures var grown := LastLines(s, n) + [line];
      LastLines(s + [line], n) == if |grown| > n then grown[1..] else grown
  {
    var grown := LastLines(s, n) + [line];
    var expected := if |grown| > n then grown[1..] else grown;
    var t := s + [line];
    assert |LastLines(t, n)| == |expected|;
    forall k | 0 <= k < |expected| ensures LastLines(t, n)[k] == expected[k] {
      if |grown| > n {
        assert expected[k] == grown[k + 1];
      }
    }
  }

  /** The capacity used for the crash log excerpt. */
  const CrashLogLines: nat := 15000

  class LimitedFileBuffer {
    const maxLineCount: nat
    var buffer: seq<string>
    /** Every line pushed since construction, oldest first. */
    ghost var pushed: seq<string>

    ghost predicate Valid()
      reads this
    {
      buffer == LastLines(pushed, maxLineCount)
    }

    constructor (lc: nat)
      ensures Valid()
      ensures maxLineCount == lc && buffer == [] && pushed == []
    {
      maxLineCount := lc;
      buffer := [];
      pushed := [];
    }

    /** `push_back`: append at the back, then drop the front line when over capacity. */
    method PushBack(line: string)
      requires Valid()
      modifies this`buffer, this`pushed
      ensures Valid() && pushed == old(pushed) + [line]
      ensures |buffer| <= maxLineCount
      ensures |old(buffer)| < maxLineCount ==> buffer == old(buffer) + [line]
      ensures |old(buffer)| == maxLineCount ==> buffer == (old(buffer) + [line])[1..]
    {
      LastLinesSnoc(pushed, line, maxLineCount);
      buffer := buffer + [line];
      if |buffer| > maxLineCount {
        buffer := buffer[1..];
      }
      pushed := pushed + [line];
    }

    /** The lines from `begin()` to `end()`: the last lines pushed, in push order. */
    function Lines(): (r: seq<string>)
      requires Valid()
      reads this
      ensures |r| <= maxLineCount && |r| <= |pushed|
      ensures |r| == if |pushed| <= maxLineCount then |pushed| else maxLineCount
      ensures forall k :: 0 <= k < |r| ==> r[k] == pushed[|pushed| - |r| + k]
    {
      buffer
    }
  }

  /**
   * What the crash handler copies into the buffer: every line of the log in
   * order; the buffer then holds the last 15000.
   */
  method CollectLastLines(lines: seq<string>) returns (tail: seq<string>)
    ensures tail == LastLines(lines, CrashLogLines)
  {
    var buffer := new LimitedFileBuffer(CrashLogLines);
    var i := 0;
    while i < |lines|
      invariant 0 <= i <= |lines|
      invariant fresh(buffer) && buffer.maxLineCount == CrashLogLines
      invariant buffer.Valid() && buffer.pushed == lines[..i]
    {
      assert lines[..i + 1] == lines[..i] + [lines[i]];
      buffer.PushBack(lines[i]);
      i := i + 1;
    }
    assert lines[..i] == lines;
    tail := buffer.buffer;
  }
}
