/** The fixed character-count wrap applied to each remarks line: consecutive
    slices of at most 35 characters, with no regard to word boundaries. */
module Wrap {
  import opened Text

  /** Characters per wrapped remarks line. */
  const WrapWidth: nat := 35

  /** Python's `s[lo:hi]` for 0 <= lo <= hi: both ends are clamped to |s|. */
  function Slice(s: string, lo: nat, hi: nat): (r: string)
    requires lo <= hi
    ensures lo < |s| ==> r == s[lo..if hi < |s| then hi else |s|]
    ensures |s| <= lo ==> r == []
  {
    if |s| <= lo then [] else if hi < |s| then s[lo..hi] else s[lo..]
  }

  /** The chunks `line[i:i+35]` for i in `range(0, len(line), 35)`. */
  function Chunks(line: string): seq<string>
    decreases |line|
  {
    if line == [] then []
    else if |line| <= WrapWidth then [line]
    else [line[..WrapWidth]] + Chunks(line[WrapWidth..])
  }

  /** Every chunk holds 1 to 35 characters, and all but the last exactly 35. */
  lemma {:induction false} ChunkBounds(line: string)
    ensures forall k :: 0 <= k < |Chunks(line)| ==> 1 <= |Chunks(line)[k]| <= WrapWidth
    ensures forall k :: 0 <= k < |Chunks(line)| - 1 ==> |Chunks(line)[k]| == WrapWidth
    decreases |line|
  {
    if |line| > WrapWidth {
      var rest := line[WrapWidth..];
      ChunkBounds(rest);
      assert forall k :: 1 <= k < |Chunks(line)| ==> Chunks(line)[k] == Chunks(rest)[k - 1];
    }
  }

  /** The k-th chunk is exactly Python's slice `line[35*k : 35*k + 35]`. */
  lemma {:induction false} ChunkAt(line: string, k: nat)
    requires k < |Chunks(line)|
    ensures Chunks(line)[k] == Slice(line, k * WrapWidth, k * WrapWidth + WrapWidth)
    decreases |line|
  {
    if k > 0 {
      assert |line| > WrapWidth;
      var rest := line[WrapWidth..];
      ChunkAt(rest, k - 1);
      ChunkCount(rest);
      assert Chunks(line)[k] == Chunks(rest)[k - 1];
      var lo := (k - 1) * WrapWidth;
      assert lo + WrapWidth == k * WrapWidth;
      assert lo < |rest|;
      if lo + WrapWidth < |rest| {
        assert rest[lo..lo + WrapWidth] == line[k * WrapWidth..k * WrapWidth + WrapWidth];
      } else {
        assert rest[lo..] == line[k * WrapWidth..];
      }
    }
  }

  /** One step of the slicing loop: the chunks from index i on are the
      slice `line[i:i+35]` followed by the chunks from i + 35 on. */
  lemma ChunksStep(line: string, i: nat)
    requires i < |line|
    ensures Chunks(line[i..]) ==
      [Slice(line, i, i + WrapWidth)] + Chunks(if i + WrapWidth < |line| then line[i + WrapWidth..] else [])
  {
    var rest := line[i..];
    if |rest| > WrapWidth {
      assert Slice(line, i, i + WrapWidth) == rest[..WrapWidth];
      assert rest[WrapWidth..] == line[i + WrapWidth..];
    } else {
      assert Slice(line, i, i + WrapWidth) == rest;
    }
  }

  /** A line of length L gives ceil(L / 35) chunks; an empty line gives none. */
  lemma {:induction false} ChunkCount(line: string)
    ensures |Chunks(line)| == (|line| + WrapWidth - 1) / WrapWidth
    decreases |line|
  {
    if |line| > WrapWidth {
      ChunkCount(line[WrapWidth..]);
    }
  }

  /** Concatenating the chunks in order reproduces the line exactly. */
  lemma {:induction false} ChunkConcat(line: string)
    ensures Concat(Chunks(line)) == line
    decreases |line|
  {
    if |line| > WrapWidth {
      ChunkConcat(line[WrapWidth..]);
      assert line == line[..WrapWidth] + line[WrapWidth..];
    } else if line != [] {
      assert line + [] == line;
    }
  }

  /** The chunks of every line, line after line. */
  function WrapAll(lines: seq<string>): seq<string> {
    if lines == [] then [] else Chunks(lines[0]) + WrapAll(lines[1..])
  }

  /** Every wrapped line holds 1 to 35 characters. */
  lemma {:induction false} WrapAllBounds(lines: seq<string>)
    ensures forall k :: 0 <= k < |WrapAll(lines)| ==> 1 <= |WrapAll(lines)[k]| <= WrapWidth
  {
    if lines != [] {
      ChunkBounds(lines[0]);
      WrapAllBounds(lines[1..]);
    }
  }

  /** Source order is kept: the wrapped lines of a text made of two runs of
      source lines are those of the first run, then those of the second. */
  lemma {:induction false} WrapAllAppend(a: seq<string>, b: seq<string>)
    ensures WrapAll(a + b) == WrapAll(a) + WrapAll(b)
  {
    if a == [] {
      assert a + b == b;
    } else {
      assert (a + b)[1..] == a[1..] + b;
      WrapAllAppend(a[1..], b);
    }
  }

  /** Wrapping keeps every character of every line, in order. */
  lemma {:induction false} WrapAllConcat(lines: seq<string>)
    ensures Concat(WrapAll(lines)) == Concat(lines)
  {
    if lines != [] {
      ConcatAppend(Chunks(lines[0]), WrapAll(lines[1..]));
      ChunkConcat(lines[0]);
      WrapAllConcat(lines[1..]);
    }
  }

  /** An empty source line contributes no wrapped line: it collapses. */
  lemma {:induction false} EmptyLineVanishes(before: seq<string>, after: seq<string>)
    ensures WrapAll(before + [""] + after) == WrapAll(before) + WrapAll(after)
  {
    var empty: seq<string> := [""];
    assert empty[1..] == [];
    var none := WrapAll(empty);
    assert none == [];
    WrapAllAppend(before, empty);
    WrapAllAppend(before + empty, after);
    assert WrapAll(before + empty) == WrapAll(before);
  }
}
