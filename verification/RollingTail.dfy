/**
 A command's output drained with a memory bound (`run_argv_bounded`): only the newest bytes are kept,
 and a partial first line is dropped.

 Text is trimmed as bytes: UTF-8 decoding keeps a newline byte a newline and makes no other.
 */
module RollingTail {
  newtype byte = x: int | 0 <= x < 256

  const NEWLINE: byte := 10

  /** The stream that a run of reads delivers; an empty one ends it. */
  function Stream(chunks: seq<seq<byte>>): seq<byte> {
    if chunks == [] || chunks[0] == [] then [] else chunks[0] + Stream(chunks[1..])
  }

  /** The last `n` bytes, or all. */
  function Newest(s: seq<byte>, n: nat): (r: seq<byte>)
    ensures |r| == if |s| <= n then |s| else n
    ensures exists before :: s == before + r
  {
    if |s| <= n then assert s == [] + s; s else assert s == s[..|s| - n] + s[|s| - n..]; s[|s| - n..]
  }

  /** Trimming as the bytes come in keeps what trimming at the end would. */
  lemma NewestOfMore(s: seq<byte>, chunk: seq<byte>, n: nat)
    ensures Newest(Newest(s, n) + chunk, n) == Newest(s + chunk, n)
  {
    if |s| > n {
      var cut := |s| - n;
      assert s + chunk == s[..cut] + (s[cut..] + chunk);
      assert forall k | 0 <= k <= n + |chunk| :: (s + chunk)[cut + k..] == (s[cut..] + chunk)[k..];
    }
  }

  lemma StreamNext(chunks: seq<seq<byte>>, i: nat, before: seq<byte>)
    requires i < |chunks| && Stream(chunks) == before + Stream(chunks[i..])
    ensures chunks[i] != [] ==> Stream(chunks) == (before + chunks[i]) + Stream(chunks[i + 1..])
    ensures chunks[i] == [] ==> Stream(chunks) == before
  {
    StreamCons(chunks, i);
    hide Stream;
    if chunks[i] == [] {
      assert before + [] == before;
    } else {
      Regroup(before, chunks[i], Stream(chunks[i + 1..]));
    }
  }

  lemma Regroup(a: seq<byte>, b: seq<byte>, c: seq<byte>)
    ensures a + (b + c) == (a + b) + c
  {
  }

  lemma StreamCons(chunks: seq<seq<byte>>, i: nat)
    requires i < |chunks|
    ensures Stream(chunks[i..]) == if chunks[i] == [] then [] else chunks[i] + Stream(chunks[i + 1..])
  {
    assert chunks[i..][1..] == chunks[i + 1..];
  }

  /** `drain`: however the stream is cut into chunks, its newest bytes are kept, and `over` says
      whether any were lost. */
  method Drain(chunks: seq<seq<byte>>, maxBytes: nat) returns (tail: seq<byte>, over: bool)
    requires maxBytes > 0
    ensures tail == Newest(Stream(chunks), maxBytes)
    ensures over <==> |Stream(chunks)| > maxBytes
  {
    tail, over := [], false;
    ghost var taken: seq<byte> := [];
    var i := 0;
    assert chunks[0..] == chunks;
    while i < |chunks| && chunks[i] != []
      invariant i <= |chunks| && Stream(chunks) == taken + Stream(chunks[i..])
      invariant tail == Newest(taken, maxBytes)
      invariant over <==> |taken| > maxBytes
    {
      StreamNext(chunks, i, taken);
      NewestOfMore(taken, chunks[i], maxBytes);
      taken := taken + chunks[i];
      tail := tail + chunks[i];
      if |tail| > maxBytes {
        tail := tail[|tail| - maxBytes..];
        over := true;
      }
      i := i + 1;
    }
    if i < |chunks| {
      StreamNext(chunks, i, taken);
    } else {
      assert taken + [] == taken;
    }
  }

  function FirstNewline(s: seq<byte>): (k: nat)
    ensures k <= |s| && (k < |s| ==> s[k] == NEWLINE) && forall i | 0 <= i < k :: s[i] != NEWLINE
  {
    if s == [] || s[0] == NEWLINE then 0 else 1 + FirstNewline(s[1..])
  }

  /** `text` */
  function Trimmed(tail: seq<byte>, over: bool): seq<byte> {
    if over && FirstNewline(tail) < |tail| then tail[FirstNewline(tail) + 1..] else tail
  }

  /** A line of the stream begins at `k`, after a newline. */
  predicate LineStart(s: seq<byte>, k: nat) {
    0 < k <= |s| && s[k - 1] == 10
  }

  /** What a bounded run shows: all of a stream that did not overflow; of one that did, the longest run of
      its last lines that is shorter than the bound, or, if there is none, its newest bytes, cut wherever
      they begin. */
  lemma ShownIsWholeLines(s: seq<byte>, maxBytes: nat)
    requires maxBytes > 0
    ensures var shown := Trimmed(Newest(s, maxBytes), |s| > maxBytes);
            var from := |s| - |shown|;
            && shown == s[from..]
            && if |s| <= maxBytes then from == 0
               else if exists k :: |s| - maxBytes < k <= |s| && LineStart(s, k) then
                 LineStart(s, from) && |shown| < maxBytes && forall k | |s| - maxBytes < k < from :: !LineStart(s, k)
               else shown == Newest(s, maxBytes)
  {
    if |s| <= maxBytes {
      return;
    }
    var cut, tail := |s| - maxBytes, s[|s| - maxBytes..];
    var n := FirstNewline(tail);
    forall k | cut < k <= cut + n ensures !LineStart(s, k) {
      assert tail[k - 1 - cut] == s[k - 1];
    }
    if n < |tail| {
      assert s[cut + n] == tail[n];
      assert LineStart(s, cut + n + 1);
      assert tail[n + 1..] == s[cut + n + 1..];
    }
  }

  /** From `from` on, `s` is the longest run of its whole last lines within the bound. */
  predicate IsLongestRun(s: seq<byte>, maxBytes: nat, from: nat)
    requires maxBytes <= |s|
  {
    LineStart(s, from) && |s| - maxBytes <= from && forall k | |s| - maxBytes <= k < from :: !LineStart(s, k)
  }

  /** When whole lines fit, an overflowing run shows the longest run of them unless a line starts at the very
      cut and another after it: then the first, left whole, is dropped. */
  lemma LongestRunExactly(s: seq<byte>, maxBytes: nat)
    requires 0 < maxBytes < |s| && exists k :: |s| - maxBytes <= k <= |s| && LineStart(s, k)
    ensures var cut := |s| - maxBytes;
            IsLongestRun(s, maxBytes, |s| - |Trimmed(Newest(s, maxBytes), true)|)
            <==> !(LineStart(s, cut) && exists k :: cut < k <= |s| && LineStart(s, k))
  {
    hide Trimmed, Newest;
    ShownIsWholeLines(s, maxBytes);
    NewestIsShort(s, maxBytes);
  }

  lemma NewestIsShort(s: seq<byte>, maxBytes: nat)
    requires maxBytes <= |s|
    ensures |Newest(s, maxBytes)| == maxBytes
  {
  }

  /** A first line that the cut leaves whole is dropped too. */
  lemma WholeFirstLineIsDropped(line: seq<byte>, before: seq<byte>, rest: seq<byte>)
    requires NEWLINE !in line && before != [] && before[|before| - 1] == 10
    ensures var tail := line + [NEWLINE] + rest;
            Newest(before + tail, |tail|) == tail && Trimmed(tail, true) == rest
  {
    var tail := line + [NEWLINE] + rest;
    assert tail[|line|] == 10 && forall i | 0 <= i < |line| :: tail[i] == line[i];
    assert (before + tail)[|before|..] == tail;
    assert FirstNewline(tail) == |line|;
    assert tail[|line| + 1..] == rest;
  }
}
