/**
 * The chunked stream codec, independent of what is being carried: the pull
 * loop that reads a serialized message from the host chunk by chunk, and the
 * cutting of a serialized blob into chunks of a fixed size that the writer
 * loops perform.
 */
module Chunks {
  import opened PyValues

  /** Chunk size used by every read and write loop: 3 MiB, below the host's string limit. */
  const ChunkSize: nat := 3 * 1024 * 1024

  /** `"".join(parts)` / `b"".join(parts)`. */
  function Concat<T>(parts: seq<seq<T>>): seq<T> {
    if |parts| == 0 then [] else Concat(parts[..|parts| - 1]) + parts[|parts| - 1]
  }

  /** What the host returns for request number `iteration`: segment `iteration`, or empty past the end. */
  function SegmentAt<T>(source: seq<seq<T>>, iteration: nat): seq<T> {
    if iteration < |source| then source[iteration] else []
  }

  /** The number of segments before the first empty one (all of them when none is empty). */
  function LeadingNonEmpty<T>(source: seq<seq<T>>): (n: nat)
    ensures n <= |source|
    ensures forall k :: 0 <= k < n ==> source[k] != []
    ensures n < |source| ==> source[n] == []
  {
    if |source| == 0 || source[0] == [] then 0 else 1 + LeadingNonEmpty(source[1..])
  }

  /**
   * The pull loop: request segments 0, 1, 2, ... until an empty one comes back,
   * and join what came before it.
   */
  method PullChunks<T>(source: seq<seq<T>>) returns (blob: seq<T>, requests: nat)
    ensures requests == LeadingNonEmpty(source) + 1
    ensures blob == Concat(source[..LeadingNonEmpty(source)])
    ensures source == [] ==> blob == []
  {
    var chunks: seq<seq<T>> := [];
    var iteration := 0;
    while true
      invariant iteration <= |source|
      invariant chunks == source[..iteration]
      invariant forall k :: 0 <= k < iteration ==> source[k] != []
      decreases |source| - iteration
    {
      var part := SegmentAt(source, iteration);
      if part == [] {
        break;
      }
      chunks := chunks + [part];
      iteration := iteration + 1;
    }
    LeadingNonEmptyIsFirstEmpty(source, iteration);
    blob := Concat(chunks);
    requests := iteration + 1;
  }

  lemma {:induction false} LeadingNonEmptyIsFirstEmpty<T>(source: seq<seq<T>>, i: nat)
    requires i <= |source|
    requires forall k :: 0 <= k < i ==> source[k] != []
    requires i == |source| || source[i] == []
    ensures LeadingNonEmpty(source) == i
  {
    if i > 0 {
      LeadingNonEmptyIsFirstEmpty(source[1..], i - 1);
    }
  }

  /**
   * The cutting performed by a writer loop: slices `[start:start + size]` for
   * start = 0, size, 2*size, ... for as long as the slice is not empty.
   */
  function Segments<T>(blob: seq<T>, size: nat): (parts: seq<seq<T>>)
    requires size > 0
    decreases |blob|
  {
    if |blob| == 0 then [] else [Slice(blob, 0, size)] + Segments(DropPrefix(blob, size), size)
  }

  /** The chunks put back together give the blob. */
  lemma {:induction false} ConcatSegments<T>(blob: seq<T>, size: nat)
    requires size > 0
    ensures Concat(Segments(blob, size)) == blob
    decreases |blob|
  {
    if |blob| > 0 {
      var rest := DropPrefix(blob, size);
      ConcatSegments(rest, size);
      ConcatCons(Slice(blob, 0, size), Segments(rest, size));
      assert Slice(blob, 0, size) + rest == blob;
    }
  }

  lemma {:induction false} ConcatCons<T>(head: seq<T>, tail: seq<seq<T>>)
    ensures Concat([head] + tail) == head + Concat(tail)
  {
    if |tail| > 0 {
      var pre := tail[..|tail| - 1];
      assert ([head] + tail)[..|tail|] == [head] + pre;
      ConcatCons(head, pre);
    } else {
      assert [head] + tail == [head];
      assert [head][..0] == [];
    }
  }

  /** Every chunk is non-empty and at most `size` long. */
  lemma {:induction false} SegmentsBounded<T>(blob: seq<T>, size: nat)
    requires size > 0
    ensures forall k :: 0 <= k < |Segments(blob, size)| ==> 0 < |Segments(blob, size)[k]| <= size
    decreases |blob|
  {
    if |blob| > 0 {
      var rest := DropPrefix(blob, size);
      SegmentsBounded(rest, size);
      var parts := Segments(blob, size);
      assert parts == [Slice(blob, 0, size)] + Segments(rest, size);
      forall k | 0 <= k < |parts| ensures 0 < |parts[k]| <= size {
        if k > 0 { assert parts[k] == Segments(rest, size)[k - 1]; }
      }
    }
  }

  /** There are ceil(|blob| / size) chunks: enough to hold the blob, one fewer would not be. */
  lemma {:induction false} SegmentsCount<T>(blob: seq<T>, size: nat)
    requires size > 0
    ensures |blob| <= |Segments(blob, size)| * size
    ensures |Segments(blob, size)| > 0 ==> (|Segments(blob, size)| - 1) * size < |blob|
    decreases |blob|
  {
    if |blob| > 0 {
      var rest := DropPrefix(blob, size);
      SegmentsCount(rest, size);
      var m := |Segments(rest, size)|;
      assert |Segments(blob, size)| == m + 1;
      assert (m + 1) * size == m * size + size;
      if |blob| <= size {
        assert m == 0;
      } else {
        assert |rest| == |blob| - size;
        assert m > 0;
        assert (m - 1) * size == m * size - size;
      }
    }
  }

  /** Each chunk's slice `[start:start + size]` advances: a slice from the current cursor and the rest. */
  lemma SegmentsStep<T>(blob: seq<T>, start: nat, size: nat)
    requires size > 0
    requires start < |blob|
    ensures Segments(DropPrefix(blob, start), size)
         == [Slice(blob, start, start + size)] + Segments(DropPrefix(blob, start + size), size)
  {
    var b := DropPrefix(blob, start);
    assert Slice(b, 0, size) == Slice(blob, start, start + size);
    assert DropPrefix(b, size) == DropPrefix(blob, start + size);
  }

  /**
   * The state of a writer loop whose cursor is at `start`: the stream holds the
   * blob up to the cursor, and the chunks written so far followed by the
   * chunks still to come are the blob's chunks.
   */
  ghost predicate Written<T>(blob: seq<T>, size: nat, start: nat, content: seq<T>, pieces: seq<seq<T>>)
    requires size > 0
  {
    && content == Slice(blob, 0, start)
    && pieces + Segments(DropPrefix(blob, start), size) == Segments(blob, size)
  }

  /** Writing the chunk at the cursor and advancing the cursor by `size` keeps the writer's state. */
  lemma WrittenStep<T>(blob: seq<T>, size: nat, start: nat, content: seq<T>, pieces: seq<seq<T>>)
    requires size > 0 && start < |blob|
    requires Written(blob, size, start, content, pieces)
    ensures Written(blob, size, start + size, content + Slice(blob, start, start + size),
                    pieces + [Slice(blob, start, start + size)])
  {
    var chunk := Slice(blob, start, start + size);
    var hi := if start + size < |blob| then start + size else |blob|;
    assert content == blob[..start];
    assert chunk == blob[start..hi];
    assert content + chunk == blob[..hi];
    SegmentsStep(blob, start, size);
    var rest := Segments(DropPrefix(blob, start + size), size);
    assert (pieces + [chunk]) + rest == pieces + ([chunk] + rest);
  }

  /** Once the chunk at the cursor is empty, everything has been written, in the blob's chunks. */
  lemma WrittenDone<T>(blob: seq<T>, size: nat, start: nat, content: seq<T>, pieces: seq<seq<T>>)
    requires size > 0
    requires Written(blob, size, start, content, pieces)
    requires Slice(blob, start, start + size) == []
    ensures content == blob
    ensures pieces == Segments(blob, size)
  {
    assert start >= |blob|;
    assert DropPrefix(blob, start) == [];
    assert pieces + [] == pieces;
  }

  /**
   * Writing a blob in chunks of one size and reading it back with the pull loop
   * gives the blob back, whatever the size.
   */
  lemma ReadBackWritten<T>(blob: seq<T>, size: nat)
    requires size > 0
    ensures LeadingNonEmpty(Segments(blob, size)) == |Segments(blob, size)|
    ensures Concat(Segments(blob, size)[..LeadingNonEmpty(Segments(blob, size))]) == blob
  {
    var parts := Segments(blob, size);
    SegmentsBounded(blob, size);
    LeadingNonEmptyIsFirstEmpty(parts, |parts|);
    assert parts[..|parts|] == parts;
    ConcatSegments(blob, size);
  }

  /** Segments after the first empty one are never requested and do not reach the result. */
  lemma {:induction false} PullStopsAtFirstEmpty<T>(front: seq<seq<T>>, back: seq<seq<T>>)
    requires forall k :: 0 <= k < |front| ==> front[k] != []
    ensures LeadingNonEmpty(front + [[]] + back) == |front|
    ensures (front + [[]] + back)[..|front|] == front
  {
    var s := front + [[]] + back;
    assert s[|front|] == [];
    forall k | 0 <= k < |front| ensures s[k] != [] { assert s[k] == front[k]; }
    LeadingNonEmptyIsFirstEmpty(s, |front|);
  }

  /** A 10-character blob in chunks of 4 is sent as chunks of 4, 4 and 2. */
  lemma TenInFours<T>(blob: seq<T>)
    requires |blob| == 10
    ensures |Segments(blob, 4)| == 3
    ensures |Segments(blob, 4)[0]| == 4 && |Segments(blob, 4)[1]| == 4 && |Segments(blob, 4)[2]| == 2
  {
    var r1 := DropPrefix(blob, 4);
    var r2 := DropPrefix(r1, 4);
    var r3 := DropPrefix(r2, 4);
    assert |r1| == 6 && |r2| == 2 && |r3| == 0;
    assert Segments(r3, 4) == [];
    assert Segments(r2, 4) == [Slice(r2, 0, 4)];
  }
}
