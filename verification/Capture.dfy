/** The writer that captures a program's output and drops everything past a cap. */
module OutputCapture {

  function Flatten<T>(chunks: seq<seq<T>>): seq<T> {
    if chunks == [] then [] else Flatten(chunks[..|chunks| - 1]) + chunks[|chunks| - 1]
  }

  /** What a cap leaves of everything written; a cap of zero or less is no cap. */
  function Kept<T>(max: int, written: seq<T>): seq<T> {
    if max <= 0 || |written| <= max then written else written[..max]
  }

  /** Some chunk did not fit, or arrived when the buffer was already full. */
  predicate Refused<T>(max: int, chunks: seq<seq<T>>) {
    max > 0 && exists i | 0 <= i < |chunks| :: RefusedAt(max, chunks, i)
  }

  predicate RefusedAt<T>(max: int, chunks: seq<seq<T>>, i: int)
    requires 0 <= i < |chunks|
  {
    |Flatten(chunks[..i])| >= max || |Flatten(chunks[..i])| + |chunks[i]| > max
  }

  class CappedBuffer<T> {
    const max: int
    var buf: seq<T>
    var capped: bool
    ghost var chunks: seq<seq<T>>

    ghost predicate Valid()
      reads this
    {
      && buf == Kept(max, Flatten(chunks))
      && (capped <==> Refused(max, chunks))
    }

    constructor (max: int)
      ensures Valid() && this.max == max && chunks == []
    {
      this.max := max;
      buf, capped, chunks := [], false, [];
    }

    /** Takes as much of the chunk as still fits and claims to have taken all of it. */
    method Write(p: seq<T>) returns (n: nat)
      requires Valid()
      modifies this
      ensures Valid() && chunks == old(chunks) + [p]
      ensures n == |p|
      ensures buf == Kept(max, Flatten(old(chunks)) + p)
    {
      FlattenSnoc(chunks, p);
      n := |p|;
      if max <= 0 {
        buf := buf + p;
        chunks := chunks + [p];
        return;
      }
      RefusedSnoc(max, chunks, p);
      chunks := chunks + [p];
      var remaining := max - |buf|;
      if remaining <= 0 {
        capped := true;
        return;
      }
      if |p| > remaining {
        capped := true;
        buf := buf + p[..remaining];
        return;
      }
      buf := buf + p;
    }
  }

  /** A positive cap keeps the longest beginning that fits, any other keeps everything. */
  lemma KeptExactly<T>(max: int, written: seq<T>)
    ensures Kept(max, written) <= written
    ensures |Kept(max, written)| == if 0 < max < |written| then max else |written|
  {
  }

  lemma FlattenSnoc<T>(chunks: seq<seq<T>>, p: seq<T>)
    ensures Flatten(chunks + [p]) == Flatten(chunks) + p
  {
    assert (chunks + [p])[..|chunks|] == chunks;
  }

  lemma RefusedSnoc<T>(max: int, chunks: seq<seq<T>>, p: seq<T>)
    requires max > 0
    ensures Refused(max, chunks + [p])
            <==> Refused(max, chunks) || |Flatten(chunks)| >= max || |Flatten(chunks)| + |p| > max
  {
    var more := chunks + [p];
    assert more[..|chunks|] == chunks;
    forall i | 0 <= i < |chunks| ensures RefusedAt(max, more, i) <==> RefusedAt(max, chunks, i) {
      assert more[..i] == chunks[..i];
    }
    if |Flatten(chunks)| >= max || |Flatten(chunks)| + |p| > max {
      assert RefusedAt(max, more, |chunks|);
    }
  }

  lemma {:induction false} FlattenGrows<T>(chunks: seq<seq<T>>, i: nat)
    requires i <= |chunks|
    ensures |Flatten(chunks[..i])| <= |Flatten(chunks)|
    decreases |chunks|
  {
    if i == |chunks| {
      assert chunks[..i] == chunks;
    } else {
      var front := chunks[..|chunks| - 1];
      assert front[..i] == chunks[..i];
      FlattenGrows(front, i);
    }
  }

  /** An empty chunk arrived when the buffer was exactly full. */
  ghost predicate EmptyChunkWhenFull<T>(max: int, chunks: seq<seq<T>>) {
    exists i | 0 <= i < |chunks| :: chunks[i] == [] && |Flatten(chunks[..i])| == max
  }

  /** The truncation flag says that output was dropped, except that an empty write to a buffer that
      is exactly full sets it too. */
  lemma {:induction false} CappedExactly<T>(max: int, chunks: seq<seq<T>>)
    requires max > 0
    ensures Refused(max, chunks) <==> |Flatten(chunks)| > max || EmptyChunkWhenFull(max, chunks)
    decreases |chunks|
  {
    if chunks != [] {
      var front, last := chunks[..|chunks| - 1], chunks[|chunks| - 1];
      assert chunks == front + [last];
      CappedExactly(max, front);
      RefusedSnoc(max, front, last);
      FlattenSnoc(front, last);
      forall i | 0 <= i < |front| ensures chunks[..i] == front[..i] {}
      if EmptyChunkWhenFull(max, chunks) && !EmptyChunkWhenFull(max, front) {
        assert chunks[..|front|] == front;
      }
      if EmptyChunkWhenFull(max, front) {
        var i :| 0 <= i < |front| && front[i] == [] && |Flatten(front[..i])| == max;
        assert chunks[i] == [] && chunks[..i] == front[..i];
      }
      if last == [] && |Flatten(front)| == max {
        assert chunks[..|front|] == front && chunks[|front|] == [];
      }
    }
  }

  /** Content and flag do not depend on how the output was cut into non-empty chunks. */
  lemma ChunkingIsInvisible<T>(max: int, a: seq<seq<T>>, b: seq<seq<T>>)
    requires Flatten(a) == Flatten(b)
    requires [] !in a && [] !in b
    ensures Kept(max, Flatten(a)) == Kept(max, Flatten(b))
    ensures Refused(max, a) <==> Refused(max, b)
    ensures Refused(max, a) <==> max > 0 && |Flatten(a)| > max
  {
    if max > 0 {
      CappedExactly(max, a);
      CappedExactly(max, b);
    }
  }
}
