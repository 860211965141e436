/**
 * Scatter/gather vectors. An iovec array is modelled by the lengths of its
 * buffers (for reads) or by their contents (for writes).
 */
module IoVec {

  /** Total length of a vector: the sum of the `iov_len` fields. */
  function Sum(lens: seq<nat>): nat
  {
    if |lens| == 0 then 0 else Sum(lens[..|lens| - 1]) + lens[|lens| - 1]
  }

  /** The buffers of a vector laid end to end. */
  function Flatten<T>(chunks: seq<seq<T>>): seq<T>
  {
    if |chunks| == 0 then [] else Flatten(chunks[..|chunks| - 1]) + chunks[|chunks| - 1]
  }

  /** The lengths of a vector's buffers. */
  function Lengths<T>(chunks: seq<seq<T>>): (lens: seq<nat>)
    ensures |lens| == |chunks|
    ensures forall i :: 0 <= i < |chunks| ==> lens[i] == |chunks[i]|
  {
    seq(|chunks|, i requires 0 <= i < |chunks| => |chunks[i]|)
  }

  lemma SumAppend(lens: seq<nat>, x: nat)
    ensures Sum(lens + [x]) == Sum(lens) + x
  {
    assert (lens + [x])[..|lens|] == lens;
  }

  lemma FlattenAppend<T>(chunks: seq<seq<T>>, c: seq<T>)
    ensures Flatten(chunks + [c]) == Flatten(chunks) + c
  {
    assert (chunks + [c])[..|chunks|] == chunks;
  }

  /** A prefix of a vector is no longer than the whole vector. */
  lemma {:induction false} SumPrefix(lens: seq<nat>, i: nat)
    requires i <= |lens|
    ensures Sum(lens[..i]) <= Sum(lens)
    decreases |lens|
  {
    if i < |lens| {
      var init := lens[..|lens| - 1];
      assert lens[..i] == init[..i];
      SumPrefix(init, i);
    } else {
      assert lens[..i] == lens;
    }
  }

  /** Gathering buffers keeps every byte: the flat length is the vector's total length. */
  lemma {:induction false} FlattenLength<T>(chunks: seq<seq<T>>)
    ensures |Flatten(chunks)| == Sum(Lengths(chunks))
    decreases |chunks|
  {
    if |chunks| > 0 {
      var init := chunks[..|chunks| - 1];
      FlattenLength(init);
      assert Lengths(chunks)[..|chunks| - 1] == Lengths(init);
    }
  }

  /** The loop that adds up the `iov_len` fields of a vector. */
  method TotalLength(lens: seq<nat>) returns (total: nat)
    ensures total == Sum(lens)
  {
    total := 0;
    var i := 0;
    while i < |lens|
      invariant 0 <= i <= |lens|
      invariant total == Sum(lens[..i])
    {
      SumAppend(lens[..i], lens[i]);
      assert lens[..i + 1] == lens[..i] + [lens[i]];
      total := total + lens[i];
      i := i + 1;
    }
    assert lens[..i] == lens;
  }

  /**
   * The state of the copy loop of a vectored read after i buffers:
   * `copied` bytes of `src` lie in the first i buffers, end to end; every
   * buffer so far is full unless the bytes have run out, and then only
   * the last one may be short.
   */
  ghost predicate Scattered<T>(src: seq<T>, lens: seq<nat>, chunks: seq<seq<T>>, copied: nat, i: nat)
  {
    && i <= |lens| && |chunks| == i
    && copied <= |src| && copied <= Sum(lens[..i])
    && (copied < |src| ==> copied == Sum(lens[..i]))
    && Flatten(chunks) == src[..copied]
    && (forall j :: 0 <= j < i ==> |chunks[j]| <= lens[j])
    && (forall j :: 0 <= j < i - 1 ==> |chunks[j]| == lens[j])
    && (i > 0 && copied < |src| ==> |chunks[i - 1]| == lens[i - 1])
  }

  /** One step of the copy loop: buffer i takes as many of the remaining bytes as it holds. */
  lemma ScatterStep<T>(src: seq<T>, lens: seq<nat>, chunks: seq<seq<T>>, copied: nat, i: nat, n: nat)
    requires Scattered(src, lens, chunks, copied, i) && i < |lens| && copied < |src|
    requires n == if |src| - copied < lens[i] then |src| - copied else lens[i]
    ensures Scattered(src, lens, chunks + [src[copied..copied + n]], copied + n, i + 1)
  {
    var chunks' := chunks + [src[copied..copied + n]];
    FlattenAppend(chunks, src[copied..copied + n]);
    assert src[..copied + n] == src[..copied] + src[copied..copied + n];
    SumAppend(lens[..i], lens[i]);
    assert lens[..i + 1] == lens[..i] + [lens[i]];
    assert forall j :: 0 <= j < i ==> chunks'[j] == chunks[j];
  }

  /**
   * The copy loop of a vectored read: the bytes of `src` go into buffers
   * of lengths `lens` in order, each filled as far as the bytes last, until
   * the vector or the bytes run out. As many bytes are copied as both
   * allow, every buffer but the last one touched is filled, and the
   * buffers laid end to end hold the copied bytes of `src`.
   */
  method Scatter<T>(src: seq<T>, lens: seq<nat>) returns (chunks: seq<seq<T>>, copied: nat)
    ensures copied == if |src| < Sum(lens) then |src| else Sum(lens)
    ensures Flatten(chunks) == src[..copied]
    ensures |chunks| <= |lens|
    ensures forall i :: 0 <= i < |chunks| ==> |chunks[i]| <= lens[i]
    ensures forall i :: 0 <= i < |chunks| - 1 ==> |chunks[i]| == lens[i]
  {
    chunks, copied := [], 0;
    var i := 0;
    while i < |lens| && copied < |src|
      invariant Scattered(src, lens, chunks, copied, i)
      decreases |lens| - i
    {
      var n := if |src| - copied < lens[i] then |src| - copied else lens[i];
      ScatterStep(src, lens, chunks, copied, i, n);
      chunks := chunks + [src[copied..copied + n]];
      copied := copied + n;
      i := i + 1;
    }
    SumPrefix(lens, i);
    if i == |lens| {
      assert lens[..i] == lens;
    }
  }
}
