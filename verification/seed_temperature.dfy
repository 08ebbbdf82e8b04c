/** The seeding script for the `Temperatura` collection: the half-hour schedule of one day
    (`_iter_half_hour_points`) and the batched write (`_commit_in_batches`). */
module SeedTemperature {
  import Json

  // ---------------------------------------------------------------------------------------
  // The half-hour schedule

  /** The schedule runs from 00:00 to 23:30 of the day, in steps of 30 minutes. */
  const StartMinute: int := 0
  const EndMinute: int := 23 * 60 + 30
  const StepMinutes: int := 30

  /** One generated point without its temperature: the loop counter `i`, the time as minutes
      after midnight, and the fraction `i / 48` of the day that drives the sinusoid's phase. */
  datatype Slot = Slot(index: nat, minute: int, dayFraction: real)

  /** The slots of the day, slot `i` at minute `30 * i`. */
  function HalfHourSlots(): (slots: seq<Slot>)
    ensures |slots| == 48
  {
    seq(48, i requires 0 <= i < 48 => Slot(i, StartMinute + StepMinutes * i, i as real / 48.0))
  }

  /** `_iter_half_hour_points`: `t` starts at 00:00 and advances 30 minutes while it is not
      after 23:30; `i` counts the points. */
  method IterHalfHourPoints() returns (slots: seq<Slot>)
    ensures slots == HalfHourSlots()
  {
    slots := [];
    var t := StartMinute;
    var i := 0;
    while t <= EndMinute
      invariant 0 <= i <= 48
      invariant t == StartMinute + StepMinutes * i
      invariant slots == HalfHourSlots()[..i]
      decreases EndMinute - t
    {
      slots := slots + [Slot(i, t, i as real / 48.0)];
      t := t + StepMinutes;
      i := i + 1;
    }
    assert i == 48;
  }

  /** The schedule covers the day: it starts at 00:00, ends at 23:30, its times strictly
      increase in steps of 30 minutes and stay within the day, and the phase fraction stays in
      [0, 1). */
  lemma HalfHourSlotsCoverDay()
    ensures HalfHourSlots()[0].minute == 0
    ensures HalfHourSlots()[47].minute == EndMinute
    ensures forall i :: 0 <= i < 47 ==> HalfHourSlots()[i + 1].minute == HalfHourSlots()[i].minute + 30
    ensures forall i, j :: 0 <= i < j < 48 ==> HalfHourSlots()[i].minute < HalfHourSlots()[j].minute
    ensures forall i :: 0 <= i < 48 ==>
      HalfHourSlots()[i].index == i && 0 <= HalfHourSlots()[i].minute < 24 * 60
    ensures forall i :: 0 <= i < 48 ==> 0.0 <= HalfHourSlots()[i].dayFraction < 1.0
  {
  }

  // ---------------------------------------------------------------------------------------
  // The batched write

  /** `docs[i : i + size]`: Python slices clip at the end of the list. */
  function Slice<T>(docs: seq<T>, i: nat, size: nat): (chunk: seq<T>)
    requires i <= |docs|
    ensures |chunk| == if i + size <= |docs| then size else |docs| - i
    ensures forall k :: 0 <= k < |chunk| ==> chunk[k] == docs[i + k]
  {
    if i + size <= |docs| then docs[i..i + size] else docs[i..]
  }

  /** The chunks a positive batch size cuts the list into, in order. */
  function Chunks<T>(docs: seq<T>, size: nat): seq<seq<T>>
    requires size > 0
    decreases |docs|
  {
    if docs == [] then []
    else [Slice(docs, 0, size)] + Chunks(docs[|Slice(docs, 0, size)|..], size)
  }

  /** The documents of the chunks, in order. */
  function Flatten<T>(chunks: seq<seq<T>>): seq<T> {
    if chunks == [] then [] else chunks[0] + Flatten(chunks[1..])
  }

  /** `_commit_in_batches`: one batch per `range(0, len(docs), batch_size)` step, holding
      `docs[i : i + batch_size]`, committed in order; returns the number written. A zero step
      makes `range` raise `ValueError` before anything is written; a negative one gives an
      empty range. The committed batches are returned in commit order. */
  method CommitInBatches<T>(docs: seq<T>, batchSize: int) returns (r: Json.Eval<nat>, batches: seq<seq<T>>)
    ensures batchSize == 0 ==> r == Json.Raise(Json.ValueError) && batches == []
    ensures batchSize < 0 ==> r == Json.Ok(0) && batches == []
    ensures batchSize > 0 ==> r == Json.Ok(|docs|) && batches == Chunks(docs, batchSize)
  {
    batches := [];
    if batchSize == 0 {
      return Json.Raise(Json.ValueError), batches;
    }
    var written := 0;
    if batchSize < 0 {
      return Json.Ok(written), batches;
    }
    var i := 0;
    while i < |docs|
      invariant 0 <= i <= |docs|
      invariant written == i
      invariant batches + Chunks(docs[i..], batchSize) == Chunks(docs, batchSize)
      decreases |docs| - i
    {
      var chunk := Slice(docs, i, batchSize);
      assert docs[i..][|chunk|..] == docs[i + |chunk|..];
      assert Slice(docs[i..], 0, batchSize) == chunk;
      batches := batches + [chunk];
      written := written + |chunk|;
      i := i + |chunk|;
    }
    return Json.Ok(written), batches;
  }

  // ---------------------------------------------------------------------------------------
  // Properties of the chunking

  /** The chunks, put back together, are the documents in their order: every document is
      written exactly once. */
  lemma {:induction false} FlattenChunks<T>(docs: seq<T>, size: nat)
    requires size > 0
    ensures Flatten(Chunks(docs, size)) == docs
    decreases |docs|
  {
    if docs != [] {
      var c := Slice(docs, 0, size);
      FlattenChunks(docs[|c|..], size);
      var cs := Chunks(docs, size);
      assert cs[0] == c && cs[1..] == Chunks(docs[|c|..], size);
      assert c + docs[|c|..] == docs;
    }
  }

  /** Every chunk has between 1 and `size` documents, and all but the last have exactly
      `size`. */
  lemma {:induction false} ChunkSizes<T>(docs: seq<T>, size: nat)
    requires size > 0
    ensures forall k :: 0 <= k < |Chunks(docs, size)| ==> 1 <= |Chunks(docs, size)[k]| <= size
    ensures forall k :: 0 <= k < |Chunks(docs, size)| - 1 ==> |Chunks(docs, size)[k]| == size
    decreases |docs|
  {
    if docs != [] {
      var c := Slice(docs, 0, size);
      var rest := Chunks(docs[|c|..], size);
      ChunkSizes(docs[|c|..], size);
      assert Chunks(docs, size) == [c] + rest;
      if |c| < size {
        assert docs[|c|..] == [];
      }
    }
  }

  /** There are ceil(n / size) chunks: just enough to hold the n documents, none of them
      empty. */
  lemma {:induction false} ChunkCount<T>(docs: seq<T>, size: nat)
    requires size > 0
    ensures |Chunks(docs, size)| == 0 <==> docs == []
    ensures (|Chunks(docs, size)| - 1) * size < |docs| <= |Chunks(docs, size)| * size
      || docs == []
    decreases |docs|
  {
    if docs != [] {
      var c := Slice(docs, 0, size);
      var n := |Chunks(docs[|c|..], size)|;
      ChunkCount(docs[|c|..], size);
      assert |Chunks(docs, size)| == n + 1;
      if |docs| <= size {
        assert docs[|c|..] == [];
      } else {
        assert |docs[|c|..]| == |docs| - size;
        assert (n - 1) * size < |docs| - size <= n * size;
        assert (n + 1) * size == n * size + size;
      }
    }
  }

  /** The seeding run writes its 48 documents in a single batch of the default size 450. */
  lemma SeedRunSingleBatch<T>(docs: seq<T>)
    requires |docs| == |HalfHourSlots()|
    ensures Chunks(docs, 450) == [docs]
  {
    assert Slice(docs, 0, 450) == docs;
    assert docs[|docs|..] == [];
  }
}
