/** The two threads of the Count-Min application: apps/count_min/cm_thread.hpp summarises windows of
    its input, apps/count_min/merge_thread.hpp adds the summaries up. */
module CountMinThreads {
  import opened CountMin
  import opened CountMinItem
  import opened Wire

  /** The set a list of keys carries, each once. */
  ghost predicate Lists(keys: seq<nat>, s: set<nat>) {
    |keys| == |s| && forall k :: k in keys <==> k in s
  }

  /** An item that says all about a window. */
  ghost predicate Summarises(
    counters: seq<Counter>, keys: seq<nat>, hash: Hash, r: nat, w: nat, thresh: nat, stream: seq<Tuple>)
  {
    w > 0 && counters == Packed(hash, stream, w, r * w) && Lists(keys, Candidates(hash, r, thresh, stream))
  }

  /** The room a window's item takes. */
  ghost function ItemSize(hash: Hash, r: nat, w: nat, thresh: nat, stream: seq<Tuple>): nat
    requires w > 0
  {
    12 * |Packed(hash, stream, w, r * w)| + 8 * |Candidates(hash, r, thresh, stream)|
  }

  /** A sketch of at most 8000 cells and at most 100 candidates always fit the buffer. */
  lemma SmallWindowFits(hash: Hash, r: nat, w: nat, thresh: nat, stream: seq<Tuple>)
    requires 0 < w && r * w <= 8000 && |Candidates(hash, r, thresh, stream)| <= 100
    ensures ItemSize(hash, r, w, thresh, stream) <= CAPACITY == 12 * 8000 + 8 * 100
  {
    PackedIsWithin(hash, stream, w, r * w);
  }

  lemma {:induction false} PackedGrows(hash: Hash, stream: seq<Tuple>, w: nat, m: nat, n: nat)
    requires w > 0 && m <= n
    ensures |Packed(hash, stream, w, m)| <= |Packed(hash, stream, w, n)|
    decreases n
  {
    if m < n {
      PackedGrows(hash, stream, w, m, n - 1);
    }
  }

  /** The keys an item can carry in its words. */
  ghost predicate WindowInRange(stream: seq<Tuple>) {
    forall t :: t in stream ==> t.key < Pow256(8)
  }

  lemma {:induction false} CandidatesInRange(hash: Hash, r: nat, thresh: nat, stream: seq<Tuple>)
    requires forall t :: t in stream ==> t.key < Pow256(8)
    ensures forall k :: k in Candidates(hash, r, thresh, stream) ==> k < Pow256(8)
    decreases |stream|
  {
    if stream != [] {
      assert stream[|stream| - 1] in stream;
      CandidatesInRange(hash, r, thresh, stream[..|stream| - 1]);
    }
  }

  class ComputeThread {
    const sketch: Sketch
    const thresh: nat
    const window: nat
    var bytes: nat
    var cand: set<nat>

    ghost predicate Valid()
      reads this, sketch, sketch.cells
    {
      && sketch.Valid() && sketch.width > 0
      && cand == Candidates(sketch.hash, sketch.row, thresh, sketch.stream)
    }

    /** The byte count starts with whatever the field held: the source does not set it. */
    constructor (r: nat, w: nat, h: Hash, threshold: nat, windowBytes: nat, garbage: nat)
      requires 0 < r && 0 < w
      requires forall i, key :: 0 <= i < r && 0 <= key ==> h(i, key) < w
      ensures Valid() && fresh(sketch) && fresh(sketch.cells)
      ensures sketch.stream == [] && sketch.hash == h && sketch.row == r && sketch.width == w
      ensures thresh == threshold && window == windowBytes && bytes == garbage
    {
      sketch := new Sketch(r, w, h);
      thresh, window, bytes, cand := threshold, windowBytes, garbage, {};
    }

    /** The inner loop of packing: row i of the sketch, whose first cell has this number. */
    method PackRow(item: CMItem, i: nat, first: nat)
      requires sketch.Valid() && item.Valid() && item.numHH == 0 && i < sketch.row && first == i * sketch.width
      requires RoomForCounters(sketch.hash, sketch.stream, sketch.row, sketch.width)
      requires item.counters == Packed(sketch.hash, sketch.stream, sketch.width, first)
      modifies item, item.raw
      ensures item.Valid() && item.numHH == 0
      ensures item.counters == Packed(sketch.hash, sketch.stream, sketch.width, first + sketch.width)
    {
      for j := 0 to sketch.width
        invariant item.Valid() && item.numHH == 0
        invariant item.counters == Packed(sketch.hash, sketch.stream, sketch.width, first + j)
      {
        PackOne(item, i, j, first + j);
      }
    }

    method PackOne(item: CMItem, i: nat, j: nat, index: nat)
      requires sketch.Valid() && item.Valid() && item.numHH == 0
      requires i < sketch.row && j < sketch.width && index == i * sketch.width + j
      requires RoomForCounters(sketch.hash, sketch.stream, sketch.row, sketch.width)
      requires item.counters == Packed(sketch.hash, sketch.stream, sketch.width, index)
      modifies item, item.raw
      ensures item.Valid() && item.numHH == 0
      ensures item.counters == Packed(sketch.hash, sketch.stream, sketch.width, index + 1)
    {
      NextCell(sketch.hash, sketch.stream, sketch.row, sketch.width, i, j);
      PackCell(item, index, sketch.GetValue(i, j), sketch.hash, sketch.stream, sketch.width);
    }

    method PackRows(item: CMItem)
      requires sketch.Valid() && item.Valid() && item.counters == [] && item.keys == []
      requires RoomForCounters(sketch.hash, sketch.stream, sketch.row, sketch.width)
      modifies item, item.raw
      ensures item.Valid() && item.keys == []
      ensures item.counters == Packed(sketch.hash, sketch.stream, sketch.width, sketch.row * sketch.width)
    {
      var w := sketch.width;
      for i := 0 to sketch.row
        invariant item.Valid() && item.numHH == 0
        invariant item.counters == Packed(sketch.hash, sketch.stream, w, i * w)
      {
        NextRow(w, i);
        PackRow(item, i, i * w);
      }
    }

    /** Ends the window: the item says all about it, and the thread starts afresh. */
    method TerminateWindow() returns (item: CMItem)
      requires Valid() && ItemFits(sketch, thresh)
      modifies this, sketch, sketch.cells
      ensures fresh(item) && fresh(item.raw) && item.Valid()
      ensures Summarises(item.counters, item.keys, sketch.hash, sketch.row, sketch.width, thresh, old(sketch.stream))
      ensures Valid() && sketch.stream == [] && bytes == 0
    {
      item := new CMItem();
      PackRows(item);
      CandidatesInRange(sketch.hash, sketch.row, thresh, sketch.stream);
      PackKeys(item, cand);
      sketch.Clear();
      bytes, cand := 0, {};
    }

    /** Takes a tuple.  A window ends with the tuple that takes the byte count, a 64-bit word, over
        the window's size. */
    method ProcessData(key: nat, value: int) returns (item: CMItem?)
      requires Valid()
      requires (bytes + value) % Pow256(8) > window ==>
                 ItemFitsStream(sketch.hash, sketch.row, sketch.width, thresh, sketch.stream + [Tuple(key, value)])
      modifies this, sketch, sketch.cells
      ensures Valid()
      ensures item == null <==> (old(bytes) + value) % Pow256(8) <= window
      ensures item == null ==> sketch.stream == old(sketch.stream) + [Tuple(key, value)]
      ensures item == null ==> bytes == (old(bytes) + value) % Pow256(8)
      ensures item != null ==> fresh(item) && item.Valid() && sketch.stream == [] && bytes == 0
      ensures item != null ==> Summarises(item.counters, item.keys, sketch.hash, sketch.row, sketch.width, thresh,
                                          old(sketch.stream) + [Tuple(key, value)])
    {
      var sum := sketch.UpdateSketch(key, value);
      CandidatesSnoc(sketch.hash, sketch.row, thresh, old(sketch.stream), Tuple(key, value));
      if Passes(sum, thresh) && key !in cand {
        cand := cand + {key};
      }
      PowPositive(8);
      bytes := (bytes + value) % Pow256(8);
      item := null;
      if bytes > window {
        item := TerminateWindow();
      }
    }
  }

  /** The whole item fits the buffer and every number its word. */
  ghost predicate ItemFitsStream(hash: Hash, r: nat, w: nat, thresh: nat, stream: seq<Tuple>) {
    && RoomForCounters(hash, stream, r, w) && WindowInRange(stream)
    && ItemSize(hash, r, w, thresh, stream) <= CAPACITY
  }

  ghost predicate ItemFits(sketch: Sketch, thresh: nat)
    reads sketch
  {
    ItemFitsStream(sketch.hash, sketch.row, sketch.width, thresh, sketch.stream)
  }

  /** The loop over the candidate set. */
  method PackKeys(item: CMItem, cand: set<nat>)
    requires item.Valid() && item.keys == []
    requires 12 * |item.counters| + 8 * |cand| <= CAPACITY
    requires forall k :: k in cand ==> k < Pow256(8)
    modifies item, item.raw
    ensures item.Valid() && item.counters == old(item.counters) && Lists(item.keys, cand)
  {
    var rest := cand;
    while rest != {}
      invariant item.Valid() && item.counters == old(item.counters)
      invariant rest <= cand && Lists(item.keys, cand - rest) && |cand - rest| + |rest| == |cand|
      decreases |rest|
    {
      var x :| x in rest;
      item.AppendHH(x);
      assert cand - (rest - {x}) == (cand - rest) + {x};
      rest := rest - {x};
    }
    assert cand - rest == cand;
  }

  ghost predicate RoomForCounters(hash: Hash, stream: seq<Tuple>, r: nat, w: nat) {
    && w > 0 && 2 * (r * w) <= Pow256(4)
    && (forall i: nat, j: nat :: i < r && j < w ==> 2 * Cell(hash, stream, i, j) < Pow256(8))  // a signed word
    && 12 * |Packed(hash, stream, w, r * w)| <= CAPACITY
  }

  lemma NextRow(w: nat, i: nat)
    ensures i * w + w == (i + 1) * w
  {
  }

  lemma NextCell(hash: Hash, stream: seq<Tuple>, r: nat, w: nat, i: nat, j: nat)
    requires i < r && j < w && RoomForCounters(hash, stream, r, w)
    ensures var index := i * w + j;
            && index < Pow256(4) && NumberedCell(hash, stream, w, index) == Cell(hash, stream, i, j) < Pow256(8)
            && 12 * |Packed(hash, stream, w, index + 1)| <= CAPACITY
  {
    CellNumber(w, i, j);
    CellNumberBound(r, w, i, j);
    PackedGrows(hash, stream, w, i * w + j + 1, r * w);
  }

  /** The body of the packing loop: zero cells are left out. */
  method PackCell(item: CMItem, index: nat, v: int, ghost hash: Hash, ghost stream: seq<Tuple>, ghost w: nat)
    requires item.Valid() && item.numHH == 0
    requires w > 0 && index < Pow256(4) && v < Pow256(8) && v == NumberedCell(hash, stream, w, index)
    requires 12 * |Packed(hash, stream, w, index + 1)| <= CAPACITY
    requires item.counters == Packed(hash, stream, w, index)
    modifies item, item.raw
    ensures item.Valid() && item.numHH == 0 && item.counters == Packed(hash, stream, w, index + 1)
  {
    if v > 0 {
      item.AppendCounter(index, v);
    }
  }

  /** Nothing was lost in packing. */
  ghost predicate CellsNonNegative(hash: Hash, stream: seq<Tuple>, r: nat, w: nat) {
    forall i: nat, j: nat :: i < r && j < w ==> Cell(hash, stream, i, j) >= 0
  }

  lemma MergedCell(hash: Hash, stream: seq<Tuple>, window: seq<Tuple>, r: nat, w: nat, a: nat, b: nat)
    requires a < r && b < w && Cell(hash, window, a, b) >= 0
    ensures Cell(hash, stream, a, b) + AddedTo(Packed(hash, window, w, r * w), a * w + b)
         == Cell(hash, stream + window, a, b)
  {
    CellNumber(w, a, b);
    CellNumberBound(r, w, a, b);
    PackedAddsCells(hash, window, w, r * w, a * w + b);
    CellAppend(hash, stream, window, a, b);
  }

  class MergeThread {
    const sketch: Sketch
    const thresh: nat
    var cand: set<nat>
    ghost var windows: seq<seq<Tuple>>  // what the items taken so far summarise

    /** The merger's sketch is that of all windows' tuples in one stream. */
    ghost predicate Valid()
      reads this, sketch, sketch.cells
    {
      && sketch.Valid() && sketch.width > 0
      && sketch.stream == Flat(windows)
      && cand == Reported(sketch.hash, sketch.row, thresh, windows)
    }

    constructor (r: nat, w: nat, h: Hash, threshold: nat)
      requires 0 < r && 0 < w
      requires forall i, key :: 0 <= i < r && 0 <= key ==> h(i, key) < w
      ensures Valid() && fresh(sketch) && fresh(sketch.cells) && windows == []
      ensures sketch.hash == h && sketch.row == r && sketch.width == w && thresh == threshold
    {
      sketch := new Sketch(r, w, h);
      thresh, cand, windows := threshold, {}, [];
    }

    /** The loop over an item's counters adds the window's tuples to the sketch. */
    method MergeCounters(item: CMItem, ghost window: seq<Tuple>)
      requires sketch.Valid() && sketch.width > 0 && item.Valid()
      requires item.counters == Packed(sketch.hash, window, sketch.width, sketch.row * sketch.width)
      requires CellsNonNegative(sketch.hash, window, sketch.row, sketch.width)
      modifies sketch, sketch.cells
      ensures sketch.Valid() && sketch.stream == old(sketch.stream) + window
    {
      var w := sketch.width;
      PackedIsWithin(sketch.hash, window, w, sketch.row * w);
      for n := 0 to item.numCounter
        invariant item.Valid() && sketch.Shape() && sketch.stream == old(sketch.stream)
        invariant Added(sketch, item.counters[..n])
      {
        var c := item.GetCounter(n);
        assert c in item.counters;
        AddOne(c, item.counters[..n]);
        assert item.counters[..n] + [c] == item.counters[..n + 1];
      }
      assert item.counters[..item.numCounter] == item.counters;
      forall a, b | 0 <= a < sketch.row && 0 <= b < w
        ensures sketch.cells[a, b] == Cell(sketch.hash, sketch.stream + window, a, b)
      {
        MergedCell(sketch.hash, sketch.stream, window, sketch.row, w, a, b);
      }
      sketch.stream := sketch.stream + window;
    }

    /** The body of that loop. */
    method AddOne(c: Counter, ghost before: seq<Counter>)
      requires sketch.Shape() && sketch.width > 0 && c.index < sketch.row * sketch.width
      requires Added(sketch, before)
      modifies sketch.cells
      ensures Added(sketch, before + [c])
    {
      var w := sketch.width;
      RowOfCell(sketch.row, w, c.index);
      var k, j := c.index / w, c.index % w;
      sketch.SetValue(k, j, sketch.GetValue(k, j) + c.value);
      forall a, b | 0 <= a < sketch.row && 0 <= b < w
        ensures sketch.cells[a, b] == Cell(sketch.hash, sketch.stream, a, b) + AddedTo(before + [c], a * w + b)
      {
        AddedCell(before, c, w, a, b);
      }
    }

    /** The loop over an item's keys. */
    method MergeKeys(item: CMItem)
      requires sketch.Valid() && item.Valid()
      modifies this`cand
      ensures forall k :: k in cand <==>
                k in old(cand)
                || (k in item.keys && Passes(Estimate(sketch.hash, sketch.stream, sketch.row, k), thresh))
    {
      for n := 0 to item.numHH
        invariant item.Valid()
        invariant forall k :: k in cand <==>
                    k in old(cand)
                    || (k in item.keys[..n] && Passes(Estimate(sketch.hash, sketch.stream, sketch.row, k), thresh))
      {
        var key := item.GetKey(n);
        var e := sketch.GetEstimate(key);
        if Passes(e, thresh) && key !in cand {
          cand := cand + {key};
        }
        assert item.keys[..n + 1] == item.keys[..n] + [key];
      }
      assert item.keys[..item.numHH] == item.keys;
    }

    /** Takes a window's item: the sketch is then the sketch of one more window, and the reported
        keys are those of the specification. */
    method ProcessData(item: CMItem, ghost window: seq<Tuple>)
      requires Valid() && item.Valid()
      requires Summarises(item.counters, item.keys, sketch.hash, sketch.row, sketch.width, thresh, window)
      requires CellsNonNegative(sketch.hash, window, sketch.row, sketch.width)
      modifies this, sketch, sketch.cells
      ensures Valid() && windows == old(windows) + [window]
    {
      MergeCounters(item, window);
      MergeKeys(item);
      windows := windows + [window];
      assert windows[..|windows| - 1] == old(windows);
    }
  }

  lemma AddedCell(before: seq<Counter>, c: Counter, w: nat, a: nat, b: nat)
    requires b < w && c.index == (c.index / w) * w + c.index % w
    ensures AddedTo(before + [c], a * w + b)
         == AddedTo(before, a * w + b) + if c.index / w == a && c.index % w == b then c.value else 0
  {
    CellNumber(w, a, b);
    AddedSnoc(before, c, a * w + b);
  }

  /** Every cell has grown by what these counters add. */
  ghost predicate Added(sketch: Sketch, counters: seq<Counter>)
    reads sketch, sketch.cells
  {
    sketch.Shape() &&
    forall a, b :: 0 <= a < sketch.row && 0 <= b < sketch.width ==>
      sketch.cells[a, b] == Cell(sketch.hash, sketch.stream, a, b) + AddedTo(counters, a * sketch.width + b)
  }
}
