/** The Count-Min application: the sketch of apps/count_min/cm_sketch.hpp, the candidate keys of
    cm_thread.hpp, the packed item of cm_item.hpp and the merge of merge_thread.hpp.  Hash functions
    are arbitrary; values are signed, and where a result needs them non-negative it says so. */
module CountMin {
  import Arithmetic

  datatype Tuple = Tuple(key: nat, value: int)

  /** hash(i, key) is the bucket of key in row i. */
  type Hash = (nat, nat) -> nat

  // ---------------------------------------------------------------- what a sketch means

  /** Reference: the total value of the tuples that row i maps to bucket j. */
  function Cell(hash: Hash, stream: seq<Tuple>, i: nat, j: nat): int {
    if stream == [] then 0
    else
      var t := stream[|stream| - 1];
      Cell(hash, stream[..|stream| - 1], i, j) + if hash(i, t.key) == j then t.value else 0
  }

  /** The quantity being estimated. */
  function TrueSum(stream: seq<Tuple>, key: nat): int {
    if stream == [] then 0
    else
      var t := stream[|stream| - 1];
      TrueSum(stream[..|stream| - 1], key) + if t.key == key then t.value else 0
  }

  /** The smallest of the key's cells in the first r rows, 0 without rows. */
  function Estimate(hash: Hash, stream: seq<Tuple>, r: nat, key: nat): int {
    if r == 0 then 0
    else
      var v := Cell(hash, stream, r - 1, hash(r - 1, key));
      if r == 1 || v < Estimate(hash, stream, r - 1, key) then v else Estimate(hash, stream, r - 1, key)
  }

  lemma CellSnoc(hash: Hash, stream: seq<Tuple>, t: Tuple, i: nat, j: nat)
    ensures Cell(hash, stream + [t], i, j) == Cell(hash, stream, i, j) + if hash(i, t.key) == j then t.value else 0
  {
    assert (stream + [t])[..|stream|] == stream;
  }

  lemma SumSnoc(stream: seq<Tuple>, t: Tuple, key: nat)
    ensures TrueSum(stream + [t], key) == TrueSum(stream, key) + if t.key == key then t.value else 0
  {
    assert (stream + [t])[..|stream|] == stream;
  }

  /** Sketches add up. */
  lemma {:induction false} CellAppend(hash: Hash, a: seq<Tuple>, b: seq<Tuple>, i: nat, j: nat)
    ensures Cell(hash, a + b, i, j) == Cell(hash, a, i, j) + Cell(hash, b, i, j)
    decreases |b|
  {
    if b == [] {
      assert a + b == a;
    } else {
      var n := |b| - 1;
      assert a + b == (a + b[..n]) + [b[n]];
      CellSnoc(hash, a + b[..n], b[n], i, j);
      CellAppend(hash, a, b[..n], i, j);
    }
  }

  // ---------------------------------------------------------------- when estimates are upper bounds

  ghost predicate NonNegative(stream: seq<Tuple>) {
    forall t :: t in stream ==> t.value >= 0
  }

  /** No key's total is negative, though single values may be. */
  ghost predicate SumsNonNegative(stream: seq<Tuple>) {
    forall key :: TrueSum(stream, key) >= 0
  }

  lemma {:induction false} NonNegativeSums(stream: seq<Tuple>, key: nat)
    requires NonNegative(stream)
    ensures TrueSum(stream, key) >= 0
    decreases |stream|
  {
    if stream != [] {
      NonNegativeSums(stream[..|stream| - 1], key);
      assert stream[|stream| - 1] in stream;
    }
  }

  /** The tuples of all other keys. */
  function Others(stream: seq<Tuple>, key: nat): (r: seq<Tuple>)
    ensures |r| <= |stream|
    ensures stream != [] && stream[|stream| - 1].key == key ==> |r| < |stream|
  {
    if stream == [] then []
    else
      var t := stream[|stream| - 1];
      var rest := Others(stream[..|stream| - 1], key);
      if t.key == key then rest else rest + [t]
  }

  /** A cell is a key's total, if the key falls into it, and what the other keys put there. */
  lemma {:induction false} CellSplits(hash: Hash, stream: seq<Tuple>, key: nat, i: nat, j: nat)
    ensures Cell(hash, stream, i, j)
         == (if hash(i, key) == j then TrueSum(stream, key) else 0) + Cell(hash, Others(stream, key), i, j)
    decreases |stream|
  {
    if stream != [] {
      var n := |stream| - 1;
      CellSplits(hash, stream[..n], key, i, j);
      CellSnoc(hash, Others(stream[..n], key), stream[n], i, j);
    }
  }

  lemma {:induction false} OthersSum(stream: seq<Tuple>, key: nat, k: nat)
    ensures TrueSum(Others(stream, key), k) == if k == key then 0 else TrueSum(stream, k)
    decreases |stream|
  {
    if stream != [] {
      var n := |stream| - 1;
      OthersSum(stream[..n], key, k);
      SumSnoc(Others(stream[..n], key), stream[n], k);
    }
  }

  lemma {:induction false} CellNonNegative(hash: Hash, stream: seq<Tuple>, i: nat, j: nat)
    requires SumsNonNegative(stream)
    ensures Cell(hash, stream, i, j) >= 0
    decreases |stream|
  {
    if stream != [] {
      var key := stream[|stream| - 1].key;
      CellSplits(hash, stream, key, i, j);
      OthersSums(stream, key);
      CellNonNegative(hash, Others(stream, key), i, j);
    }
  }

  lemma OthersSums(stream: seq<Tuple>, key: nat)
    requires SumsNonNegative(stream)
    ensures SumsNonNegative(Others(stream, key))
  {
    forall k: nat ensures TrueSum(Others(stream, key), k) >= 0 {
      OthersSum(stream, key, k);
    }
  }

  lemma {:induction false} SumsBound(hash: Hash, stream: seq<Tuple>, r: nat, key: nat)
    requires r > 0 && SumsNonNegative(stream)
    ensures TrueSum(stream, key) <= Estimate(hash, stream, r, key)
    decreases r
  {
    CellSplits(hash, stream, key, r - 1, hash(r - 1, key));
    OthersSums(stream, key);
    CellNonNegative(hash, Others(stream, key), r - 1, hash(r - 1, key));
    if r > 1 {
      SumsBound(hash, stream, r - 1, key);
    }
  }

  /** Estimates never fall below the true sum. */
  lemma EstimateIsUpperBound(hash: Hash, stream: seq<Tuple>, r: nat, key: nat)
    requires r > 0 && NonNegative(stream)
    ensures TrueSum(stream, key) <= Estimate(hash, stream, r, key)
  {
    forall k: nat ensures TrueSum(stream, k) >= 0 {
      NonNegativeSums(stream, k);
    }
    SumsBound(hash, stream, r, key);
  }

  /** A key that does not occur. */
  function Unused(stream: seq<Tuple>): nat {
    if stream == [] then 0
    else
      var u, k := Unused(stream[..|stream| - 1]), stream[|stream| - 1].key;
      if u > k then u else k + 1
  }

  lemma {:induction false} UnusedSum(stream: seq<Tuple>, key: nat)
    requires key >= Unused(stream)
    ensures TrueSum(stream, key) == 0
    decreases |stream|
  {
    if stream != [] {
      UnusedSum(stream[..|stream| - 1], key);
    }
  }

  /** Row functions that put two keys into bucket 0 and all others into bucket 1. */
  function Pairing(a: nat, b: nat): Hash {
    (i: nat, key: nat) => if key == a || key == b then 0 else 1
  }

  lemma {:induction false} PairingCell(stream: seq<Tuple>, a: nat, b: nat, i: nat)
    requires a != b
    ensures Cell(Pairing(a, b), stream, i, 0) == TrueSum(stream, a) + TrueSum(stream, b)
    decreases |stream|
  {
    if stream != [] {
      PairingCell(stream[..|stream| - 1], a, b, i);
    }
  }

  /** Row functions into w buckets. */
  ghost predicate Below(hash: Hash, r: nat, w: nat) {
    forall i, key :: 0 <= i < r && 0 <= key ==> hash(i, key) < w
  }

  /** No estimate of a sketch with r rows of w buckets is below the true sum, whatever the row functions. */
  ghost predicate AlwaysBounds(stream: seq<Tuple>, r: nat, w: nat) {
    forall hash: Hash, key: nat :: Below(hash, r, w) ==> TrueSum(stream, key) <= Estimate(hash, stream, r, key)
  }

  /** The exact condition with two or more buckets: no key's total is negative.  It is not needed that every
      value is non-negative. */
  lemma EstimateBoundIff(stream: seq<Tuple>, r: nat, w: nat)
    requires r > 0 && w >= 2
    ensures AlwaysBounds(stream, r, w) <==> SumsNonNegative(stream)
  {
    if SumsNonNegative(stream) {
      forall hash: Hash, key: nat ensures TrueSum(stream, key) <= Estimate(hash, stream, r, key) {
        SumsBound(hash, stream, r, key);
      }
    } else {
      var bad: nat :| TrueSum(stream, bad) < 0;
      var key := Unused(stream) + bad + 1;
      var hash := Pairing(bad, key);
      UnusedSum(stream, key);
      PairingCell(stream, bad, key, 0);
      EstimateIsLeast(hash, stream, r, key, 0);
      assert Below(hash, r, w);
    }
  }

  function Total(stream: seq<Tuple>): int {
    if stream == [] then 0 else Total(stream[..|stream| - 1]) + stream[|stream| - 1].value
  }

  lemma {:induction false} OneBucketCell(hash: Hash, stream: seq<Tuple>, r: nat, i: nat)
    requires Below(hash, r, 1) && i < r
    ensures Cell(hash, stream, i, 0) == Total(stream)
    decreases |stream|
  {
    if stream != [] {
      OneBucketCell(hash, stream[..|stream| - 1], r, i);
      assert hash(i, stream[|stream| - 1].key) < 1;
    }
  }

  lemma {:induction false} OneBucketEstimate(hash: Hash, stream: seq<Tuple>, r: nat, n: nat, key: nat)
    requires Below(hash, n, 1) && 0 < r <= n
    ensures Estimate(hash, stream, r, key) == Total(stream)
    decreases r
  {
    assert hash(r - 1, key) < 1;
    OneBucketCell(hash, stream, n, r - 1);
    if r > 1 {
      OneBucketEstimate(hash, stream, r - 1, n, key);
    }
  }

  /** With a single bucket every estimate is the total of all values, so the condition is another one: no
      key's total is above that.  A negative total is then allowed, if the other keys make up for it. */
  lemma OneBucketBoundIff(stream: seq<Tuple>, r: nat)
    requires r > 0
    ensures AlwaysBounds(stream, r, 1) <==> forall key: nat :: TrueSum(stream, key) <= Total(stream)
  {
    forall hash: Hash, key: nat | Below(hash, r, 1) ensures Estimate(hash, stream, r, key) == Total(stream) {
      OneBucketEstimate(hash, stream, r, r, key);
    }
    if AlwaysBounds(stream, r, 1) {
      var zero: Hash := (i, key) => 0;
      forall key: nat ensures TrueSum(stream, key) <= Total(stream) {
        assert Below(zero, r, 1) && TrueSum(stream, key) <= Estimate(zero, stream, r, key);
      }
    } else {
      var hash: Hash, key: nat :| Below(hash, r, 1) && TrueSum(stream, key) > Estimate(hash, stream, r, key);
      assert TrueSum(stream, key) > Total(stream);
    }
  }

  /** And they are as small as every single row allows. */
  lemma {:induction false} EstimateIsLeast(hash: Hash, stream: seq<Tuple>, r: nat, key: nat, i: nat)
    requires i < r
    ensures Estimate(hash, stream, r, key) <= Cell(hash, stream, i, hash(i, key))
    decreases r
  {
    if i < r - 1 {
      EstimateIsLeast(hash, stream, r - 1, key, i);
    }
  }

  // ---------------------------------------------------------------- heavy hitters

  /** The source compares as unsigned words: a negative estimate is above any threshold. */
  predicate Passes(v: int, thresh: nat) {
    v < 0 || v > thresh
  }

  /** The keys a compute thread has recorded: each tuple's key whose estimate then passed thresh. */
  function Candidates(hash: Hash, r: nat, thresh: nat, stream: seq<Tuple>): set<nat> {
    if stream == [] then {}
    else
      var n := |stream| - 1;
      var key := stream[n].key;
      Candidates(hash, r, thresh, stream[..n]) + if Passes(Estimate(hash, stream, r, key), thresh) then {key} else {}
  }

  lemma CandidatesSnoc(hash: Hash, r: nat, thresh: nat, stream: seq<Tuple>, t: Tuple)
    ensures Candidates(hash, r, thresh, stream + [t])
         == Candidates(hash, r, thresh, stream)
          + if Passes(Estimate(hash, stream + [t], r, t.key), thresh) then {t.key} else {}
  {
    assert (stream + [t])[..|stream|] == stream;
  }

  /** Which keys are candidates, for values of either sign: those whose estimate was above the threshold, or
      negative, right after one of their tuples. */
  lemma {:induction false} CandidateIff(hash: Hash, r: nat, thresh: nat, stream: seq<Tuple>, key: nat)
    ensures key in Candidates(hash, r, thresh, stream)
       <==> exists n :: 0 <= n < |stream| && Noticed(hash, r, thresh, stream, key, n)
    decreases |stream|
  {
    if stream != [] {
      var n := |stream| - 1;
      var front := stream[..n];
      CandidateIff(hash, r, thresh, front, key);
      assert stream[..n + 1] == stream;
      forall i | 0 <= i < n
        ensures Noticed(hash, r, thresh, front, key, i) <==> Noticed(hash, r, thresh, stream, key, i)
      {
        assert front[..i + 1] == stream[..i + 1];
      }
      if key in Candidates(hash, r, thresh, front) {
        var i :| 0 <= i < n && Noticed(hash, r, thresh, front, key, i);
        assert Noticed(hash, r, thresh, stream, key, i);
      } else if key in Candidates(hash, r, thresh, stream) {
        assert Noticed(hash, r, thresh, stream, key, n);
      }
    }
  }

  /** Tuple n has this key, and the estimate right after it is above the threshold or negative. */
  predicate Noticed(hash: Hash, r: nat, thresh: nat, stream: seq<Tuple>, key: nat, n: nat)
    requires n < |stream|
  {
    && stream[n].key == key
    && var e := Estimate(hash, stream[..n + 1], r, key); e < 0 || e > thresh
  }

  /** Every key whose sum passed the threshold is a candidate. */
  lemma {:induction false} CandidatesComplete(hash: Hash, r: nat, thresh: nat, stream: seq<Tuple>, key: nat)
    requires r > 0 && NonNegative(stream) && TrueSum(stream, key) > thresh
    ensures key in Candidates(hash, r, thresh, stream)
    decreases |stream|
  {
    var n := |stream| - 1;
    if stream[n].key == key {
      EstimateIsUpperBound(hash, stream, r, key);
    } else {
      CandidatesComplete(hash, r, thresh, stream[..n], key);
    }
  }

  /** Tuples added before or after never lower an estimate. */
  lemma {:induction false} EstimateGrows(hash: Hash, a: seq<Tuple>, b: seq<Tuple>, r: nat, key: nat)
    requires NonNegative(a) && NonNegative(b)
    ensures 0 <= Estimate(hash, a, r, key) <= Estimate(hash, a + b, r, key)
    ensures 0 <= Estimate(hash, b, r, key) <= Estimate(hash, a + b, r, key)
    decreases r
  {
    if r > 0 {
      var j := hash(r - 1, key);
      EstimateGrows(hash, a, b, r - 1, key);
      CellAppend(hash, a, b, r - 1, j);
      NonNegativeCell(hash, a, r - 1, j);
      NonNegativeCell(hash, b, r - 1, j);
    }
  }

  lemma NonNegativeCell(hash: Hash, stream: seq<Tuple>, i: nat, j: nat)
    requires NonNegative(stream)
    ensures Cell(hash, stream, i, j) >= 0
  {
    forall k: nat ensures TrueSum(stream, k) >= 0 {
      NonNegativeSums(stream, k);
    }
    CellNonNegative(hash, stream, i, j);
  }

  /** A candidate's estimate is above the threshold from then on. */
  lemma {:induction false} CandidatesSound(hash: Hash, r: nat, thresh: nat, stream: seq<Tuple>, key: nat)
    requires NonNegative(stream) && key in Candidates(hash, r, thresh, stream)
    ensures Estimate(hash, stream, r, key) > thresh
    decreases |stream|
  {
    var n := |stream| - 1;
    assert stream[n] in stream && stream[..n] + [stream[n]] == stream;
    EstimateGrows(hash, stream[..n], [stream[n]], r, key);
    if key in Candidates(hash, r, thresh, stream[..n]) {
      CandidatesSound(hash, r, thresh, stream[..n], key);
    }
  }

  function Flat(windows: seq<seq<Tuple>>): seq<Tuple> {
    if windows == [] then [] else Flat(windows[..|windows| - 1]) + windows[|windows| - 1]
  }

  /** The keys the merger reports after the items of these windows, one after the other. */
  function Reported(hash: Hash, r: nat, thresh: nat, windows: seq<seq<Tuple>>): set<nat> {
    if windows == [] then {}
    else
      var n := |windows| - 1;
      Reported(hash, r, thresh, windows[..n])
      + set key | key in Candidates(hash, r, thresh, windows[n])
                  && Passes(Estimate(hash, Flat(windows), r, key), thresh)
  }

  /** Window n has the key as a candidate, and its estimate over all windows so far is above the threshold or
      negative. */
  ghost predicate Confirmed(hash: Hash, r: nat, thresh: nat, windows: seq<seq<Tuple>>, key: nat, n: nat)
    requires n < |windows|
  {
    && key in Candidates(hash, r, thresh, windows[n])
    && var e := Estimate(hash, Flat(windows[..n + 1]), r, key); e < 0 || e > thresh
  }

  /** Which keys are reported, for values of either sign. */
  lemma {:induction false} ReportedIff(hash: Hash, r: nat, thresh: nat, windows: seq<seq<Tuple>>, key: nat)
    ensures key in Reported(hash, r, thresh, windows)
       <==> exists n :: 0 <= n < |windows| && Confirmed(hash, r, thresh, windows, key, n)
    decreases |windows|
  {
    if windows != [] {
      var n := |windows| - 1;
      var front := windows[..n];
      ReportedIff(hash, r, thresh, front, key);
      assert windows[..n + 1] == windows;
      forall i | 0 <= i < n
        ensures Confirmed(hash, r, thresh, front, key, i) <==> Confirmed(hash, r, thresh, windows, key, i)
      {
        assert front[..i + 1] == windows[..i + 1];
      }
      if key in Reported(hash, r, thresh, front) {
        var i :| 0 <= i < n && Confirmed(hash, r, thresh, front, key, i);
        assert Confirmed(hash, r, thresh, windows, key, i);
      } else if key in Reported(hash, r, thresh, windows) {
        assert Confirmed(hash, r, thresh, windows, key, n);
      }
    }
  }

  ghost predicate AllNonNegative(windows: seq<seq<Tuple>>) {
    forall i :: 0 <= i < |windows| ==> NonNegative(windows[i])
  }

  lemma {:induction false} FlatNonNegative(windows: seq<seq<Tuple>>)
    requires AllNonNegative(windows)
    ensures NonNegative(Flat(windows))
  {
    if windows != [] {
      FlatNonNegative(windows[..|windows| - 1]);
    }
  }

  /** A key is reported if and only if some window had it as a candidate: the merger's own test
      against the threshold never rejects a key. */
  lemma {:induction false} ReportIsUnion(hash: Hash, r: nat, thresh: nat, windows: seq<seq<Tuple>>, key: nat)
    requires AllNonNegative(windows)
    ensures key in Reported(hash, r, thresh, windows)
       <==> exists i :: 0 <= i < |windows| && key in Candidates(hash, r, thresh, windows[i])
    decreases |windows|
  {
    if windows != [] {
      var n := |windows| - 1;
      ReportIsUnion(hash, r, thresh, windows[..n], key);
      if key in Candidates(hash, r, thresh, windows[n]) {
        CandidatesSound(hash, r, thresh, windows[n], key);
        FlatNonNegative(windows[..n]);
        EstimateGrows(hash, Flat(windows[..n]), windows[n], r, key);
      }
      assert forall i :: 0 <= i < n ==> windows[..n][i] == windows[i];
    }
  }

  /** So a key heavy within one window is reported, and a reported key has a merged estimate above
      the threshold. */
  lemma HeavyKeysAreReported(hash: Hash, r: nat, thresh: nat, windows: seq<seq<Tuple>>, i: nat, key: nat)
    requires r > 0 && AllNonNegative(windows) && i < |windows| && TrueSum(windows[i], key) > thresh
    ensures key in Reported(hash, r, thresh, windows)
  {
    CandidatesComplete(hash, r, thresh, windows[i], key);
    ReportIsUnion(hash, r, thresh, windows, key);
  }

  lemma {:induction false} ReportedAreHeavy(hash: Hash, r: nat, thresh: nat, windows: seq<seq<Tuple>>, key: nat)
    requires AllNonNegative(windows) && key in Reported(hash, r, thresh, windows)
    ensures Estimate(hash, Flat(windows), r, key) > thresh
    decreases |windows|
  {
    var n := |windows| - 1;
    FlatNonNegative(windows[..n]);
    EstimateGrows(hash, Flat(windows[..n]), windows[n], r, key);
    if key in Reported(hash, r, thresh, windows[..n]) {
      ReportedAreHeavy(hash, r, thresh, windows[..n], key);
    }
  }

  /** A key heavy only in the merged stream is missed when it is light in each window. */
  lemma SpreadKeyIsMissed(hash: Hash, thresh: nat, key: nat)
    requires thresh > 0
    ensures var window := [Tuple(key, thresh)];
            && TrueSum(Flat([window, window]), key) > thresh
            && key !in Reported(hash, 1, thresh, [window, window])
  {
    var window := [Tuple(key, thresh)];
    LightWindow(hash, thresh, key);
    FlatTwo(window, window);
    SumSnoc(window, window[0], key);
    var windows := [window, window];
    assert AllNonNegative(windows);
    ReportIsUnion(hash, 1, thresh, windows, key);
    assert forall i :: 0 <= i < |windows| ==> windows[i] == window;
  }

  lemma FlatTwo(a: seq<Tuple>, b: seq<Tuple>)
    ensures Flat([a, b]) == a + b
  {
    assert [a, b][..1] == [a];
    assert Flat([a]) == [] + a;
  }

  lemma LightWindow(hash: Hash, thresh: nat, key: nat)
    ensures var window := [Tuple(key, thresh)];
            TrueSum(window, key) == thresh && key !in Candidates(hash, 1, thresh, window)
  {
    var t := Tuple(key, thresh);
    assert [] + [t] == [t];
    SumSnoc([], t, key);
    CandidatesSnoc(hash, 1, thresh, [], t);
    CellSnoc(hash, [], t, 0, hash(0, key));
  }

  // ---------------------------------------------------------------- packed counters

  datatype Counter = Counter(index: nat, value: nat)

  /** The cell with this row-major number. */
  function NumberedCell(hash: Hash, stream: seq<Tuple>, w: nat, index: nat): int
    requires w > 0
  {
    Cell(hash, stream, index / w, index % w)
  }

  /** The positive cells among the first n in row-major order. */
  function Packed(hash: Hash, stream: seq<Tuple>, w: nat, n: nat): seq<Counter>
    requires w > 0
  {
    if n == 0 then []
    else
      var v := NumberedCell(hash, stream, w, n - 1);
      var rest := Packed(hash, stream, w, n - 1);
      if v > 0 then rest + [Counter(n - 1, v)] else rest
  }

  /** What a list of counters adds to the cell with this number. */
  function AddedTo(counters: seq<Counter>, index: nat): nat {
    if counters == [] then 0
    else
      var c := counters[|counters| - 1];
      AddedTo(counters[..|counters| - 1], index) + if c.index == index then c.value else 0
  }

  lemma AddedSnoc(counters: seq<Counter>, c: Counter, index: nat)
    ensures AddedTo(counters + [c], index) == AddedTo(counters, index) + if c.index == index then c.value else 0
  {
    assert (counters + [c])[..|counters|] == counters;
  }

  /** Packing loses exactly the negative cells: the counters add back every other cell, and nothing else. */
  lemma {:induction false} PackedAddsCells(hash: Hash, stream: seq<Tuple>, w: nat, n: nat, index: nat)
    requires w > 0
    ensures var v := Cell(hash, stream, index / w, index % w);
      AddedTo(Packed(hash, stream, w, n), index) == if index < n && v > 0 then v else 0
  {
    if n > 0 {
      PackedAddsCells(hash, stream, w, n - 1, index);
      var v := NumberedCell(hash, stream, w, n - 1);
      if v > 0 {
        AddedSnoc(Packed(hash, stream, w, n - 1), Counter(n - 1, v), index);
      }
    }
  }

  /** The packed counters are exactly the positive cells, in the order of their numbers. */
  lemma {:induction false} PackedIsExact(hash: Hash, stream: seq<Tuple>, w: nat, n: nat)
    requires w > 0
    ensures var cs := Packed(hash, stream, w, n);
      && (forall i, j :: 0 <= i < j < |cs| ==> cs[i].index < cs[j].index)
      && forall c :: c in cs <==> c.index < n && c.value == Cell(hash, stream, c.index / w, c.index % w) && c.value > 0
  {
    if n > 0 {
      PackedIsExact(hash, stream, w, n - 1);
      var cs := Packed(hash, stream, w, n - 1);
      assert forall i :: 0 <= i < |cs| ==> cs[i] in cs && cs[i].index < n - 1;
    }
  }

  lemma {:induction false} PackedIsWithin(hash: Hash, stream: seq<Tuple>, w: nat, n: nat)
    requires w > 0
    ensures |Packed(hash, stream, w, n)| <= n
    ensures forall c :: c in Packed(hash, stream, w, n) ==> c.index < n
  {
    if n > 0 {
      PackedIsWithin(hash, stream, w, n - 1);
    }
  }

  // ---------------------------------------------------------------- cell numbers

  lemma CellNumber(w: nat, i: nat, j: nat)
    requires j < w
    ensures (i * w + j) / w == i && (i * w + j) % w == j
  {
    Arithmetic.DivUnique(i * w + j, w, i, j);
  }

  lemma CellNumberBound(r: nat, w: nat, i: nat, j: nat)
    requires i < r && j < w
    ensures i * w + j < r * w
  {
    Arithmetic.MulMono(i + 1, r, w);
    assert (i + 1) * w == i * w + w;
  }

  lemma RowOfCell(r: nat, w: nat, index: nat)
    requires w > 0 && index < r * w
    ensures index / w < r && index == (index / w) * w + index % w
  {
    if r <= index / w {
      Arithmetic.MulMono(r, index / w, w);
      assert false;
    }
  }

  // ---------------------------------------------------------------- the sketch object

  class Sketch {
    const row: nat
    const width: nat
    const hash: Hash
    const cells: array2<int>
    ghost var stream: seq<Tuple>  // what the cells summarise

    ghost predicate Shape()
      reads this
    {
      && cells.Length0 == row && cells.Length1 == width
      && forall i, key :: 0 <= i < row && 0 <= key ==> hash(i, key) < width
    }

    ghost predicate Valid()
      reads this, cells
    {
      Shape() && forall i, j :: 0 <= i < row && 0 <= j < width ==> cells[i, j] == Cell(hash, stream, i, j)
    }

    constructor (r: nat, w: nat, h: Hash)
      requires forall i, key :: 0 <= i < r && 0 <= key ==> h(i, key) < w
      ensures Valid() && fresh(cells) && row == r && width == w && hash == h && stream == []
    {
      row, width, hash, stream := r, w, h, [];
      cells := new int[r, w]((i, j) => 0);
    }

    /** Adds a tuple and returns the key's new estimate. */
    method UpdateSketch(key: nat, value: int) returns (ret: int)
      requires Valid()
      modifies this, cells
      ensures Valid() && stream == old(stream) + [Tuple(key, value)]
      ensures ret == Estimate(hash, stream, row, key)
    {
      ghost var t := Tuple(key, value);
      ghost var after := stream + [t];
      ret := 0;
      for i := 0 to row
        invariant Shape() && stream == old(stream)
        invariant forall a, b :: 0 <= a < row && 0 <= b < width ==>
                    cells[a, b] == Cell(hash, if a < i then after else stream, a, b)
        invariant ret == Estimate(hash, after, i, key)
      {
        var index := hash(i, key);
        var v := cells[i, index] + value;
        forall b | 0 <= b < width
          ensures Cell(hash, after, i, b) == Cell(hash, stream, i, b) + if hash(i, key) == b then value else 0
        {
          CellSnoc(hash, stream, t, i, b);
        }
        cells[i, index] := v;
        if i == 0 || v < ret {
          ret := v;
        }
      }
      stream := after;
    }

    method GetEstimate(key: nat) returns (ret: int)
      requires Valid()
      ensures ret == Estimate(hash, stream, row, key)
    {
      ret := 0;
      for i := 0 to row
        invariant ret == Estimate(hash, stream, i, key)
      {
        var v := cells[i, hash(i, key)];
        if i == 0 || v < ret {
          ret := v;
        }
      }
    }

    method Clear()
      requires Shape()
      modifies this, cells
      ensures Valid() && stream == []
    {
      forall i, j | 0 <= i < row && 0 <= j < width {
        cells[i, j] := 0;
      }
      stream := [];
    }

    function GetValue(i: nat, j: nat): int
      requires Shape() && i < row && j < width
      reads this, cells
    {
      cells[i, j]
    }

    method SetValue(i: nat, j: nat, v: int)
      requires Shape() && i < row && j < width
      modifies cells
      ensures forall a, b :: 0 <= a < row && 0 <= b < width ==>
                cells[a, b] == if a == i && b == j then v else old(cells[a, b])
    {
      cells[i, j] := v;
    }
  }
}
