/** The fault-tolerant numeric arrays of src/operator/array_max.hpp, array_l1.hpp and array_l2.hpp.
    Values are exact integers. */
module NumericArrays {
  import opened Sums

  // ---------------------------------------------------------------- NumericArray_MAX

  datatype MaxArray = MaxArray(row: seq<int>, backup: seq<int>, maxDiff: int, maxDiffIndex: nat)

  /** What SerializeState sends: the cell's index as key, and its value. */
  datatype BackupData = BackupData(key: nat, value: int)

  predicate MaxShape(a: MaxArray) {
    |a.row| == |a.backup| && (a.maxDiffIndex == 0 || a.maxDiffIndex < |a.row|)
  }

  function NewMax(length: nat): MaxArray {
    MaxArray(seq(length, _ => 0), seq(length, _ => 0), 0, 0)
  }

  function MaxUpdated(a: MaxArray, index: nat, value: int): MaxArray
    requires index < |a.row| == |a.backup|
  {
    var diff := value - a.backup[index];
    var b := a.(row := a.row[index := value]);
    if diff > a.maxDiff then b.(maxDiff := diff, maxDiffIndex := index) else b
  }

  function MaxSaved(a: MaxArray): BackupData
    requires MaxShape(a) && |a.row| > 0
  {
    BackupData(a.maxDiffIndex, a.row[a.maxDiffIndex])
  }

  function MaxSerialized(a: MaxArray): MaxArray
    requires MaxShape(a) && |a.row| > 0
  {
    a.(backup := a.backup[a.maxDiffIndex := a.row[a.maxDiffIndex]], maxDiff := 0, maxDiffIndex := 0)
  }

  function MaxRecovered(a: MaxArray, d: BackupData): MaxArray
    requires d.key < |a.row| == |a.backup|
  {
    a.(row := a.row[d.key := d.value], backup := a.backup[d.key := d.value])
  }

  /** The rows and the difference are zeroed; the index stays. */
  function MaxCleared(a: MaxArray): MaxArray {
    MaxArray(seq(|a.row|, _ => 0), seq(|a.backup|, _ => 0), 0, a.maxDiffIndex)
  }

  class NumericArrayMax {
    const length: nat
    const cells: array<int>
    const backupCells: array<int>
    var maxDiff: int
    var maxDiffIndex: nat

    ghost predicate Valid()
      reads this, cells, backupCells
    {
      cells != backupCells && cells.Length == length == backupCells.Length && MaxShape(Model())
    }

    ghost function Model(): MaxArray
      reads this, cells, backupCells
    {
      MaxArray(cells[..], backupCells[..], maxDiff, maxDiffIndex)
    }

    constructor (l: nat)
      ensures Valid() && length == l && Model() == NewMax(l)
      ensures fresh(cells) && fresh(backupCells)
    {
      length := l;
      cells := new int[l](_ => 0);
      backupCells := new int[l](_ => 0);
      maxDiff, maxDiffIndex := 0, 0;
    }

    method UpdateValue(index: nat, value: int)
      requires Valid() && index < length
      modifies this, cells
      ensures Valid() && Model() == MaxUpdated(old(Model()), index, value)
    {
      cells[index] := value;
      if value - backupCells[index] > maxDiff {
        maxDiff := value - backupCells[index];
        maxDiffIndex := index;
      }
    }

    method SerializeState() returns (d: BackupData)
      requires Valid() && length > 0
      modifies this, backupCells
      ensures Valid() && d == MaxSaved(old(Model())) && Model() == MaxSerialized(old(Model()))
    {
      d := BackupData(maxDiffIndex, cells[maxDiffIndex]);
      backupCells[maxDiffIndex] := cells[maxDiffIndex];
      maxDiffIndex := 0;
      maxDiff := 0;
    }

    method Clear()
      requires Valid()
      modifies this`maxDiff, cells, backupCells
      ensures Valid() && Model() == MaxCleared(old(Model()))
    {
      forall i | 0 <= i < length {
        cells[i] := 0;
      }
      forall i | 0 <= i < length {
        backupCells[i] := 0;
      }
      maxDiff := 0;
    }

    method RecoveryState(d: BackupData)
      requires Valid() && d.key < length
      modifies cells, backupCells
      ensures Valid() && Model() == MaxRecovered(old(Model()), d)
    {
      cells[d.key], backupCells[d.key] := d.value, d.value;
    }
  }

  // ---------------------------------------------------------------- NumericArray_L1 and _L2

  /** The distance of one cell from its backup: absolute value for L1, square for L2. */
  datatype Norm = L1 | L2

  function Abs(x: int): nat {
    if x < 0 then -x else x
  }

  function Sqr(x: int): nat {
    Square(x);
    x * x
  }

  lemma Square(x: int)
    ensures x * x >= 0
  {
  }

  /** The cost function an array uses. */
  function Metric(norm: Norm): int -> nat {
    if norm.L1? then Abs else Sqr
  }

  datatype SumArray = SumArray(row: seq<int>, backup: seq<int>, totDiff: int)

  /** The per-cell costs of two rows. */
  function Costs(cost: int -> nat, a: seq<int>, b: seq<int>): (c: seq<nat>)
    requires |a| == |b|
    ensures |c| == |a|
    ensures forall i :: 0 <= i < |a| ==> c[i] == cost(a[i] - b[i])
  {
    seq(|a|, i requires 0 <= i < |a| => cost(a[i] - b[i]))
  }

  function Id(x: nat): nat { x }

  /** The true distance of two rows: the sum over all cells. */
  function Distance(cost: int -> nat, a: seq<int>, b: seq<int>): nat
    requires |a| == |b|
  {
    Sum(Costs(cost, a, b), Id)
  }

  /** The two distances written out: the sum of absolute differences and the sum of squared differences. */
  function RowDistance(norm: Norm, a: seq<int>, b: seq<int>): int
    requires |a| == |b|
    decreases |a|
  {
    if a == [] then 0
    else
      var d := a[0] - b[0];
      RowDistance(norm, a[1..], b[1..]) + match norm
                                          case L1 => if d < 0 then -d else d
                                          case L2 => d * d
  }

  lemma {:induction false} DistanceIsRowDistance(norm: Norm, a: seq<int>, b: seq<int>)
    requires |a| == |b|
    ensures Distance(Metric(norm), a, b) == RowDistance(norm, a, b)
    decreases |a|
  {
    if a != [] {
      DistanceIsRowDistance(norm, a[1..], b[1..]);
      assert Costs(Metric(norm), a, b)[1..] == Costs(Metric(norm), a[1..], b[1..]);
    }
  }

  function NewSum(length: nat): SumArray {
    SumArray(seq(length, _ => 0), seq(length, _ => 0), 0)
  }

  function SumUpdated(cost: int -> nat, a: SumArray, index: nat, value: int): SumArray
    requires index < |a.row| == |a.backup|
  {
    a.(totDiff := a.totDiff - cost(a.row[index] - a.backup[index]) + cost(value - a.backup[index]),
       row := a.row[index := value])
  }

  /** No cell is further from its backup than cell k, and every earlier cell is nearer. */
  ghost predicate FirstMax(cost: int -> nat, a: seq<int>, b: seq<int>, n: nat, k: nat)
    requires n <= |a| == |b|
  {
    && k < |a|
    && (forall i :: 0 <= i < n ==> cost(a[i] - b[i]) <= cost(a[k] - b[k]))
    && (forall i :: 0 <= i < k ==> cost(a[i] - b[i]) < cost(a[k] - b[k]))
  }

  /** The cell SerializeState picks: the scan of the source. */
  function FirstMaxIndex(cost: int -> nat, a: seq<int>, b: seq<int>, n: nat): (k: nat)
    requires n <= |a| == |b| && |a| > 0
    ensures k < |a|
  {
    if n == 0 then 0
    else
      var k := FirstMaxIndex(cost, a, b, n - 1);
      if cost(a[n - 1] - b[n - 1]) > cost(a[k] - b[k]) then n - 1 else k
  }

  lemma {:induction false} FirstMaxFound(cost: int -> nat, a: seq<int>, b: seq<int>, n: nat)
    requires n <= |a| == |b| && |a| > 0
    ensures FirstMax(cost, a, b, n, FirstMaxIndex(cost, a, b, n))
  {
    if n > 0 {
      FirstMaxFound(cost, a, b, n - 1);
    }
  }

  function SumSerialized(cost: int -> nat, a: SumArray, k: nat): SumArray
    requires k < |a.row| == |a.backup|
  {
    a.(totDiff := a.totDiff - cost(a.row[k] - a.backup[k]), backup := a.backup[k := a.row[k]])
  }

  function SumRecovered(a: SumArray, d: BackupData): SumArray
    requires d.key < |a.row| == |a.backup|
  {
    a.(row := a.row[d.key := d.value], backup := a.backup[d.key := d.value])
  }

  /** NumericArray_L1 and NumericArray_L2, which differ only in the cost of a cell.  `length` is
      taken to be the constructor's argument. */
  class NumericArraySum {
    const norm: Norm
    const cost: int -> nat
    const length: nat
    const cells: array<int>
    const backupCells: array<int>
    var totDiff: int

    ghost predicate Valid()
      reads this, cells, backupCells
    {
      cost == Metric(norm) && cells != backupCells && cells.Length == length == backupCells.Length
    }

    ghost function Model(): SumArray
      reads this, cells, backupCells
    {
      SumArray(cells[..], backupCells[..], totDiff)
    }

    constructor (n: Norm, l: nat)
      ensures Valid() && norm == n && length == l && Model() == NewSum(l)
      ensures fresh(cells) && fresh(backupCells)
    {
      norm, cost, length := n, Metric(n), l;
      cells := new int[l](_ => 0);
      backupCells := new int[l](_ => 0);
      totDiff := 0;
    }

    method UpdateValue(index: nat, value: int)
      requires Valid() && index < length
      modifies this, cells
      ensures Valid() && Model() == SumUpdated(cost, old(Model()), index, value)
      ensures var was, now := old(cells[index]) - backupCells[index], value - backupCells[index];
        totDiff == old(totDiff) + match norm
                                  case L1 => (if now < 0 then -now else now) - (if was < 0 then -was else was)
                                  case L2 => now * now - was * was
    {
      var oldDiff := cost(cells[index] - backupCells[index]);
      var newDiff := cost(value - backupCells[index]);
      totDiff := totDiff - oldDiff + newDiff;
      cells[index] := value;
    }

    /** Backs up the first cell of largest distance. */
    method SerializeState() returns (d: BackupData)
      requires Valid() && length > 0
      modifies this, backupCells
      ensures Valid() && d.key == FirstMaxIndex(cost, old(cells[..]), old(backupCells[..]), length)
      ensures d.value == cells[d.key] && Model() == SumSerialized(cost, old(Model()), d.key)
    {
      var maxDiffIndex := FindMax();
      d := BackupData(maxDiffIndex, cells[maxDiffIndex]);
      totDiff := totDiff - cost(cells[maxDiffIndex] - backupCells[maxDiffIndex]);
      backupCells[maxDiffIndex] := cells[maxDiffIndex];
    }

    /** The search of SerializeState. */
    method FindMax() returns (maxDiffIndex: nat)
      requires Valid() && length > 0
      ensures maxDiffIndex == FirstMaxIndex(cost, cells[..], backupCells[..], length)
    {
      maxDiffIndex := 0;
      for i := 0 to length
        invariant maxDiffIndex == FirstMaxIndex(cost, cells[..], backupCells[..], i)
      {
        if cost(cells[i] - backupCells[i]) > cost(cells[maxDiffIndex] - backupCells[maxDiffIndex]) {
          maxDiffIndex := i;
        }
      }
    }

    method RecoveryState(d: BackupData)
      requires Valid() && d.key < length
      modifies cells, backupCells
      ensures Valid() && Model() == SumRecovered(old(Model()), d)
    {
      cells[d.key], backupCells[d.key] := d.value, d.value;
    }
  }
}
