/** Saved cells and what a recovery rebuilds from them. */
module SavedCells {
  import opened NumericArrays

  /** The server replies with one item per key ever saved, namely the last one. */
  predicate Lists(reply: seq<BackupData>, saved: map<nat, int>) {
    && (forall i, j :: 0 <= i < j < |reply| ==> reply[i].key != reply[j].key)
    && (forall i :: 0 <= i < |reply| ==> reply[i].key in saved && saved[reply[i].key] == reply[i].value)
    && (forall k :: k in saved ==> exists i :: 0 <= i < |reply| && reply[i].key == k)
  }

  /** The last saved value of each cell, 0 where nothing was saved. */
  function Row(saved: map<nat, int>, length: nat): seq<int> {
    seq(length, i => if i in saved then saved[i] else 0)
  }

  predicate KeysBelow(items: seq<BackupData>, length: nat) {
    forall k :: 0 <= k < |items| ==> items[k].key < length
  }

  function Stored(row: seq<int>, items: seq<BackupData>): (r: seq<int>)
    requires KeysBelow(items, |row|)
    ensures |r| == |row|
    decreases |items|
  {
    if items == [] then row else Stored(row[items[0].key := items[0].value], items[1..])
  }

  /** Storing items with distinct keys stores exactly those items. */
  lemma {:induction false} StoredAt(row: seq<int>, items: seq<BackupData>, i: nat)
    requires KeysBelow(items, |row|) && i < |row|
    requires forall j, k :: 0 <= j < k < |items| ==> items[j].key != items[k].key
    ensures forall k :: 0 <= k < |items| && items[k].key == i ==> Stored(row, items)[i] == items[k].value
    ensures (forall k :: 0 <= k < |items| ==> items[k].key != i) ==> Stored(row, items)[i] == row[i]
    decreases |items|
  {
    if items != [] {
      var rest := items[1..];
      assert forall k :: 0 <= k < |rest| ==> rest[k] == items[k + 1];
      StoredAt(row[items[0].key := items[0].value], rest, i);
      if items[0].key == i {
        assert forall k :: 0 <= k < |rest| ==> rest[k].key != i;
      } else if exists k :: 0 <= k < |items| && items[k].key == i {
        var k :| 0 <= k < |items| && items[k].key == i;
        assert rest[k - 1] == items[k];
      }
    }
  }

  /** Whatever the order of the reply, a zeroed row becomes the row of saved values. */
  lemma ReplyRebuildsRow(reply: seq<BackupData>, saved: map<nat, int>, length: nat)
    requires Lists(reply, saved) && KeysBelow(reply, length)
    ensures Stored(seq(length, _ => 0), reply) == Row(saved, length)
  {
    var zero := seq(length, _ => 0);
    forall i | 0 <= i < length ensures Stored(zero, reply)[i] == Row(saved, length)[i] {
      StoredAt(zero, reply, i);
      if i in saved {
        var k :| 0 <= k < |reply| && reply[k].key == i;
      } else {
        assert forall k :: 0 <= k < |reply| ==> reply[k].key != i;
      }
    }
  }

  /** Saving a cell's current value is the same as copying it in the backup row. */
  lemma RowOfSaved(saved: map<nat, int>, length: nat, k: nat, v: int)
    requires k < length
    ensures Row(saved[k := v], length) == Row(saved, length)[k := v]
  {
  }

  function MaxRecoveredAll(a: MaxArray, items: seq<BackupData>): (r: MaxArray)
    requires |a.row| == |a.backup| && KeysBelow(items, |a.row|)
    ensures r == a.(row := Stored(a.row, items), backup := Stored(a.backup, items))
    decreases |items|
  {
    if items == [] then a else MaxRecoveredAll(MaxRecovered(a, items[0]), items[1..])
  }

  function SumRecoveredAll(a: SumArray, items: seq<BackupData>): (r: SumArray)
    requires |a.row| == |a.backup| && KeysBelow(items, |a.row|)
    ensures r == a.(row := Stored(a.row, items), backup := Stored(a.backup, items))
    decreases |items|
  {
    if items == [] then a else SumRecoveredAll(SumRecovered(a, items[0]), items[1..])
  }

  // ---------------------------------------------------------------- operators of any kind

  datatype Operator = Max(max: MaxArray) | Sum(norm: Norm, sum: SumArray)

  function RowOf(o: Operator): seq<int> {
    if o.Max? then o.max.row else o.sum.row
  }

  function BackupOf(o: Operator): seq<int> {
    if o.Max? then o.max.backup else o.sum.backup
  }

  /** The operator as its constructor leaves it. */
  function Fresh(o: Operator): Operator {
    match o
    case Max(a) => Max(NewMax(|a.row|))
    case Sum(norm, a) => Sum(norm, NewSum(|a.row|))
  }

  function Recover(o: Operator, d: BackupData): Operator
    requires d.key < |RowOf(o)| == |BackupOf(o)|
  {
    match o
    case Max(a) => Max(MaxRecovered(a, d))
    case Sum(norm, a) => Sum(norm, SumRecovered(a, d))
  }

  function RecoverAll(o: Operator, items: seq<BackupData>): Operator
    requires |RowOf(o)| == |BackupOf(o)| && KeysBelow(items, |RowOf(o)|)
  {
    match o
    case Max(a) => Max(MaxRecoveredAll(a, items))
    case Sum(norm, a) => Sum(norm, SumRecoveredAll(a, items))
  }

  lemma {:induction false} StoredSnoc(row: seq<int>, items: seq<BackupData>, d: BackupData)
    requires KeysBelow(items, |row|) && d.key < |row|
    ensures KeysBelow(items + [d], |row|)
    ensures Stored(row, items + [d]) == Stored(row, items)[d.key := d.value]
    decreases |items|
  {
    if items == [] {
      assert items + [d] == [d] && [d][1..] == [];
    } else {
      assert (items + [d])[1..] == items[1..] + [d];
      StoredSnoc(row[items[0].key := items[0].value], items[1..], d);
    }
  }

  /** One more item. */
  lemma RecoverSnoc(o: Operator, items: seq<BackupData>, d: BackupData)
    requires |RowOf(o)| == |BackupOf(o)| && KeysBelow(items, |RowOf(o)|) && d.key < |RowOf(o)|
    ensures KeysBelow(items + [d], |RowOf(o)|)
    ensures RecoverAll(o, items + [d]) == Recover(RecoverAll(o, items), d)
  {
    StoredSnoc(RowOf(o), items, d);
    StoredSnoc(BackupOf(o), items, d);
  }

  /** A fresh operator that has taken a reply holds the saved values and 0 elsewhere, in both rows, and
      knows of no difference. */
  lemma RecoveredFresh(o: Operator, reply: seq<BackupData>, saved: map<nat, int>)
    requires Lists(reply, saved) && KeysBelow(reply, |RowOf(o)|)
    ensures var r, row := RecoverAll(Fresh(o), reply), Row(saved, |RowOf(o)|);
      match o
      case Max(_) => r == Max(MaxArray(row, row, 0, 0))
      case Sum(norm, _) => r == Sum(norm, SumArray(row, row, 0))
  {
    ReplyRebuildsRow(reply, saved, |RowOf(o)|);
  }
}
