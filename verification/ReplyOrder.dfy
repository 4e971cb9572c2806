/** The order of a recovery reply: a worker's operators in the order of their first saves, and for each its
    cells in the order of their first saves (src/fault_tolerance/backup_server.cpp:42-81, 138-202). */
module ReplyOrder {
  import opened BackupServer

  /** The operators of a worker, by their packed keys, in the order of their first saves. */
  function FirstOps(history: seq<Item>, w: nat): seq<nat> {
    if history == [] then []
    else
      var n := |history| - 1;
      var k, before := OpKey(history[n]), FirstOps(history[..n], w);
      if Narrow(history[n].worker) == w && k !in before then before + [k] else before
  }

  /** The cells of an operator in the order of their first saves. */
  function FirstCells(history: seq<Item>, k: nat): seq<nat> {
    if history == [] then []
    else
      var n := |history| - 1;
      var before := FirstCells(history[..n], k);
      if OpKey(history[n]) == k && history[n].key !in before then before + [history[n].key] else before
  }

  /** The last item saved for each of these cells. */
  function LastOf(last: map<Addr, Item>, k: nat, cells: seq<nat>): seq<Item>
    requires forall c :: c in cells ==> Addr(k, c) in last
  {
    seq(|cells|, i requires 0 <= i < |cells| => last[Addr(k, cells[i])])
  }

  ghost function Listed(history: seq<Item>, keys: seq<nat>): seq<Item> {
    if keys == [] then []
    else
      var k := keys[|keys| - 1];
      CellsAreSaved(history, k);
      Listed(history, keys[..|keys| - 1]) + LastOf(Last(history), k, FirstCells(history, k))
  }

  lemma {:induction false} CellsAreSaved(history: seq<Item>, k: nat)
    ensures forall c :: c in FirstCells(history, k) <==> Addr(k, c) in Last(history)
  {
    if history != [] {
      CellsAreSaved(history[..|history| - 1], k);
    }
  }

  // ---------------------------------------------------------------- the tables are in order

  ghost predicate InOrder(c: Content, cells: seq<nat>) {
    c.used == |cells| && c.used <= |c.slots| && forall i :: 0 <= i < c.used ==> c.slots[i].key == cells[i]
  }

  lemma SaveKeepsOrder(c: Content, item: Item, cells: seq<nat>)
    requires Good(c) && InOrder(c, cells)
    ensures InOrder(SavedInto(c, item), if item.key in cells then cells else cells + [item.key])
  {
    if item.key in c.index {
      assert cells[c.index[item.key]] == item.key;
    } else {
      assert forall i :: 0 <= i < c.used ==> c.slots[i].key in c.index;
    }
  }

  lemma {:induction false} ContentsInOrder(history: seq<Item>, k: nat)
    ensures k in Serve(history).ops ==> InOrder(Serve(history).ops[k], FirstCells(history, k))
    ensures k !in Serve(history).ops ==> FirstCells(history, k) == []
    decreases |history|
  {
    if history != [] {
      var n := |history| - 1;
      var s, item := Serve(history[..n]), history[n];
      ContentsInOrder(history[..n], k);
      StoreKeepsInv(s, item);
      if OpKey(item) == k {
        var before := FirstCells(history[..n], k);
        if k in s.ops {
          SaveKeepsOrder(s.ops[k], item, before);
        } else {
          SaveKeepsOrder(NewContent(item), item, before);
        }
      }
    }
  }

  lemma {:induction false} OpsInOrder(history: seq<Item>, w: nat)
    ensures Keys(Serve(history), w) == FirstOps(history, w)
    decreases |history|
  {
    if history != [] {
      var n := |history| - 1;
      var s, item := Serve(history[..n]), history[n];
      OpsInOrder(history[..n], w);
      StoreKeepsInv(s, item);
      WorkerOfKey(Narrow(item.worker), item.thread, item.op);
      assert OpKey(item) in Keys(s, Narrow(item.worker)) <==> OpKey(item) in s.ops;
    }
  }

  // ---------------------------------------------------------------- the reply

  /** An operator's slots are the last items of its cells. */
  lemma SlotsAreLast(history: seq<Item>, k: nat, c: Content)
    requires k in Serve(history).ops && c == Serve(history).ops[k]
    requires forall x :: x in FirstCells(history, k) ==> Addr(k, x) in Last(history)
    ensures c.used <= |c.slots| && c.slots[..c.used] == LastOf(Last(history), k, FirstCells(history, k))
  {
    var cells, last := FirstCells(history, k), Last(history);
    ContentsInOrder(history, k);
    ServeMatches(history);
    forall i | 0 <= i < c.used ensures c.slots[i] == last[Addr(k, cells[i])] {
      assert cells[i] in cells && Owned(c, k);
      assert MatchesAt(Serve(history).ops, last, Addr(k, cells[i]));
      assert c.index[c.slots[i].key] == i;
    }
  }

  lemma {:induction false} CollectIsListed(history: seq<Item>, keys: seq<nat>)
    requires InTable(Serve(history).ops, keys)
    ensures Collect(Serve(history).ops, keys) == Listed(history, keys)
    decreases |keys|
  {
    if keys != [] {
      var k := keys[|keys| - 1];
      CollectIsListed(history, keys[..|keys| - 1]);
      CellsAreSaved(history, k);
      SlotsAreLast(history, k, Serve(history).ops[k]);
    }
  }

  /** After any history the reply is this list: no table, only what was saved and in which order. */
  lemma ReplyIsListed(history: seq<Item>, worker: u32)
    ensures Reply(history, worker) == Listed(history, FirstOps(history, Narrow(worker)))
  {
    var s := Serve(history);
    WorkerKeysOwned(s, Narrow(worker));
    OpsInOrder(history, Narrow(worker));
    CollectIsListed(history, FirstOps(history, Narrow(worker)));
  }
}
