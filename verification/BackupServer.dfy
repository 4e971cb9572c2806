/** The backup server of src/fault_tolerance/backup_server.cpp and the distribution of its reply
    over a worker's operators (src/fault_tolerance/operator_tracker.cpp). */
module BackupServer {
  import opened NumericArrays
  import opened SavedCells

  type u16 = x: nat | x < 0x10000
  type u32 = x: nat | x < 0x1_0000_0000

  /** One saved cell, as carried by a backup request. */
  datatype Item = Item(worker: u32, thread: u16, op: u16, key: nat, value: int)

  // ---------------------------------------------------------------- the packed operator key

  /** worker_id is a 32-bit field that MAKE_OP_KEY and the worker table take as 16 bits. */
  function Narrow(worker: u32): u16 {
    worker % 0x10000
  }

  function Pow2(k: nat): nat {
    if k == 0 then 1 else 2 * Pow2(k - 1)
  }

  /** Left shift of an unsigned word that is wide enough. */
  function Shifted(a: nat, k: nat): nat {
    a * Pow2(k)
  }

  /** Disjunction of unsigned words, bit by bit. */
  function Or(a: nat, b: nat): nat
    decreases a + b
  {
    if a == 0 && b == 0 then 0
    else 2 * Or(a / 2, b / 2) + if a % 2 == 1 || b % 2 == 1 then 1 else 0
  }

  lemma {:induction false} OrZero(a: nat)
    ensures Or(a, 0) == a
  {
    if a > 0 {
      OrZero(a / 2);
    }
  }

  /** The disjunction with a number that fits below the shifted one is the sum. */
  lemma {:induction false} OrIsSum(a: nat, k: nat, b: nat)
    requires b < Pow2(k)
    ensures Or(Shifted(a, k), b) == Shifted(a, k) + b
  {
    if k == 0 {
      OrZero(a);
    } else {
      assert Shifted(a, k) == 2 * Shifted(a, k - 1);
      OrIsSum(a, k - 1, b / 2);
    }
  }

  /** The key as a sum of its three parts. */
  function MakeOpKey(worker: u16, thread: u16, op: u16): nat {
    worker * 0x1_0000_0000 + thread * 0x10000 + op
  }

  lemma Powers()
    ensures Pow2(16) == 0x10000 && Pow2(32) == 0x1_0000_0000
  {
    assert Pow2(8) == 256;
    assert Pow2(16) == 0x10000;
    assert Pow2(24) == 0x100_0000;
  }

  /** It is what the macro computes, `worker << 32 | thread << 16 | op`: the parts do not overlap, and
      nothing is shifted out of 64 bits. */
  lemma PartsDoNotOverlap(worker: u16, thread: u16, op: u16)
    ensures MakeOpKey(worker, thread, op) == Or(Or(Shifted(worker, 32), Shifted(thread, 16)), op)
    ensures MakeOpKey(worker, thread, op) < 0x1_0000_0000_0000_0000
  {
    Powers();
    OrIsSum(worker, 32, Shifted(thread, 16));
    OrIsSum(worker * 0x10000 + thread, 16, op);
  }

  /** The packed key determines its parts. */
  lemma OpKeyInjective(w1: u16, t1: u16, o1: u16, w2: u16, t2: u16, o2: u16)
    ensures MakeOpKey(w1, t1, o1) == MakeOpKey(w2, t2, o2) <==> w1 == w2 && t1 == t2 && o1 == o2
  {
  }

  function OpKey(i: Item): nat {
    MakeOpKey(Narrow(i.worker), i.thread, i.op)
  }

  // ---------------------------------------------------------------- BackupContent

  /** The items of one operator: slots[..used] hold one item per key, found through index. */
  datatype Content = Content(index: map<nat, nat>, slots: seq<Item>, used: nat)

  ghost predicate Good(c: Content) {
    && c.used <= |c.slots| && |c.slots| >= 1
    && (forall k :: k in c.index ==> c.index[k] < c.used && c.slots[c.index[k]].key == k)
    && (forall i :: 0 <= i < c.used ==> c.slots[i].key in c.index && c.index[c.slots[i].key] == i)
  }

  /** The last item saved under each key. */
  ghost function Saved(c: Content): map<nat, Item>
    requires Good(c)
  {
    map k | k in c.index :: c.slots[c.index[k]]
  }

  function NewContent(zero: Item): Content {
    Content(map[], [zero], 0)
  }

  /** SelectSlot followed by the copy; a full table is doubled before the copy. */
  function SavedInto(c: Content, item: Item): Content
    requires |c.slots| >= 1 && c.used <= |c.slots| && (item.key in c.index ==> c.index[item.key] < |c.slots|)
  {
    if item.key in c.index then c.(slots := c.slots[c.index[item.key] := item])
    else
      var i := c.used;
      var slots := if i == |c.slots| then c.slots + c.slots else c.slots;
      Content(c.index[item.key := i], slots[i := item], c.used + 1)
  }

  lemma OverwriteIsUpdate(c: Content, item: Item)
    requires Good(c) && item.key in c.index
    ensures Good(SavedInto(c, item)) && Saved(SavedInto(c, item)) == Saved(c)[item.key := item]
  {
    assert forall k :: k in c.index && k != item.key ==> c.index[k] != c.index[item.key];
  }

  lemma AppendIsUpdate(c: Content, item: Item)
    requires Good(c) && item.key !in c.index
    ensures Good(SavedInto(c, item)) && Saved(SavedInto(c, item)) == Saved(c)[item.key := item]
  {
  }

  /** Saving replaces the item of the same key and keeps all others; the slot index stays below the capacity. */
  lemma SaveIsUpdate(c: Content, item: Item)
    requires Good(c)
    ensures Good(SavedInto(c, item)) && Saved(SavedInto(c, item)) == Saved(c)[item.key := item]
  {
    if item.key in c.index {
      OverwriteIsUpdate(c, item);
    } else {
      AppendIsUpdate(c, item);
    }
  }

  /** The table has the smallest power of two of slots that holds the items. */
  ghost predicate Doubled(c: Content) {
    c.used <= |c.slots| && (exists p: nat :: |c.slots| == Pow2(p)) && (|c.slots| > 1 ==> |c.slots| < 2 * c.used)
  }

  lemma SaveKeepsDoubled(c: Content, item: Item)
    requires Good(c) && Doubled(c)
    ensures Doubled(SavedInto(c, item))
  {
    var p: nat :| |c.slots| == Pow2(p);
    assert |c.slots + c.slots| == Pow2(p + 1);
  }

  lemma NewIsDoubled(item: Item)
    ensures Doubled(NewContent(item))
  {
    assert Pow2(0) == 1;
  }

  // ---------------------------------------------------------------- the server

  /** The table of contents by packed key, and per worker the packed keys in order of creation. */
  datatype Tables = Tables(ops: map<nat, Content>, workerOps: map<nat, seq<nat>>)

  function Keys(s: Tables, w: nat): seq<nat> {
    if w in s.workerOps then s.workerOps[w] else []
  }

  /** One save request. */
  function Saving(s: Tables, item: Item): Tables
    requires OpKey(item) in s.ops ==>
      var c := s.ops[OpKey(item)];
      |c.slots| >= 1 && c.used <= |c.slots| && (item.key in c.index ==> c.index[item.key] < |c.slots|)
  {
    var k, w := OpKey(item), Narrow(item.worker);
    if k in s.ops then s.(ops := s.ops[k := SavedInto(s.ops[k], item)])
    else Tables(s.ops[k := SavedInto(NewContent(item), item)], s.workerOps[w := Keys(s, w) + [k]])
  }

  /** All items of content k belong to that operator. */
  ghost predicate Owned(c: Content, k: nat) {
    Good(c) && c.used > 0 && forall i :: 0 <= i < c.used ==> OpKey(c.slots[i]) == k
  }

  /** The worker an operator key belongs to: its upper half. */
  function WorkerOf(k: nat): nat {
    k / 0x1_0000_0000
  }

  lemma WorkerOfKey(w: u16, t: u16, o: u16)
    ensures WorkerOf(MakeOpKey(w, t, o)) == w
  {
  }

  ghost predicate Distinct(keys: seq<nat>) {
    forall i, j :: 0 <= i < j < |keys| ==> keys[i] != keys[j]
  }

  ghost predicate ServerInv(s: Tables) {
    && (forall k :: k in s.ops ==> Owned(s.ops[k], k))
    && (forall w, k :: k in Keys(s, w) <==> k in s.ops && WorkerOf(k) == w)
    && (forall w :: Distinct(Keys(s, w)))
  }

  lemma NewKeyKeepsLists(s: Tables, s': Tables, k: nat, w: nat)
    requires ServerInv(s) && k !in s.ops && WorkerOf(k) == w
    requires s'.ops.Keys == s.ops.Keys + {k} && s'.workerOps == s.workerOps[w := Keys(s, w) + [k]]
    ensures forall v, k :: k in Keys(s', v) <==> k in s'.ops && WorkerOf(k) == v
    ensures forall v :: Distinct(Keys(s', v))
  {
    forall v ensures Distinct(Keys(s', v)) {
      assert Distinct(Keys(s, v));
      if v == w {
        assert k !in Keys(s, w);
      }
    }
    forall v, j ensures j in Keys(s', v) <==> j in s'.ops && WorkerOf(j) == v {
      assert j in Keys(s, v) <==> j in s.ops && WorkerOf(j) == v;
    }
  }

  lemma StoreKeepsInv(s: Tables, item: Item)
    requires ServerInv(s)
    ensures OpKey(item) in s.ops ==> Good(s.ops[OpKey(item)])
    ensures ServerInv(Saving(s, item))
  {
    var k, w := OpKey(item), Narrow(item.worker);
    WorkerOfKey(w, item.thread, item.op);
    var s' := Saving(s, item);
    if k in s.ops {
      assert Owned(s.ops[k], k);
      SaveOwned(s.ops[k], item);
      assert forall v :: Keys(s', v) == Keys(s, v);
    } else {
      SaveFirst(item);
      NewKeyKeepsLists(s, s', k, w);
    }
  }

  lemma SaveOwned(c: Content, item: Item)
    requires Owned(c, OpKey(item))
    ensures Owned(SavedInto(c, item), OpKey(item))
  {
    SaveIsUpdate(c, item);
  }

  lemma SaveFirst(item: Item)
    ensures Owned(SavedInto(NewContent(item), item), OpKey(item))
    ensures Saved(SavedInto(NewContent(item), item)) == map[item.key := item]
  {
    SaveIsUpdate(NewContent(item), item);
  }

  // ---------------------------------------------------------------- what the server remembers

  datatype Addr = Addr(opKey: nat, key: nat)

  function AddrOf(item: Item): Addr {
    Addr(OpKey(item), item.key)
  }

  /** Reference: the last item saved at each address. */
  function Last(history: seq<Item>): map<Addr, Item> {
    if history == [] then map[]
    else Last(history[..|history| - 1])[AddrOf(history[|history| - 1]) := history[|history| - 1]]
  }

  /** The server after a history of saves. */
  ghost function Serve(history: seq<Item>): (s: Tables)
    ensures ServerInv(s)
  {
    if history == [] then Tables(map[], map[])
    else
      var s := Serve(history[..|history| - 1]);
      var item := history[|history| - 1];
      StoreKeepsInv(s, item);
      Saving(s, item)
  }

  /** After any history the tables of all operators are of that size. */
  lemma {:induction false} TablesAreDoubled(history: seq<Item>, k: nat)
    requires k in Serve(history).ops
    ensures Doubled(Serve(history).ops[k])
    decreases |history|
  {
    var n := |history| - 1;
    var s, item := Serve(history[..n]), history[n];
    StoreKeepsInv(s, item);
    if k in s.ops {
      TablesAreDoubled(history[..n], k);
      if k == OpKey(item) {
        SaveKeepsDoubled(s.ops[k], item);
      }
    } else {
      NewIsDoubled(item);
      SaveKeepsDoubled(NewContent(item), item);
    }
  }

  ghost predicate HasAddr(ops: map<nat, Content>, a: Addr) {
    a.opKey in ops && a.key in ops[a.opKey].index
  }

  /** The table holds x at address a. */
  ghost predicate HoldsAt(ops: map<nat, Content>, a: Addr, x: Item) {
    HasAddr(ops, a) && var c := ops[a.opKey]; c.index[a.key] < |c.slots| && c.slots[c.index[a.key]] == x
  }

  /** The table and the reference hold the same items at the same addresses. */
  ghost predicate Matches(ops: map<nat, Content>, last: map<Addr, Item>) {
    forall a :: MatchesAt(ops, last, a)
  }

  ghost predicate MatchesAt(ops: map<nat, Content>, last: map<Addr, Item>, a: Addr) {
    (a in last <==> HasAddr(ops, a)) && (a in last ==> HoldsAt(ops, a, last[a]))
  }

  lemma SaveMatches(s: Tables, last: map<Addr, Item>, item: Item)
    requires ServerInv(s) && Matches(s.ops, last)
    ensures OpKey(item) in s.ops ==> Good(s.ops[OpKey(item)])
    ensures Matches(Saving(s, item).ops, last[AddrOf(item) := item])
  {
    if OpKey(item) in s.ops {
      assert Good(s.ops[OpKey(item)]);
    }
    var ops', last' := Saving(s, item).ops, last[AddrOf(item) := item];
    forall a ensures MatchesAt(ops', last', a) {
      assert MatchesAt(s.ops, last, a);
      SaveMatchesAt(s, last, item, a);
    }
  }

  lemma SaveMatchesAt(s: Tables, last: map<Addr, Item>, item: Item, a: Addr)
    requires OpKey(item) in s.ops ==> Good(s.ops[OpKey(item)])
    requires MatchesAt(s.ops, last, a)
    ensures MatchesAt(Saving(s, item).ops, last[AddrOf(item) := item], a)
  {
    if OpKey(item) in s.ops {
      SaveHolds(s.ops[OpKey(item)], item, a.key);
    } else {
      SaveFirst(item);
    }
  }

  /** What a save does to the slot of one key. */
  lemma SaveHolds(c: Content, item: Item, key: nat)
    requires Good(c)
    ensures var d := SavedInto(c, item);
      && (key in d.index <==> key in c.index || key == item.key)
      && (key in d.index ==> d.index[key] < |d.slots|)
      && (key in d.index ==> d.slots[d.index[key]] == if key == item.key then item else c.slots[c.index[key]])
  {
    SaveIsUpdate(c, item);
    var d := SavedInto(c, item);
    if key in d.index {
      assert Saved(d)[key] == d.slots[d.index[key]];
    }
  }

  lemma {:induction false} ServeMatches(history: seq<Item>)
    ensures Matches(Serve(history).ops, Last(history))
  {
    if history != [] {
      var n := |history| - 1;
      ServeMatches(history[..n]);
      SaveMatches(Serve(history[..n]), Last(history[..n]), history[n]);
    }
  }

  // ---------------------------------------------------------------- replies

  ghost predicate AllOwned(ops: map<nat, Content>, keys: seq<nat>) {
    forall k :: k in keys ==> k in ops && Owned(ops[k], k)
  }

  predicate InTable(ops: map<nat, Content>, keys: seq<nat>) {
    forall k :: k in keys ==> k in ops && ops[k].used <= |ops[k].slots|
  }

  /** The recovery data: the used slots of each of the worker's operators in turn. */
  function Collect(ops: map<nat, Content>, keys: seq<nat>): seq<Item>
    requires InTable(ops, keys)
  {
    if keys == [] then []
    else
      var c := ops[keys[|keys| - 1]];
      Collect(ops, keys[..|keys| - 1]) + c.slots[..c.used]
  }

  function Total(ops: map<nat, Content>, keys: seq<nat>): nat
    requires InTable(ops, keys)
  {
    if keys == [] then 0 else Total(ops, keys[..|keys| - 1]) + ops[keys[|keys| - 1]].used
  }

  lemma {:induction false} CollectSound(ops: map<nat, Content>, keys: seq<nat>)
    requires AllOwned(ops, keys)
    ensures InTable(ops, keys) && |Collect(ops, keys)| == Total(ops, keys)
    ensures forall x :: x in Collect(ops, keys) ==> OpKey(x) in keys && HoldsAt(ops, AddrOf(x), x)
  {
    if keys != [] {
      var n := |keys| - 1;
      CollectSound(ops, keys[..n]);
      var c := ops[keys[n]];
      assert Owned(c, keys[n]);
      forall x | x in Collect(ops, keys) ensures OpKey(x) in keys && HoldsAt(ops, AddrOf(x), x) {
        if x in c.slots[..c.used] {
          var i :| 0 <= i < c.used && c.slots[i] == x;
        }
      }
    }
  }

  lemma {:induction false} CollectComplete(ops: map<nat, Content>, keys: seq<nat>, a: Addr, x: Item)
    requires AllOwned(ops, keys) && InTable(ops, keys)
    requires a.opKey in keys && HoldsAt(ops, a, x)
    ensures x in Collect(ops, keys)
  {
    var n := |keys| - 1;
    if a.opKey == keys[n] {
      var c := ops[a.opKey];
      assert Owned(c, a.opKey);
      assert c.slots[..c.used][c.index[a.key]] == x;
    } else {
      assert a.opKey in keys[..n];
      CollectComplete(ops, keys[..n], a, x);
    }
  }

  ghost predicate DistinctAddrs(items: seq<Item>) {
    forall i, j :: 0 <= i < j < |items| ==> AddrOf(items[i]) != AddrOf(items[j])
  }

  lemma {:induction false} CollectDistinct(ops: map<nat, Content>, keys: seq<nat>)
    requires Distinct(keys) && AllOwned(ops, keys) && InTable(ops, keys)
    ensures DistinctAddrs(Collect(ops, keys))
  {
    if keys != [] {
      var n := |keys| - 1;
      CollectDistinct(ops, keys[..n]);
      CollectSound(ops, keys[..n]);
      var c := ops[keys[n]];
      assert Owned(c, keys[n]);
      JoinDistinct(Collect(ops, keys[..n]), c, keys[..n], keys[n]);
    }
  }

  lemma JoinDistinct(a: seq<Item>, c: Content, keys: seq<nat>, k: nat)
    requires DistinctAddrs(a) && Owned(c, k) && k !in keys
    requires forall x :: x in a ==> OpKey(x) in keys
    ensures DistinctAddrs(a + c.slots[..c.used])
  {
    var b := c.slots[..c.used];
    forall i, j | 0 <= i < j < |a + b| ensures AddrOf((a + b)[i]) != AddrOf((a + b)[j]) {
      if i < |a| <= j {
        assert a[i] in a;
      } else if |a| <= i {
        assert c.index[b[i - |a|].key] == i - |a| && c.index[b[j - |a|].key] == j - |a|;
      }
    }
  }

  lemma WorkerKeysOwned(s: Tables, w: nat)
    requires ServerInv(s)
    ensures AllOwned(s.ops, Keys(s, w)) && InTable(s.ops, Keys(s, w)) && Distinct(Keys(s, w))
  {
    forall k | k in Keys(s, w) ensures k in s.ops && Owned(s.ops[k], k) {
    }
  }

  ghost function Reply(history: seq<Item>, worker: u32): seq<Item> {
    var s := Serve(history);
    WorkerKeysOwned(s, Narrow(worker));
    Collect(s.ops, Keys(s, Narrow(worker)))
  }

  /** r holds exactly the last items of the given (narrowed) worker, each address once. */
  ghost predicate Exact(r: seq<Item>, last: map<Addr, Item>, w: u16) {
    && DistinctAddrs(r)
    && (forall x :: x in r ==> Narrow(x.worker) == w && AddrOf(x) in last && last[AddrOf(x)] == x)
    && (forall a :: a in last && Narrow(last[a].worker) == w ==> last[a] in r)
  }

  lemma ReplySound(s: Tables, last: map<Addr, Item>, w: u16, x: Item)
    requires ServerInv(s) && Matches(s.ops, last) && InTable(s.ops, Keys(s, w))
    requires x in Collect(s.ops, Keys(s, w))
    ensures Narrow(x.worker) == w && AddrOf(x) in last && last[AddrOf(x)] == x
  {
    WorkerKeysOwned(s, w);
    CollectSound(s.ops, Keys(s, w));
    WorkerOfKey(Narrow(x.worker), x.thread, x.op);
    assert MatchesAt(s.ops, last, AddrOf(x)) && HoldsAt(s.ops, AddrOf(x), x);
  }

  lemma ReplyComplete(s: Tables, last: map<Addr, Item>, w: u16, a: Addr)
    requires ServerInv(s) && Matches(s.ops, last) && InTable(s.ops, Keys(s, w))
    requires a in last && Narrow(last[a].worker) == w && AddrOf(last[a]) == a
    ensures last[a] in Collect(s.ops, Keys(s, w))
  {
    WorkerKeysOwned(s, w);
    WorkerOfKey(Narrow(last[a].worker), last[a].thread, last[a].op);
    assert MatchesAt(s.ops, last, a);
    CollectComplete(s.ops, Keys(s, w), a, last[a]);
  }

  /** Main result: after any sequence of saves, the recovery reply for a worker holds exactly the last
      item saved at each address of that worker, each address once, and its length is the size reply. */
  lemma ReplyIsExact(history: seq<Item>, worker: u32)
    ensures Exact(Reply(history, worker), Last(history), Narrow(worker))
    ensures var s := Serve(history);
      InTable(s.ops, Keys(s, Narrow(worker))) && |Reply(history, worker)| == Total(s.ops, Keys(s, Narrow(worker)))
  {
    var s, last, w := Serve(history), Last(history), Narrow(worker);
    ServeMatches(history);
    WorkerKeysOwned(s, w);
    CollectSound(s.ops, Keys(s, w));
    CollectDistinct(s.ops, Keys(s, w));
    forall x | x in Reply(history, worker) ensures Narrow(x.worker) == w && AddrOf(x) in last && last[AddrOf(x)] == x {
      ReplySound(s, last, w, x);
    }
    forall a | a in last && Narrow(last[a].worker) == w ensures last[a] in Reply(history, worker) {
      LastAtAddress(history, a);
      ReplyComplete(s, last, w, a);
    }
  }

  lemma {:induction false} LastAtAddress(history: seq<Item>, a: Addr)
    requires a in Last(history)
    ensures AddrOf(Last(history)[a]) == a
  {
    if a != AddrOf(history[|history| - 1]) {
      LastAtAddress(history[..|history| - 1], a);
    }
  }

  // ---------------------------------------------------------------- workers among each other

  lemma {:induction false} CollectSame(ops: map<nat, Content>, ops': map<nat, Content>, keys: seq<nat>)
    requires InTable(ops, keys) && InTable(ops', keys) && forall k :: k in keys ==> ops'[k] == ops[k]
    ensures Collect(ops', keys) == Collect(ops, keys)
  {
    if keys != [] {
      CollectSame(ops, ops', keys[..|keys| - 1]);
    }
  }

  /** A save of a worker with another narrowed id does not touch the reply, not even its order. */
  lemma ForeignSave(history: seq<Item>, item: Item, worker: u32)
    requires Narrow(item.worker) != Narrow(worker)
    ensures Reply(history + [item], worker) == Reply(history, worker)
  {
    assert (history + [item])[..|history|] == history;
    var s, s', w := Serve(history), Serve(history + [item]), Narrow(worker);
    StoreKeepsInv(s, item);
    WorkerOfKey(Narrow(item.worker), item.thread, item.op);
    WorkerKeysOwned(s, w);
    WorkerKeysOwned(s', w);
    assert OpKey(item) !in Keys(s, w);
    CollectSame(s.ops, s'.ops, Keys(s, w));
  }

  /** Nor do any number of them. */
  lemma {:induction false} ForeignSaves(history: seq<Item>, others: seq<Item>, worker: u32)
    requires forall x :: x in others ==> Narrow(x.worker) != Narrow(worker)
    ensures Reply(history + others, worker) == Reply(history, worker)
    decreases |others|
  {
    if others == [] {
      assert history + others == history;
    } else {
      var n := |others| - 1;
      assert history + others == (history + others[..n]) + [others[n]];
      ForeignSaves(history, others[..n], worker);
      ForeignSave(history + others[..n], others[n], worker);
    }
  }

  ghost predicate Undisturbed(history: seq<Item>, item: Item, worker: u32) {
    Reply(history + [item], worker) == Reply(history, worker)
  }

  /** Two workers share saved state if and only if their ids agree modulo 65536: exactly then some
      save of one changes what the other recovers. */
  lemma WorkersCollide(w1: u32, w2: u32)
    ensures (forall history: seq<Item>, item: Item :: item.worker == w1 ==> Undisturbed(history, item, w2))
       <==> w1 % 0x10000 != w2 % 0x10000
  {
    if w1 % 0x10000 != w2 % 0x10000 {
      forall history: seq<Item>, item: Item | item.worker == w1 ensures Undisturbed(history, item, w2) {
        ForeignSave(history, item, w2);
      }
    } else {
      var item := Item(w1, 0, 0, 0, 0);
      FirstSaveIsSeen(item, w2);
      assert !Undisturbed([], item, w2);
    }
  }

  lemma FirstSaveIsSeen(item: Item, worker: u32)
    requires Narrow(item.worker) == Narrow(worker)
    ensures !Undisturbed([], item, worker)
  {
    var none: seq<Item> := [];
    var one := none + [item];
    assert one[|one| - 1] == item;
    var last := Last(one);
    assert AddrOf(item) in last && last[AddrOf(item)] == item;
    var r := ReplyTo(one, worker, last);
    var r0 := ReplyTo(none, worker, map[]);
    assert last[AddrOf(item)] in r;
    assert r0 != [] ==> r0[0] in r0;
  }

  /** Then a save is lost: an item is replaced by one of the other worker for the same thread,
      operator and key, such as worker 65536's by worker 0's. */
  lemma CollisionLosesSave(history: seq<Item>, a: Item, b: Item)
    requires a.worker % 0x10000 == b.worker % 0x10000 && a.worker != b.worker
    requires a.thread == b.thread && a.op == b.op && a.key == b.key
    ensures var r := Reply(history + [a, b], a.worker); a !in r && b in r
  {
    var all := history + [a, b];
    assert all[..|all| - 1] == history + [a];
    ReplyIsExact(all, a.worker);
    assert Last(all)[AddrOf(b)] == b && AddrOf(a) == AddrOf(b);
  }

  // ---------------------------------------------------------------- the recovering worker's id

  /** What OperatorTracker::RecoverOps tests: some item carries another id than the tracker's, which is the
      worker's narrowed to 16 bits although items carry all 32. */
  ghost predicate Refused(reply: seq<Item>, worker: u32) {
    !Carry(reply, Narrow(worker), |reply|)
  }

  /** The first n items all carry this id. */
  ghost predicate Carry(reply: seq<Item>, id: u16, n: nat)
    requires n <= |reply|
  {
    forall i :: 0 <= i < n ==> reply[i].worker == id
  }

  /** Every last item at the worker's addresses carries the narrowed id. */
  ghost predicate LastCarry(last: map<Addr, Item>, w: u16) {
    forall a :: a in last && Narrow(last[a].worker) == w ==> last[a].worker == w
  }

  /** A recovery goes through if and only if they all do. */
  lemma RecoveryGoesThroughIff(history: seq<Item>, worker: u32)
    ensures !Refused(Reply(history, worker), worker) <==> LastCarry(Last(history), Narrow(worker))
  {
    ReplyIsExact(history, worker);
    CarriedIfLastCarry(Reply(history, worker), Last(history), worker);
  }

  lemma CarriedIfLastCarry(r: seq<Item>, last: map<Addr, Item>, worker: u32)
    requires Exact(r, last, Narrow(worker))
    ensures !Refused(r, worker) <==> LastCarry(last, Narrow(worker))
  {
    if LastCarry(last, Narrow(worker)) {
      forall i | 0 <= i < |r| ensures r[i].worker == Narrow(worker) {
        assert r[i] in r;
      }
    } else {
      var a :| a in last && Narrow(last[a].worker) == Narrow(worker) && last[a].worker != Narrow(worker);
      assert last[a] in r;
    }
  }

  /** With ids below 65536 it always does. */
  lemma SmallIdsGoThrough(history: seq<Item>, worker: u32)
    requires forall x :: x in history ==> x.worker < 0x10000
    ensures LastCarry(Last(history), Narrow(worker))
  {
    var last := Last(history);
    forall a | a in last ensures last[a] in history {
      LastIsSaved(history, a);
    }
  }

  /** A worker with a larger id is refused for its own items: with one that is the last at its address
      its recovery ends the process. */
  lemma LargeIdRefusesItself(history: seq<Item>, worker: u32, a: Addr)
    requires worker >= 0x10000 && a in Last(history) && Last(history)[a].worker == worker
    ensures Refused(Reply(history, worker), worker)
  {
    RecoveryGoesThroughIff(history, worker);
  }

  /** For example after its first save. */
  lemma OwnSaveEndsRecovery(item: Item)
    requires item.worker >= 0x10000
    ensures Refused(Reply([item], item.worker), item.worker)
  {
    assert [item][..0] == [];
    LargeIdRefusesItself([item], item.worker, AddrOf(item));
  }

  /** And it loads the state of the worker with its narrowed id without complaint, once that has saved
      the same cell. */
  lemma WrongStateLoads(history: seq<Item>, a: Item, b: Item)
    requires |history| == 2 && history[0] == a && history[1] == b
    requires a.worker >= 0x10000 && b.worker == Narrow(a.worker)
    requires a.thread == b.thread && a.op == b.op && a.key == b.key
    ensures Reply(history, a.worker) == [b] && !Refused([b], a.worker)
  {
    LastOfTwo(history);
    var r := ReplyTo(history, a.worker, Last(history));
    OneItem(r, b, Last(history));
  }

  lemma ReplyTo(history: seq<Item>, worker: u32, last: map<Addr, Item>) returns (r: seq<Item>)
    requires last == Last(history)
    ensures r == Reply(history, worker) && Exact(r, last, Narrow(worker))
  {
    r := Reply(history, worker);
    ReplyIsExact(history, worker);
  }

  lemma OneItem(r: seq<Item>, b: Item, last: map<Addr, Item>)
    requires last == map[AddrOf(b) := b] && Exact(r, last, Narrow(b.worker))
    ensures r == [b]
  {
    assert AddrOf(b) in last && last[AddrOf(b)] in r;
    forall i | 0 <= i < |r| ensures r[i] == b {
      assert r[i] in r;
    }
    assert |r| > 1 ==> AddrOf(r[0]) != AddrOf(r[1]);
  }

  lemma LastOfTwo(history: seq<Item>)
    requires |history| == 2 && AddrOf(history[0]) == AddrOf(history[1])
    ensures Last(history) == map[AddrOf(history[1]) := history[1]]
  {
    assert history[..1][..0] == [];
    assert Last(history[..1]) == map[AddrOf(history[0]) := history[0]];
  }

  lemma {:induction false} LastIsSaved(history: seq<Item>, a: Addr)
    requires a in Last(history)
    ensures Last(history)[a] in history
  {
    if a != AddrOf(history[|history| - 1]) {
      LastIsSaved(history[..|history| - 1], a);
    }
  }

  // ---------------------------------------------------------------- the request loop

  datatype Request = Save(item: Item) | End | Size(worker: u32) | Data(worker: u32)

  datatype Answer = Done | Count(n: nat) | Items(items: seq<Item>)

  /** The items of the save requests, in order. */
  function Saves(requests: seq<Request>): seq<Item> {
    if requests == [] then []
    else
      var n := |requests| - 1;
      Saves(requests[..n]) + if requests[n].Save? then [requests[n].item] else []
  }

  function Ends(requests: seq<Request>): nat {
    if requests == [] then 0
    else
      var n := |requests| - 1;
      Ends(requests[..n]) + if requests[n].End? then 1 else 0
  }

  /** Request i - 1 is the n-th end request. */
  predicate EndsAt(requests: seq<Request>, n: nat, i: nat)
    requires i <= |requests|
  {
    i > 0 && requests[i - 1].End? && Ends(requests[..i]) == n
  }

  /** What a request must be answered after a history of saves. */
  ghost function Respond(history: seq<Item>, q: Request): Answer {
    match q
    case Size(w) => Count(|Reply(history, w)|)
    case Data(w) => Items(Reply(history, w))
    case _ => Done
  }

  ghost function AnswerTo(requests: seq<Request>, i: nat): Answer
    requires i < |requests|
  {
    Respond(Saves(requests[..i]), requests[i])
  }

  ghost predicate AnsweredAll(requests: seq<Request>, answers: seq<Answer>) {
    |answers| <= |requests| && forall i :: 0 <= i < |answers| ==> answers[i] == AnswerTo(requests, i)
  }

  lemma AnsweredSnoc(requests: seq<Request>, answers: seq<Answer>, a: Answer)
    requires AnsweredAll(requests, answers) && |answers| < |requests| && a == AnswerTo(requests, |answers|)
    ensures AnsweredAll(requests, answers + [a])
  {
  }

  lemma NextRequest(requests: seq<Request>, k: nat)
    requires k < |requests|
    ensures Saves(requests[..k + 1]) == Saves(requests[..k]) + if requests[k].Save? then [requests[k].item] else []
    ensures Ends(requests[..k + 1]) == Ends(requests[..k]) + if requests[k].End? then 1 else 0
  {
    assert requests[..k + 1][..k] == requests[..k];
  }

  lemma {:induction false} SavesAppend(a: seq<Request>, b: seq<Request>)
    ensures Saves(a + b) == Saves(a) + Saves(b)
    decreases |b|
  {
    if b == [] {
      assert a + b == a;
    } else {
      var n := |b| - 1;
      assert (a + b)[..|a + b| - 1] == a + b[..n];
      SavesAppend(a, b[..n]);
    }
  }

  lemma {:induction false} SavesAreRequested(requests: seq<Request>, x: Item)
    requires x in Saves(requests)
    ensures Save(x) in requests
  {
    if x in Saves(requests[..|requests| - 1]) {
      SavesAreRequested(requests[..|requests| - 1], x);
    }
  }

  /** The size reply announces the data reply, whatever is requested in between, as long as no save
      for that worker is. */
  lemma SizeAnnouncesData(requests: seq<Request>, i: nat, j: nat, worker: u32)
    requires i < j < |requests| && requests[i] == Size(worker) && requests[j] == Data(worker)
    requires forall m :: i <= m < j && requests[m].Save? ==> Narrow(requests[m].item.worker) != Narrow(worker)
    ensures AnswerTo(requests, i).n == |AnswerTo(requests, j).items|
  {
    var between := requests[i..j];
    assert requests[..j] == requests[..i] + between;
    SavesAppend(requests[..i], between);
    forall x | x in Saves(between) ensures Narrow(x.worker) != Narrow(worker) {
      SavesAreRequested(between, x);
      var m :| 0 <= m < |between| && between[m] == Save(x);
      assert requests[i + m] == Save(x);
    }
    ForeignSaves(Saves(requests[..i]), Saves(between), worker);
  }

  class BackupDaemon {
    var tables: Tables
    var stopped: nat
    const senders: nat
    ghost var history: seq<Item>

    ghost predicate Valid()
      reads this
    {
      tables == Serve(history)
    }

    constructor (n: nat)
      ensures Valid() && history == [] && stopped == 0 && senders == n
    {
      tables, stopped, senders, history := Tables(map[], map[]), 0, n, [];
    }

    /** Request 0 with data: create the operator's content if needed, then save. */
    method Save(item: Item)
      requires Valid()
      modifies this
      ensures Valid() && history == old(history) + [item] && stopped == old(stopped)
    {
      StoreKeepsInv(tables, item);
      var k, w := OpKey(item), Narrow(item.worker);
      if k !in tables.ops {
        tables := Tables(tables.ops[k := NewContent(item)], tables.workerOps[w := Keys(tables, w) + [k]]);
      }
      tables := tables.(ops := tables.ops[k := SavedInto(tables.ops[k], item)]);
      history := history + [item];
      assert history[..|history| - 1] == old(history);
      assert tables == Saving(old(tables), item);
    }

    /** Request 0 without data: a sender ends; the loop ends with the last one. */
    method End() returns (finished: bool)
      requires Valid()
      modifies this`stopped
      ensures stopped == old(stopped) + 1 && (finished <==> stopped == senders)
      ensures Valid()
    {
      stopped := stopped + 1;
      finished := stopped == senders;
    }

    /** One request of any kind. */
    method Handle(q: Request) returns (answer: Answer, finished: bool)
      requires Valid()
      modifies this
      ensures Valid()
      ensures history == old(history) + if q.Save? then [q.item] else []
      ensures stopped == old(stopped) + if q.End? then 1 else 0
      ensures finished <==> q.End? && stopped == senders
      ensures answer == Respond(old(history), q)
    {
      answer, finished := Done, false;
      match q
      case Save(item) => Save(item);
      case End => finished := End();
      case Size(w) =>
        var n := RecoverySize(w);
        answer := Count(n);
      case Data(w) =>
        var r := RecoveryData(w);
        answer := Items(r[..]);
    }

    /** Request k of a sequence. */
    method Answer(requests: seq<Request>, k: nat) returns (answer: Answer, finished: bool)
      requires Valid() && k < |requests| && history == Saves(requests[..k]) && stopped == Ends(requests[..k])
      modifies this
      ensures Valid() && history == Saves(requests[..k + 1]) && stopped == Ends(requests[..k + 1])
      ensures answer == AnswerTo(requests, k) && (finished <==> EndsAt(requests, senders, k + 1))
    {
      NextRequest(requests, k);
      answer, finished := Handle(requests[k]);
    }

    /** The request loop: it answers each request as specified, and ends with exactly the n-th end
        request for n senders, whatever comes in between. */
    method Loop(requests: seq<Request>) returns (answers: seq<Answer>)
      requires Valid() && history == [] && stopped == 0
      modifies this
      ensures Valid() && AnsweredAll(requests, answers) && history == Saves(requests[..|answers|])
      ensures |answers| < |requests| ==> EndsAt(requests, senders, |answers|)
      ensures forall i :: 0 <= i < |answers| ==> !EndsAt(requests, senders, i)
    {
      answers := [];
      while |answers| < |requests|
        invariant Valid() && AnsweredAll(requests, answers)
        invariant history == Saves(requests[..|answers|]) && stopped == Ends(requests[..|answers|])
        invariant forall i :: 0 <= i <= |answers| ==> !EndsAt(requests, senders, i)
        decreases |requests| - |answers|
      {
        var answer, finished := Answer(requests, |answers|);
        AnsweredSnoc(requests, answers, answer);
        answers := answers + [answer];
        if finished {
          return;
        }
      }
    }

    /** Request 1: the number of items a recovery would transfer. */
    method RecoverySize(worker: u32) returns (count: nat)
      requires Valid()
      ensures count == |Reply(history, worker)|
    {
      ReplyIsExact(history, worker);
      count := CountItems(tables.ops, Keys(tables, Narrow(worker)));
    }

    /** Request 2: the items themselves, copied into a buffer allocated for the counted number. */
    method RecoveryData(worker: u32) returns (r: array<Item>)
      requires Valid()
      ensures r[..] == Reply(history, worker)
    {
      ReplyIsExact(history, worker);
      r := CopyItems(tables.ops, Keys(tables, Narrow(worker)));
    }
  }

  method CountItems(ops: map<nat, Content>, keys: seq<nat>) returns (count: nat)
    requires InTable(ops, keys)
    ensures count == Total(ops, keys)
  {
    count := 0;
    for i := 0 to |keys|
      invariant count == Total(ops, keys[..i])
    {
      assert keys[..i + 1][..i] == keys[..i];
      count := count + ops[keys[i]].used;
    }
    assert keys[..|keys|] == keys;
  }

  method CopyItems(ops: map<nat, Content>, keys: seq<nat>) returns (r: array<Item>)
    requires InTable(ops, keys)
    ensures r[..] == Collect(ops, keys)
  {
    var total := CountItems(ops, keys);
    CollectLength(ops, keys);
    var zero := Item(0, 0, 0, 0, 0);
    r := new Item[total](_ => zero);
    var count: nat := 0;
    for i := 0 to |keys|
      invariant count <= r.Length && r[..count] == Collect(ops, keys[..i])
    {
      var c := ops[keys[i]];
      CollectGrows(ops, keys, i);
      AppendRecoveryItem(r, count, c);
      assert keys[..i + 1][..i] == keys[..i];
      count := count + c.used;
    }
    assert keys[..|keys|] == keys && r[..count] == r[..];
  }

  /** BackupContent::AppendRecoveryItem */
  method AppendRecoveryItem(r: array<Item>, count: nat, c: Content)
    requires c.used <= |c.slots| && count + c.used <= r.Length
    modifies r
    ensures r[..count + c.used] == old(r[..count]) + c.slots[..c.used]
  {
    for j := 0 to c.used
      invariant r[..count + j] == old(r[..count]) + c.slots[..j]
    {
      r[count + j] := c.slots[j];
      assert r[..count + j + 1] == r[..count + j] + [c.slots[j]];
    }
  }

  lemma {:induction false} CollectLength(ops: map<nat, Content>, keys: seq<nat>)
    requires InTable(ops, keys)
    ensures |Collect(ops, keys)| == Total(ops, keys)
  {
    if keys != [] {
      CollectLength(ops, keys[..|keys| - 1]);
    }
  }

  /** The running copy position never leaves the buffer. */
  lemma {:induction false} CollectGrows(ops: map<nat, Content>, keys: seq<nat>, i: nat)
    requires InTable(ops, keys) && i < |keys|
    ensures InTable(ops, keys[..i]) && |Collect(ops, keys[..i])| + ops[keys[i]].used <= |Collect(ops, keys)|
    decreases |keys| - i
  {
    var n := |keys| - 1;
    if i == n {
      assert keys[..n] == keys[..i];
    } else {
      CollectGrows(ops, keys[..n], i);
      assert keys[..n][..i] == keys[..i];
    }
  }

  // ---------------------------------------------------------------- recovery of a worker

  /** The saved cells of one operator: the last value saved for each of its keys. */
  function CellsOf(history: seq<Item>, k: nat): map<nat, int> {
    if history == [] then map[]
    else
      var x, cells := history[|history| - 1], CellsOf(history[..|history| - 1], k);
      if OpKey(x) == k then cells[x.key := x.value] else cells
  }

  /** A save changes one cell of one operator and nothing else. */
  lemma SaveChangesOneCell(history: seq<Item>, item: Item, k: nat)
    ensures OpKey(item) == k ==> CellsOf(history + [item], k) == CellsOf(history, k)[item.key := item.value]
    ensures OpKey(item) != k ==> CellsOf(history + [item], k) == CellsOf(history, k)
  {
    assert (history + [item])[..|history|] == history;
  }

  lemma {:induction false} CellsAreLast(history: seq<Item>, k: nat, key: nat)
    ensures key in CellsOf(history, k) <==> Addr(k, key) in Last(history)
    ensures key in CellsOf(history, k) ==> CellsOf(history, k)[key] == Last(history)[Addr(k, key)].value
  {
    if history != [] {
      CellsAreLast(history[..|history| - 1], k, key);
    }
  }

  /** The part of a reply that concerns one operator. */
  function Select(reply: seq<Item>, k: nat): seq<BackupData> {
    if reply == [] then []
    else Select(reply[..|reply| - 1], k) + Selected(reply[|reply| - 1], k)
  }

  function Selected(x: Item, k: nat): seq<BackupData> {
    if OpKey(x) == k then [BackupData(x.key, x.value)] else []
  }

  /** x is the item of operator k that d was taken from. */
  predicate Source(x: Item, k: nat, d: BackupData) {
    OpKey(x) == k && x.key == d.key && x.value == d.value
  }

  lemma {:induction false} SelectSound(reply: seq<Item>, k: nat, d: BackupData) returns (i: nat)
    requires d in Select(reply, k)
    ensures i < |reply| && Source(reply[i], k, d)
  {
    var n := |reply| - 1;
    if d in Select(reply[..n], k) {
      i := SelectSound(reply[..n], k, d);
    } else {
      i := n;
    }
  }

  lemma {:induction false} SelectComplete(reply: seq<Item>, k: nat, i: nat)
    requires i < |reply| && OpKey(reply[i]) == k
    ensures BackupData(reply[i].key, reply[i].value) in Select(reply, k)
  {
    var n := |reply| - 1;
    if i < n {
      SelectComplete(reply[..n], k, i);
    }
  }

  lemma {:induction false} SelectDistinct(reply: seq<Item>, k: nat)
    requires DistinctAddrs(reply)
    ensures forall i, j :: 0 <= i < j < |Select(reply, k)| ==> Select(reply, k)[i].key != Select(reply, k)[j].key
  {
    if reply != [] {
      var n := |reply| - 1;
      SelectDistinct(reply[..n], k);
      var a := Select(reply[..n], k);
      if OpKey(reply[n]) == k {
        forall i | 0 <= i < |a| ensures a[i].key != reply[n].key {
          var m := SelectSound(reply[..n], k, a[i]);
          assert AddrOf(reply[m]) != AddrOf(reply[n]);
        }
      }
    }
  }

  lemma SelectedIsSaved(history: seq<Item>, worker: u32, k: nat, d: BackupData)
    requires d in Select(Reply(history, worker), k)
    ensures d.key in CellsOf(history, k) && CellsOf(history, k)[d.key] == d.value
  {
    var r := Reply(history, worker);
    var j := SelectSound(r, k, d);
    ReplyIsExact(history, worker);
    assert r[j] in r;
    CellsAreLast(history, k, d.key);
  }

  lemma SavedIsSelected(history: seq<Item>, worker: u32, t: u16, o: u16, key: nat)
    requires key in CellsOf(history, MakeOpKey(Narrow(worker), t, o))
    ensures var k := MakeOpKey(Narrow(worker), t, o);
      BackupData(key, CellsOf(history, k)[key]) in Select(Reply(history, worker), k)
  {
    var k, r, last := MakeOpKey(Narrow(worker), t, o), Reply(history, worker), Last(history);
    var a := Addr(k, key);
    CellsAreLast(history, k, key);
    LastAtAddress(history, a);
    CellWorker(last[a], worker, t, o);
    ReplyIsExact(history, worker);
    assert last[a] in r;
    var j :| 0 <= j < |r| && r[j] == last[a];
    SelectComplete(r, k, j);
  }

  /** What a worker recovers for one operator lists exactly that operator's saved cells. */
  lemma ReplyListsCells(history: seq<Item>, worker: u32, t: u16, o: u16)
    ensures var k := MakeOpKey(Narrow(worker), t, o);
      Lists(Select(Reply(history, worker), k), CellsOf(history, k))
  {
    var k := MakeOpKey(Narrow(worker), t, o);
    var items, cells := Select(Reply(history, worker), k), CellsOf(history, k);
    assert forall i, j :: 0 <= i < j < |items| ==> items[i].key != items[j].key by {
      ReplyIsExact(history, worker);
      SelectDistinct(Reply(history, worker), k);
    }
    forall i | 0 <= i < |items| ensures items[i].key in cells && cells[items[i].key] == items[i].value {
      SelectedIsSaved(history, worker, k, items[i]);
    }
    forall key | key in cells ensures exists i :: 0 <= i < |items| && items[i].key == key {
      SavedIsSelected(history, worker, t, o, key);
      var i :| 0 <= i < |items| && items[i] == BackupData(key, cells[key]);
    }
  }

  lemma CellWorker(x: Item, worker: u32, t: u16, o: u16)
    requires OpKey(x) == MakeOpKey(Narrow(worker), t, o)
    ensures Narrow(x.worker) == Narrow(worker)
  {
    OpKeyInjective(Narrow(x.worker), x.thread, x.op, Narrow(worker), t, o);
  }

  /** The operators of a worker by thread and index. */
  type Operators = map<nat, Operator>

  predicate Fits(ops: Operators, reply: seq<Item>) {
    forall i :: 0 <= i < |reply| ==>
      OpKey(reply[i]) in ops && reply[i].key < |RowOf(ops[OpKey(reply[i])])| == |BackupOf(ops[OpKey(reply[i])])|
  }

  /** OperatorTracker::RecoverOps: every item goes to the operator it was saved from; an item with
      another id than the tracker's 16 bits of the worker's ends the process. */
  method RecoverOps(ops: Operators, reply: seq<Item>, worker: u32) returns (r: Operators, exited: bool)
    requires Fits(ops, reply)
    ensures exited <==> Refused(reply, worker)
    ensures !exited ==> Recovered(ops, r, reply)
  {
    r, exited := Walk(ops, reply, Narrow(worker));
    DistributedIsRecovered(ops, reply);
  }

  /** The loop over the items. */
  method Walk(ops: Operators, reply: seq<Item>, own: u16) returns (r: Operators, exited: bool)
    requires Fits(ops, reply)
    ensures exited <==> !Carry(reply, own, |reply|)
    ensures !exited ==> r == Distributed(ops, reply, |reply|)
  {
    r, exited := ops, false;
    for i := 0 to |reply|
      invariant Carry(reply, own, i) && r == Distributed(ops, reply, i)
    {
      if reply[i].worker != own {
        exited := true;
        return;
      }
      r := Given(r, reply[i]);
    }
  }

  /** The operators after the first n items, one by one. */
  ghost function Distributed(ops: Operators, reply: seq<Item>, n: nat): Operators
    requires n <= |reply|
  {
    if n == 0 then ops else Given(Distributed(ops, reply, n - 1), reply[n - 1])
  }

  /** One item is given to its operator. */
  function Given(r: Operators, x: Item): Operators {
    var k := OpKey(x);
    if k in r && x.key < |RowOf(r[k])| == |BackupOf(r[k])| then r[k := Recover(r[k], BackupData(x.key, x.value))] else r
  }

  lemma {:induction false} DistributedKeys(ops: Operators, reply: seq<Item>, n: nat)
    requires n <= |reply|
    ensures Distributed(ops, reply, n).Keys == ops.Keys
  {
    if n > 0 {
      DistributedKeys(ops, reply, n - 1);
    }
  }

  /** Items for operator k are for one of its cells. */
  predicate FitsOne(length: nat, reply: seq<Item>, k: nat) {
    forall i :: 0 <= i < |reply| && OpKey(reply[i]) == k ==> reply[i].key < length
  }

  /** An operator has then taken its part of them, in order. */
  lemma {:induction false} DistributedAt(ops: Operators, reply: seq<Item>, n: nat, k: nat, o: Operator)
    returns (items: seq<BackupData>)
    requires k in ops && o == ops[k] && |RowOf(o)| == |BackupOf(o)| && FitsOne(|RowOf(o)|, reply, k) && n <= |reply|
    ensures items == Select(reply[..n], k) && KeysBelow(items, |RowOf(o)|)
    ensures k in Distributed(ops, reply, n) && Distributed(ops, reply, n)[k] == RecoverAll(o, items)
  {
    items := [];
    if n > 0 {
      var before := DistributedAt(ops, reply, n - 1, k, o);
      var x, d := reply[n - 1], Distributed(ops, reply, n - 1);
      items := before + Selected(x, k);
      SelectNext(reply, n - 1, k);
      GivenAt(o, before, d, x, k, Given(d, x), items);
    }
  }

  lemma GivenAt(o: Operator, items: seq<BackupData>, d: Operators, x: Item, k: nat, d': Operators,
                items': seq<BackupData>)
    requires |RowOf(o)| == |BackupOf(o)| && KeysBelow(items, |RowOf(o)|) && items' == items + Selected(x, k)
    requires k in d && d[k] == RecoverAll(o, items) && d' == Given(d, x) && (OpKey(x) == k ==> x.key < |RowOf(o)|)
    ensures k in d' && KeysBelow(items', |RowOf(o)|) && d'[k] == RecoverAll(o, items')
  {
    if OpKey(x) == k {
      RecoverSnoc(o, items, BackupData(x.key, x.value));
    } else {
      assert items' == items;
    }
  }

  lemma SelectNext(reply: seq<Item>, i: nat, k: nat)
    requires i < |reply|
    ensures Select(reply[..i + 1], k) == Select(reply[..i], k) + Selected(reply[i], k)
  {
    assert reply[..i + 1][..i] == reply[..i];
  }

  lemma DistributedIsRecovered(ops: Operators, reply: seq<Item>)
    requires Fits(ops, reply)
    ensures Recovered(ops, Distributed(ops, reply, |reply|), reply)
  {
    assert reply[..|reply|] == reply;
    DistributedKeys(ops, reply, |reply|);
    forall k | k in ops && |RowOf(ops[k])| == |BackupOf(ops[k])|
      ensures KeysBelow(Select(reply, k), |RowOf(ops[k])|)
      ensures Distributed(ops, reply, |reply|)[k] == RecoverAll(ops[k], Select(reply, k))
    {
      var items := DistributedAt(ops, reply, |reply|, k, ops[k]);
    }
  }

  /** Every operator has taken its part of the reply, in order. */
  ghost predicate Recovered(ops: Operators, r: Operators, reply: seq<Item>) {
    r.Keys == ops.Keys && forall k :: k in ops && |RowOf(ops[k])| == |BackupOf(ops[k])| ==>
      && k in r && KeysBelow(Select(reply, k), |RowOf(ops[k])|)
      && r[k] == RecoverAll(ops[k], Select(reply, k))
  }

  /** End to end: a fresh operator recovered from the server's reply to any history holds, in its live
      and its backup row, the last saved value of each of its cells and 0 elsewhere. */
  lemma RecoveryIsLastSaved(history: seq<Item>, worker: u32, t: u16, o: u16, op: Operator)
    requires var k := MakeOpKey(Narrow(worker), t, o); KeysBelow(Select(Reply(history, worker), k), |RowOf(op)|)
    ensures var k := MakeOpKey(Narrow(worker), t, o);
      var r, row := RecoverAll(Fresh(op), Select(Reply(history, worker), k)), Row(CellsOf(history, k), |RowOf(op)|);
      match op
      case Max(_) => r == Max(MaxArray(row, row, 0, 0))
      case Sum(norm, _) => r == Sum(norm, SumArray(row, row, 0))
  {
    var k := MakeOpKey(Narrow(worker), t, o);
    ReplyListsCells(history, worker, t, o);
    RecoveredFresh(op, Select(Reply(history, worker), k), CellsOf(history, k));
  }
}
