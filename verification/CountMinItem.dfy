/** The packed item of apps/count_min/cm_item.hpp: counters of 12 bytes, then keys of 8, in one
    fixed buffer.  Words are stored and loaded on the same machine, so the order of their bytes is
    not observable; the model uses the one of Wire. */
module CountMinItem {
  import opened CountMin
  import opened Wire

  const SK_SIZE := 8000
  const MAX_HH := 100
  const CAPACITY := SK_SIZE * 12 + MAX_HH * 8

  function CounterBytes(c: Counter): (s: seq<byte>)
    ensures |s| == 12
  {
    Put(c.index, 4) + Put(c.value, 8)
  }

  function CountersBytes(counters: seq<Counter>): (s: seq<byte>)
    ensures |s| == 12 * |counters|
  {
    if counters == [] then []
    else CountersBytes(counters[..|counters| - 1]) + CounterBytes(counters[|counters| - 1])
  }

  function KeysBytes(keys: seq<nat>): (s: seq<byte>)
    ensures |s| == 8 * |keys|
  {
    if keys == [] then [] else KeysBytes(keys[..|keys| - 1]) + Put(keys[|keys| - 1], 8)
  }

  /** The bytes at the n-th counter's place are that counter's. */
  lemma {:induction false} CounterAt(counters: seq<Counter>, n: nat)
    requires n < |counters|
    ensures CountersBytes(counters)[12 * n..12 * n + 12] == CounterBytes(counters[n])
    decreases |counters|
  {
    var m := |counters| - 1;
    var front := CountersBytes(counters[..m]);
    if n < m {
      CounterAt(counters[..m], n);
      assert (front + CounterBytes(counters[m]))[12 * n..12 * n + 12] == front[12 * n..12 * n + 12];
    }
  }

  lemma {:induction false} KeyAt(keys: seq<nat>, n: nat)
    requires n < |keys|
    ensures KeysBytes(keys)[8 * n..8 * n + 8] == Put(keys[n], 8)
    decreases |keys|
  {
    var m := |keys| - 1;
    var front := KeysBytes(keys[..m]);
    if n < m {
      KeyAt(keys[..m], n);
      assert (front + Put(keys[m], 8))[8 * n..8 * n + 8] == front[8 * n..8 * n + 8];
    }
  }

  function ItemBytes(counters: seq<Counter>, keys: seq<nat>): (s: seq<byte>)
    ensures |s| == 12 * |counters| + 8 * |keys|
  {
    CountersBytes(counters) + KeysBytes(keys)
  }

  predicate Fits(c: Counter) {
    c.index < Pow256(4) && c.value < Pow256(8)
  }

  lemma CounterAppended(counters: seq<Counter>, keys: seq<nat>, c: Counter)
    requires keys == [] && WordsFit(counters, keys) && Fits(c)
    ensures ItemBytes(counters + [c], keys) == ItemBytes(counters, keys) + Put(c.index, 4) + Put(c.value, 8)
    ensures WordsFit(counters + [c], keys)
  {
    CountersSnoc(counters, c);
    Regroup(CountersBytes(counters), Put(c.index, 4), Put(c.value, 8));
    assert KeysBytes(keys) == [];
  }

  lemma KeyFits(counters: seq<Counter>, keys: seq<nat>, key: nat)
    requires WordsFit(counters, keys) && key < Pow256(8)
    ensures WordsFit(counters, keys + [key])
  {
  }

  lemma KeyAppended(counters: seq<Counter>, keys: seq<nat>, key: nat)
    ensures ItemBytes(counters, keys + [key]) == ItemBytes(counters, keys) + Put(key, 8)
  {
    var front, s := CountersBytes(counters), Put(key, 8);
    KeysSnoc(keys, key);
    Regroup(front, KeysBytes(keys), s);
  }

  lemma KeysSnoc(keys: seq<nat>, key: nat)
    ensures KeysBytes(keys + [key]) == KeysBytes(keys) + Put(key, 8)
  {
    assert (keys + [key])[..|keys|] == keys;
  }

  lemma CountersSnoc(counters: seq<Counter>, c: Counter)
    ensures CountersBytes(counters + [c]) == CountersBytes(counters) + CounterBytes(c)
  {
    assert (counters + [c])[..|counters|] == counters;
  }

  lemma Regroup(a: seq<byte>, b: seq<byte>, c: seq<byte>)
    ensures a + (b + c) == a + b + c
  {
  }

  /** What the two loads of GetCounter find. */
  lemma CounterRoundTrip(counters: seq<Counter>, keys: seq<nat>, n: nat)
    requires n < |counters| && WordsFit(counters, keys)
    ensures var s := ItemBytes(counters, keys);
            Get(s[12 * n..12 * n + 4]) == counters[n].index && Get(s[12 * n + 4..12 * n + 12]) == counters[n].value
  {
    var s, c := ItemBytes(counters, keys), counters[n];
    assert c in counters;
    CounterAt(counters, n);
    var bytes := CounterBytes(c);
    assert s[12 * n..12 * n + 12] == bytes;
    assert s[12 * n..12 * n + 4] == bytes[..4] == Put(c.index, 4);
    assert s[12 * n + 4..12 * n + 12] == bytes[4..] == Put(c.value, 8);
    GetPut(c.index, 4);
    GetPut(c.value, 8);
  }

  /** What the load of GetKey finds. */
  lemma KeyRoundTrip(counters: seq<Counter>, keys: seq<nat>, n: nat)
    requires n < |keys| && WordsFit(counters, keys)
    ensures var at := 12 * |counters| + 8 * n; Get(ItemBytes(counters, keys)[at..at + 8]) == keys[n]
  {
    var at := 12 * |counters| + 8 * n;
    assert keys[n] in keys;
    KeyAt(keys, n);
    assert ItemBytes(counters, keys)[at..at + 8] == KeysBytes(keys)[8 * n..8 * n + 8];
    GetPut(keys[n], 8);
  }

  ghost predicate WordsFit(counters: seq<Counter>, keys: seq<nat>) {
    && (forall c :: c in counters ==> Fits(c))
    && forall k :: k in keys ==> k < Pow256(8)
  }

  class CMItem {
    var numCounter: nat
    var numHH: nat
    var start: nat  // offset of the next write
    const raw: array<byte>
    ghost var counters: seq<Counter>
    ghost var keys: seq<nat>

    ghost predicate Valid()
      reads this, raw
    {
      && raw.Length == CAPACITY
      && numCounter == |counters| && numHH == |keys|
      && start == 12 * numCounter + 8 * numHH <= CAPACITY
      && raw[..start] == ItemBytes(counters, keys)
      && WordsFit(counters, keys)
    }

    constructor ()
      ensures Valid() && fresh(raw) && counters == [] && keys == []
    {
      numCounter, numHH, start, counters, keys := 0, 0, 0, [], [];
      raw := new byte[CAPACITY];
    }

    /** Stores one word behind what is there. */
    method Store(v: nat, n: nat)
      requires start + n <= raw.Length
      modifies this`start, raw
      ensures start == old(start) + n && raw[..start] == old(raw[..start]) + Put(v, n)
    {
      var s := Put(v, n);
      for k := 0 to n
        invariant start == old(start) && raw[..start + k] == old(raw[..start]) + s[..k]
      {
        raw[start + k] := s[k];
      }
      start := start + n;
      assert s[..n] == s;
    }

    method Load(at: nat, n: nat) returns (v: nat)
      requires at + n <= start <= raw.Length
      ensures v == Get(raw[..start][at..at + n])
    {
      v := Get(raw[at..at + n]);
      assert raw[at..at + n] == raw[..start][at..at + n];
    }

    /** Counters come before keys, as the sender calls it; the buffer must have room, since the
        source does not look. */
    method AppendCounter(index: nat, value: nat)
      requires Valid() && numHH == 0 && start + 12 <= CAPACITY
      requires index < Pow256(4) && value < Pow256(8)
      modifies this, raw
      ensures Valid() && counters == old(counters) + [Counter(index, value)] && keys == old(keys)
    {
      CounterAppended(counters, keys, Counter(index, value));
      numCounter := numCounter + 1;
      Store(index, 4);
      Store(value, 8);
      counters := counters + [Counter(index, value)];
    }

    method AppendHH(key: nat)
      requires Valid() && start + 8 <= CAPACITY && key < Pow256(8)
      modifies this, raw
      ensures Valid() && counters == old(counters) && keys == old(keys) + [key]
    {
      KeyAppended(counters, keys, key);
      KeyFits(counters, keys, key);
      numHH := numHH + 1;
      Store(key, 8);
      keys := keys + [key];
    }

    /** The counter that was appended n-th. */
    method GetCounter(n: nat) returns (c: Counter)
      requires Valid() && n < numCounter
      ensures c == counters[n]
    {
      var index := Load(12 * n, 4);
      var value := Load(12 * n + 4, 8);
      CounterRoundTrip(counters, keys, n);
      c := Counter(index, value);
    }

    /** The key that was appended n-th. */
    method GetKey(n: nat) returns (key: nat)
      requires Valid() && n < numHH
      ensures key == keys[n]
    {
      key := Load(12 * numCounter + 8 * n, 8);
      KeyRoundTrip(counters, keys, n);
    }
  }
}
