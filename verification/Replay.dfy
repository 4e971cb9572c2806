/** Replay of a backup log after a crash (src/fault_tolerance/adapter_recovery.hpp).  A log is a file
    of length-prefixed records and a file of their 64-bit sequence numbers; replay starts behind the
    last gap in the numbers.  Lengths are words of the machine that wrote the log; the model uses the
    byte order of Wire. */
module Replay {
  import opened Optional
  import opened Wire

  const WORD: nat := 0x1_0000_0000_0000_0000

  /** A record whose length fits its 32-bit prefix. */
  ghost predicate Record(r: seq<byte>) {
    |r| < Pow256(4)
  }

  function RecordBytes(r: seq<byte>): seq<byte> {
    Put(|r|, 4) + r
  }

  function LogBytes(rs: seq<seq<byte>>): seq<byte> {
    if rs == [] then [] else RecordBytes(rs[0]) + LogBytes(rs[1..])
  }

  /** Each number from index k on is its predecessor plus one, in 64-bit arithmetic. */
  predicate Consecutive(seqs: seq<nat>, k: nat) {
    forall i, j :: k <= i && j == i + 1 < |seqs| ==> seqs[j] == (seqs[i] + 1) % WORD
  }

  /** The place behind the last gap. */
  ghost predicate IsStart(seqs: seq<nat>, start: nat) {
    && start < |seqs| && Consecutive(seqs, start)
    && forall k :: 0 <= k < start ==> !Consecutive(seqs, k)
  }

  /** There is one start only. */
  lemma StartIsUnique(seqs: seq<nat>, a: nat, b: nat)
    requires IsStart(seqs, a) && IsStart(seqs, b)
    ensures a == b
  {
  }

  /** The replayed numbers count up from the first. */
  lemma {:induction false} ReplayCountsUp(seqs: seq<nat>, start: nat, k: nat)
    requires IsStart(seqs, start) && start + k < |seqs| && seqs[start] < 0x1_0000_0000_0000_0000
    ensures seqs[start + k] == (seqs[start] + k) % 0x1_0000_0000_0000_0000
  {
    if k > 0 {
      ReplayCountsUp(seqs, start, k - 1);
      var j := start + k;
      assert seqs[j] == (seqs[j - 1] + 1) % WORD;
      WrapOnce(seqs[start] + (k - 1));
    }
  }

  /** The source's test, a subtraction that wraps around. */
  lemma StepIsOne(last: nat, cur: nat)
    requires last < WORD && cur < WORD
    ensures (cur - last) % WORD == 1 <==> cur == (last + 1) % WORD
  {
  }

  lemma ExtendRun(seqs: seq<nat>, start: nat, i: nat)
    requires start < i < |seqs| && Consecutive(seqs[..i], start) && seqs[i] == (seqs[i - 1] + 1) % WORD
    ensures Consecutive(seqs[..i + 1], start)
  {
    var long, short := seqs[..i + 1], seqs[..i];
    forall a, b | start <= a && b == a + 1 < |long| ensures long[b] == (long[a] + 1) % WORD {
      assert b < i ==> long[b] == short[b] && long[a] == short[a];
    }
  }

  lemma GapAt(seqs: seq<nat>, i: nat)
    requires 0 < i < |seqs| && seqs[i] != (seqs[i - 1] + 1) % WORD
    ensures forall k :: 0 <= k < i ==> !Consecutive(seqs, k)
  {
    var j := i - 1;
    assert i == j + 1;
  }

  lemma WrapOnce(x: nat)
    ensures (x % WORD + 1) % WORD == (x + 1) % WORD
  {
  }

  /** The length in front of a log is its first record's, and that record follows. */
  lemma FirstRecord(rs: seq<seq<byte>>)
    requires rs != [] && Record(rs[0])
    ensures var s, n := LogBytes(rs), |rs[0]|;
            |s| >= 4 + n && Get(s[..4]) == n && s[4..4 + n] == rs[0] && s[4 + n..] == LogBytes(rs[1..])
  {
    GetPut(|rs[0]|, 4);
    assert LogBytes(rs)[..4] == Put(|rs[0]|, 4);
  }

  class AdapterRecovery {
    const dataBuf: seq<byte>
    const seqBuf: seq<nat>
    var ptr: nat
    ghost var left: seq<seq<byte>>  // the records not yet returned

    /** The cursor is at a record boundary and the rest of the log is the records left. */
    ghost predicate Valid()
      reads this
    {
      && ptr <= |dataBuf| && dataBuf[ptr..] == LogBytes(left)
      && forall r :: r in left ==> Record(r)
    }

    constructor (data: seq<byte>, seqs: seq<nat>)
      ensures dataBuf == data && seqBuf == seqs && ptr == 0
    {
      dataBuf, seqBuf, ptr := data, seqs, 0;
    }

    /** The search for the last gap. */
    method FindStart() returns (start: nat)
      requires seqBuf != [] && forall x :: x in seqBuf ==> x < WORD
      ensures IsStart(seqBuf, start)
    {
      start := 0;
      var lastSeq := seqBuf[0];
      for i := 1 to |seqBuf|
        invariant start < i && lastSeq == seqBuf[i - 1]
        invariant Consecutive(seqBuf[..i], start)
        invariant forall k :: 0 <= k < start ==> !Consecutive(seqBuf, k)
      {
        var curSeq := seqBuf[i];
        assert curSeq in seqBuf && lastSeq in seqBuf;
        StepIsOne(lastSeq, curSeq);
        if (curSeq - lastSeq) % WORD == 1 {
          ExtendRun(seqBuf, start, i);
        } else {
          GapAt(seqBuf, i);
          start := i;
        }
        lastSeq := curSeq;
      }
      assert seqBuf[..|seqBuf|] == seqBuf;
    }

    /** The record at the cursor, if there is one. */
    method ReadRecord() returns (data: Option<seq<byte>>)
      requires Valid()
      modifies this
      ensures Valid()
      ensures old(left) == [] ==> data == None && left == []
      ensures old(left) != [] ==> data == Some(old(left[0])) && left == old(left[1..])
    {
      if left != [] {
        FirstRecord(left);
      }
      if ptr == |dataBuf| {
        return None;
      }
      var len := Get(dataBuf[ptr..ptr + 4]);
      assert dataBuf[ptr..ptr + 4] == dataBuf[ptr..][..4];
      data := Some(dataBuf[ptr + 4..ptr + 4 + len]);
      assert dataBuf[ptr + 4..ptr + 4 + len] == dataBuf[ptr..][4..4 + len];
      assert dataBuf[ptr + 4 + len..] == dataBuf[ptr..][4 + len..];
      ptr := ptr + 4 + len;
      left := left[1..];
    }

    /** Moves over one record. */
    method Skip()
      requires Valid() && left != []
      modifies this
      ensures Valid() && left == old(left[1..])
    {
      FirstRecord(left);
      var len := Get(dataBuf[ptr..ptr + 4]);
      assert dataBuf[ptr..ptr + 4] == dataBuf[ptr..][..4];
      assert dataBuf[ptr + 4 + len..] == dataBuf[ptr..][4 + len..];
      ptr := ptr + 4 + len;
      left := left[1..];
    }

    /** Places the cursor; rs are the records of the log, one for each number.  An empty log has
        nothing to search. */
    method Init(ghost rs: seq<seq<byte>>)
      requires dataBuf == LogBytes(rs) && |seqBuf| == |rs| && ptr == 0
      requires (forall r :: r in rs ==> Record(r)) && forall x :: x in seqBuf ==> x < WORD
      modifies this
      ensures Valid()
      ensures rs == [] ==> left == []
      ensures rs != [] ==> exists start: nat :: IsStart(seqBuf, start)
      ensures forall start: nat :: IsStart(seqBuf, start) ==> left == rs[start..]
    {
      left := rs;
      if |dataBuf| == 0 {
        return;
      }
      var start := FindStart();
      forall other: nat | IsStart(seqBuf, other) ensures other == start {
        StartIsUnique(seqBuf, other, start);
      }
      for i := 0 to start
        invariant Valid() && left == rs[i..]
      {
        Skip();
      }
    }

    /** Reading until there is no more returns the records left, in order. */
    method ReadAll() returns (out: seq<seq<byte>>)
      requires Valid()
      modifies this
      ensures Valid() && left == [] && out == old(left)
    {
      out := [];
      ghost var all := left;
      var r := ReadRecord();
      while r.Some?
        invariant Valid() && all == out + (if r.Some? then [r.value] else []) + left
        invariant r.None? ==> left == []
        decreases |left| + if r.Some? then 1 else 0
      {
        out := out + [r.value];
        r := ReadRecord();
      }
    }
  }
}
