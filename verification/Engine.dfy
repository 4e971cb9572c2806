/** The batching, zero-copy encoder of src/net/encoder.hpp and the output and input loops of
    src/net/stream_engine.cpp around it and around the decoder of module Framing. */
module Engine {
  import opened Optional
  import opened Wire
  import opened Framing

  lemma {:induction false} StreamSnoc(ms: seq<Msg>, m: Msg)
    ensures Stream(ms + [m]) == Stream(ms) + Frame(m)
    decreases |ms|
  {
    if ms == [] {
      assert ms + [m] == [m] && [m][1..] == [];
      assert Stream([m]) == Frame(m) + [];
    } else {
      assert (ms + [m])[1..] == ms[1..] + [m];
      StreamSnoc(ms[1..], m);
    }
  }

  /** encoder_base_t with the actions of v2_encoder_t.  `data` identifies the record the body lives in,
      None for a message that carries its own body. */
  class V2Encoder {
    const bufsize: nat
    var inProgress: bool
    var msg: Msg
    var data: Option<nat>
    var pending: seq<byte>  // write_pos[..to_write]
    var bodyNext: bool      // the next action is size_ready; otherwise the new-message flag is set
    var acks: seq<nat>      // records acknowledged so far

    /** The bytes of the loaded message that have not been handed out. */
    ghost function Remaining(): seq<byte>
      reads this
    {
      if !inProgress then [] else pending + if bodyNext then msg.body else []
    }

    /** The piece the next encode starts with: the rest of the header or, if there is none, of the body. */
    ghost function Piece(): seq<byte>
      reads this
    {
      if pending == [] && bodyNext then msg.body else pending
    }

    /** What remains is a rest of the header and the body, or a rest of the body. */
    ghost predicate Phased()
      reads this
    {
      inProgress ==> |pending| <= if bodyNext then |Header(msg)| else |msg.body|
    }

    /** One encode into the own buffer hands out all that remains: it fits, or it is one piece. */
    ghost predicate InOneGo()
      reads this
    {
      |Remaining()| <= bufsize || !bodyNext || pending == [] || msg.body == []
    }

    constructor (size: nat)
      ensures bufsize == size && !inProgress && acks == [] && Phased()
    {
      bufsize := size;
      inProgress, msg, data, pending, bodyNext, acks := false, Msg(false, false, []), None, [], false, [];
    }

    method LoadMsg(m: Msg, record: Option<nat>)
      requires !inProgress
      modifies this
      ensures inProgress && msg == m && data == record && acks == old(acks)
      ensures Remaining() == Frame(m) && Phased()
    {
      inProgress, msg, data := true, m, record;
      pending, bodyNext := Header(m), true;
    }

    /** encode, into its own buffer or into the caller's.  The result and what remains are together what
        remained before.  A message is left in progress only when the buffer is full, and its record
        is acknowledged exactly when the message is left behind.  A zero-copy result points into the
        message, which then is still in progress. */
    method Encode(own: bool, size: nat) returns (out: seq<byte>, zeroCopy: bool)
      requires Phased()
      modifies this
      ensures Phased()
      ensures out + Remaining() == old(Remaining())
      ensures inProgress ==>
                old(inProgress) && msg == old(msg) && data == old(data) && |out| >= (if own then bufsize else size)
      ensures !inProgress ==> Remaining() == []
      ensures acks == old(acks) + if old(inProgress) && !inProgress && old(data).Some? then [old(data).value] else []
      ensures !zeroCopy ==> |out| <= if own then bufsize else size
      ensures zeroCopy ==> own && inProgress && |out| >= bufsize && out == old(Piece())
      ensures zeroCopy <==> own && old(inProgress) && 0 < bufsize <= |old(Piece())|
      ensures old(Remaining()) != [] && (if own then bufsize else size) > 0 ==> out != []
      ensures own && bufsize > 0 ==> (Remaining() == [] <==> old(InOneGo()))
    {
      out, zeroCopy := [], false;
      if !inProgress {
        return;
      }
      var ended;
      out, zeroCopy, ended := Fill(own, if own then bufsize else size);
      if ended {
        Close();
      }
    }

    /** The loop of encode, up to the point where the message is used up or the buffer is full. */
    method Fill(own: bool, buffersize: nat) returns (out: seq<byte>, zeroCopy: bool, ended: bool)
      requires inProgress && Phased()
      modifies this`pending, this`bodyNext
      ensures Phased() && out + Remaining() == old(Remaining())
      ensures ended ==> Remaining() == [] && !zeroCopy
      ensures !ended ==> |out| >= buffersize
      ensures if zeroCopy then own && out == old(Piece()) else |out| <= buffersize
      ensures zeroCopy <==> own && 0 < buffersize <= |old(Piece())|
      ensures old(Remaining()) != [] && buffersize > 0 ==> out != []
      ensures own && buffersize == bufsize > 0 ==> (Remaining() == [] <==> old(InOneGo()))
    {
      out, zeroCopy, ended := [], false, false;
      while |out| < buffersize
        invariant out == [] ==> (InOneGo() <==> old(InOneGo())) && Piece() == old(Piece())
        invariant out != [] && own ==> |old(Piece())| < buffersize
        invariant own && buffersize == bufsize && old(InOneGo()) && out != [] ==> |old(Remaining())| <= bufsize
        invariant Phased() && |out| <= buffersize && out + Remaining() == old(Remaining())
        decreases |Remaining()|, bodyNext
      {
        if pending == [] {
          if !bodyNext {
            ended := true;
            return;
          }
          Body();
        }
        if out == [] && own && |pending| >= buffersize {
          assert pending == Piece() && pending[..|pending|] == pending;
          out := Copy(out, |pending|);
          zeroCopy := true;
          return;
        }
        out := Copy(out, if |pending| < buffersize - |out| then |pending| else buffersize - |out|);
      }
    }

    /** size_ready: the body follows the header. */
    method Body()
      requires inProgress && pending == [] && bodyNext
      modifies this`pending, this`bodyNext
      ensures Remaining() == old(Remaining()) && !bodyNext && pending == msg.body
    {
      pending, bodyNext := msg.body, false;
      assert [] + msg.body == msg.body == msg.body + [];
    }

    /** The new-message branch: the message is dropped and its record acknowledged. */
    method Close()
      requires inProgress
      modifies this
      ensures !inProgress && acks == old(acks) + if old(data).Some? then [old(data).value] else []
    {
      inProgress := false;
      if data.Some? {
        acks := acks + [data.value];
        data := None;
      }
    }

    /** Hands out n bytes at write_pos after those already in the batch. */
    method Copy(out: seq<byte>, n: nat) returns (out': seq<byte>)
      requires inProgress && n <= |pending|
      modifies this`pending
      ensures out' + Remaining() == out + old(Remaining()) && |out'| == |out| + n
      ensures pending == old(pending)[n..] && out' == out + old(pending)[..n]
    {
      out' := out + pending[..n];
      assert pending == pending[..n] + pending[n..];
      pending := pending[n..];
    }
  }

  /** A record waiting in the output callback: its wire message and, unless the message carries its
      own body, the slot to acknowledge. */
  datatype Record = Record(msg: Msg, slot: Option<nat>)

  function Messages(rs: seq<Record>): (ms: seq<Msg>)
    ensures |ms| == |rs| && forall i :: 0 <= i < |rs| ==> ms[i] == rs[i].msg
  {
    seq(|rs|, i requires 0 <= i < |rs| => rs[i].msg)
  }

  function Slots(rs: seq<Record>): seq<nat> {
    if rs == [] then []
    else Slots(rs[..|rs| - 1]) + if rs[|rs| - 1].slot.Some? then [rs[|rs| - 1].slot.value] else []
  }

  lemma Pulled(rs: seq<Record>, r: Record)
    ensures Messages(rs + [r]) == Messages(rs) + [r.msg]
    ensures Slots(rs + [r]) == Slots(rs) + if r.slot.Some? then [r.slot.value] else []
  {
    assert (rs + [r])[..|rs|] == rs;
  }

  lemma Shift(a: seq<byte>, b: seq<byte>, c: seq<byte>)
    ensures (a + b) + c == a + (b + c)
  {
  }

  /** What has been sent when k bytes of the batch and then a chunk behind the batch were taken. */
  lemma LostOrSent(sent: seq<byte>, out: seq<byte>, k: nat, chunk: seq<byte>, rest: seq<byte>)
    requires k <= |out|
    ensures var now, wire := sent + out[..k] + chunk, (sent + out) + (chunk + rest);
      && sent <= now && (k == |out| ==> now <= wire)
      && (now == wire <==> k == |out| && rest == [])
  {
    var now, wire := sent + out[..k] + chunk, (sent + out) + (chunk + rest);
    assert |now| + (|out| - k) + |rest| == |wire|;
    if k == |out| {
      assert now == wire[..|now|];
    }
  }

  /** The wire form of the records pulled, and the slots among them. */
  ghost predicate Accounts(pulled: seq<Record>, wire: seq<byte>, slots: seq<nat>) {
    wire == Stream(Messages(pulled)) && slots == Slots(pulled)
  }

  lemma PullAccounts(pulled: seq<Record>, wire: seq<byte>, slots: seq<nat>, r: Record)
    requires Accounts(pulled, wire, slots)
    ensures Accounts(pulled + [r], wire + Frame(r.msg), slots + if r.slot.Some? then [r.slot.value] else [])
  {
    Pulled(pulled, r);
    StreamSnoc(Messages(pulled), r.msg);
  }

  /** The sending half of stream_engine_t before output is stopped. */
  class OutputEngine {
    const encoder: V2Encoder
    const batch: nat           // out_batch_size, also the encoder's own buffer size
    var queue: seq<Record>     // what PullRecord will return
    var out: seq<byte>         // outpos[..outsize]
    var borrowed: bool         // outpos points into the message in progress
    ghost const total: seq<Record> // all records there will be
    ghost var pulled: seq<Record>
    ghost var wire: seq<byte>  // the frames of all records pulled
    ghost var slots: seq<nat>  // the slots of all records pulled
    ghost var sent: seq<byte>  // what the socket has taken

    /** Everything pulled is sent, in the batch, or still in the encoder, in this order; every slot pulled
        but the one in progress has been acknowledged, once and in order. */
    ghost predicate Flowing()
      reads this, encoder
    {
      && batch == encoder.bufsize > 0 && encoder.Phased()
      && pulled + queue == total
      && (encoder.inProgress ==> pulled != [] && encoder.msg == pulled[|pulled| - 1].msg)
      && Accounts(pulled, wire, slots)
      && (sent + out) + encoder.Remaining() == wire
      && slots == encoder.acks + if encoder.inProgress && encoder.data.Some? then [encoder.data.value] else []
    }

    /** While the batch points into the message in progress, that message is not acknowledged. */
    ghost predicate Valid()
      reads this, encoder
    {
      Flowing() && (borrowed && out != [] ==> encoder.inProgress)
    }

    /** The batch lies within the message in progress. */
    ghost predicate InOneFrame()
      reads this, encoder
    {
      encoder.inProgress && |out| + |encoder.Remaining()| <= |Frame(encoder.msg)|
    }

    constructor (size: nat, records: seq<Record>)
      requires size > 0
      ensures Valid() && fresh(encoder) && batch == size && queue == total == records && pulled == [] && sent == []
    {
      total := records;
      encoder := new V2Encoder(size);
      batch, queue, out, borrowed, pulled, sent := size, records, [], false, [], [];
      wire, slots := [], [];
    }

    /** Encode at the end of the batch. */
    method Append(own: bool, size: nat) returns (zeroCopy: bool)
      requires Flowing() && (encoder.inProgress ==> (if own then batch else size) > 0)
      modifies this`out, encoder
      ensures Flowing()
      ensures encoder.inProgress ==> |out| >= |old(out)| + if own then batch else size
      ensures old(encoder.Remaining()) != [] && (if own then batch else size) > 0 ==> |out| > |old(out)|
      ensures zeroCopy ==> own && encoder.inProgress && encoder.msg == old(encoder.msg)
      ensures !zeroCopy ==> |out| <= |old(out)| + if own then batch else size
      ensures |out| + |encoder.Remaining()| == |old(out)| + |old(encoder.Remaining())|
    {
      var chunk;
      ghost var before := sent + out;
      chunk, zeroCopy := encoder.Encode(own, size);
      Shift(before, chunk, encoder.Remaining());
      Shift(sent, out, chunk);
      out := out + chunk;
    }

    /** One pass of the loop that fills the batch: pull, load, encode.  The source's two assertions hold:
        no message is in progress, and at least one byte is produced. */
    method PullAndEncode(own: bool) returns (zeroCopy: bool)
      requires Flowing() && !encoder.inProgress && queue != [] && |out| < batch && (own ==> out == [])
      modifies this`queue, this`out, this`pulled, this`wire, this`slots, encoder
      ensures Flowing()
      ensures |queue| == |old(queue)| - 1
      ensures |old(out)| < |out| && (encoder.inProgress ==> |out| >= batch)
      ensures zeroCopy ==> own && encoder.inProgress && InOneFrame()
      ensures !zeroCopy ==> |out| <= batch
    {
      PullRecord();
      zeroCopy := Append(own, batch - |out|);
    }

    /** Takes the next record and loads its message. */
    method PullRecord()
      requires Flowing() && !encoder.inProgress && queue != []
      modifies this`queue, this`pulled, this`wire, this`slots, encoder
      ensures Flowing() && encoder.inProgress && queue == old(queue)[1..]
      ensures encoder.Remaining() == Frame(encoder.msg) && encoder.Remaining() != []
    {
      var r := queue[0];
      assert pulled + queue == (pulled + [r]) + queue[1..];
      queue := queue[1..];
      PullAccounts(pulled, wire, slots, r);
      ghost var done := sent + out;
      assert done == wire;
      encoder.LoadMsg(r.msg, r.slot);
      pulled, wire := pulled + [r], wire + Frame(r.msg);
      slots := slots + if r.slot.Some? then [r.slot.value] else [];
    }

    /** Fills an empty batch: what is left of the message in progress, then as many records as fit.
        Once something has been put into the batch, later records are copied behind it. */
    method FillBatch()
      requires Valid() && out == []
      modifies this`queue, this`out, this`pulled, this`wire, this`slots, this`borrowed, encoder
      ensures Valid()
      ensures out == [] ==> old(queue) == [] && old(encoder.Remaining()) == [] && !encoder.inProgress
      ensures if borrowed then InOneFrame() else |out| <= batch
      ensures |out| >= batch || (queue == [] && !encoder.inProgress)
    {
      var own := !encoder.inProgress;
      borrowed := Append(true, 0);
      PullRecords(own);
    }

    method PullOne(own: bool)
      requires Valid() && !encoder.inProgress && queue != [] && |out| < batch && (own ==> out == [])
      modifies this`queue, this`out, this`pulled, this`wire, this`slots, this`borrowed, encoder
      ensures Valid() && (encoder.inProgress ==> |out| >= batch) && out != [] && |queue| < |old(queue)|
      ensures if borrowed then InOneFrame() else |out| <= batch
    {
      borrowed := PullAndEncode(own);
    }

    /** Its loop. */
    method PullRecords(o: bool)
      requires Valid() && (o ==> out == []) && (encoder.inProgress ==> |out| >= batch)
      requires if borrowed then InOneFrame() else |out| <= batch
      modifies this`queue, this`out, this`pulled, this`wire, this`slots, this`borrowed, encoder
      ensures Valid() && (encoder.inProgress ==> |out| >= batch)
      ensures out == [] ==> old(queue) == [] && old(out) == []
      ensures if borrowed then InOneFrame() else |out| <= batch
      ensures |out| >= batch || queue == []
    {
      var own := o;
      while |out| < batch && queue != []
        invariant Valid() && (own ==> out == []) && (encoder.inProgress ==> |out| >= batch)
        invariant out == [] ==> queue == old(queue) && old(out) == []
        invariant if borrowed then InOneFrame() else |out| <= batch
        decreases |queue|
      {
        PullOne(own);
        own := false;
      }
    }

    /** out_event with a socket that takes n bytes. */
    method OutEvent(n: nat)
      requires Valid()
      modifies this, encoder
      ensures Valid() && old(sent) <= sent
      ensures n > 0 && (old(out) != [] || old(queue) != [] || old(encoder.Remaining()) != []) ==> |sent| > |old(sent)|
    {
      if out == [] {
        FillBatch();
        if out == [] {
          return;
        }
      }
      Sent(if n < |out| then n else |out|);
    }

    /** The socket takes k bytes of the batch. */
    method Sent(k: nat)
      requires Valid() && k <= |out|
      modifies this`sent, this`out
      ensures Valid() && sent == old(sent) + old(out)[..k] && out == old(out)[k..]
    {
      assert sent + out == (sent + out[..k]) + out[k..];
      sent := sent + out[..k];
      out := out[k..];
    }

    /** The end of out_event once the last record has been pulled: the socket takes n bytes of the batch,
        the batch is then refilled from the encoder and written out.  Everything pulled has been sent if
        and only if the first write took the whole batch and the encoder could hand out the rest at once. */
    method Stop(n: nat)
      requires Valid()
      modifies this, encoder
      ensures wire == old(wire) && old(sent) <= sent && out == []
      ensures n >= |old(out)| ==> sent <= wire
      ensures sent == wire <==> n >= |old(out)| && old(encoder.InOneGo())
    {
      var k := if n < |out| then n else |out|;
      sent := sent + out[..k];
      var chunk, zeroCopy := encoder.Encode(true, 0);
      LostOrSent(old(sent), old(out), k, chunk, encoder.Remaining());
      sent := sent + chunk;
      out := [];
    }
  }

  /** An engine that is about to stop and loses bytes even though the socket takes the whole batch: the
      header of the last message is cut by the end of the batch, and the rest is longer than a batch.  The
      batch is 4 bytes and the messages have 1 and 10. */
  method LossyEngine(short: Msg, long: Msg) returns (e: OutputEngine)
    requires |short.body| == 1 && |long.body| == 10
    ensures fresh(e) && e.Valid() && e.queue == [] && e.out != [] && !e.encoder.InOneGo()
  {
    e := new OutputEngine(4, [Record(short, None), Record(long, None)]);
    e.FillBatch();
    CutHeader(e, short, long);
  }

  lemma CutHeader(e: OutputEngine, short: Msg, long: Msg)
    requires |short.body| == 1 && |long.body| == 10
    requires e.Valid() && e.batch == 4 && e.total == [Record(short, None), Record(long, None)] && e.sent == []
    requires if e.borrowed then e.InOneFrame() else |e.out| <= 4
    requires |e.out| >= 4 || (e.queue == [] && !e.encoder.inProgress)
    ensures e.queue == [] && e.out != [] && !e.encoder.InOneGo()
  {
    var rest := e.encoder.Remaining();
    PulledLength(e.pulled, e.queue, short, long);
    assert |e.out| + |rest| == |e.wire|;
    assert !e.encoder.inProgress ==> rest == [];
    assert |e.pulled| == 2 && |e.out| + |rest| == 15;
  }

  /** What has been pulled so far takes 0, 3 or 15 bytes. */
  lemma PulledLength(pulled: seq<Record>, queue: seq<Record>, short: Msg, long: Msg)
    requires |short.body| == 1 && |long.body| == 10 && pulled + queue == [Record(short, None), Record(long, None)]
    ensures |Frame(short)| == 3 && |Frame(long)| == 12 && |pulled| + |queue| == 2
    ensures |Stream(Messages(pulled))| == if |pulled| == 0 then 0 else if |pulled| == 1 then 3 else 15
    ensures |pulled| == 1 ==> pulled[0].msg == short
    ensures |pulled| == 2 ==> pulled[1].msg == long
  {
    var ms, both := Messages(pulled), pulled + queue;
    assert forall i :: 0 <= i < |pulled| ==> pulled[i] == both[i];
    assert |both| == 2;
    if |pulled| == 2 {
      assert ms == [] + [short] + [long];
      StreamSnoc([], short);
      StreamSnoc([] + [short], long);
    } else if |pulled| == 1 {
      assert ms == [] + [short];
      StreamSnoc([], short);
    }
  }

  lemma FeedMore(max: int, a: seq<byte>, b: seq<byte>, o: Outcome, p: Outcome)
    requires Feed(max, START, a) == o && !o.failed && Feed(max, o.d, b) == p
    ensures Feed(max, START, a + b) == Outcome(p.d, o.msgs + p.msgs, p.failed)
  {
    FeedAppend(max, START, a, b);
  }

  /** The receiving half of stream_engine_t after the handshake. */
  class InputEngine {
    const decoder: V2Decoder
    var delivered: seq<Msg>
    var failed: bool           // the engine has been torn down by a decoding error
    ghost var arrived: seq<byte> // the bytes the decoder has consumed

    ghost predicate Valid()
      reads this, decoder
    {
      && (!failed ==> decoder.Valid())
      && Feed(decoder.maxmsgsize, START, arrived) == Outcome(decoder.State(), delivered, failed)
    }

    constructor (max: int, bufsize: nat)
      ensures Valid() && fresh(decoder) && delivered == [] && arrived == [] && !failed
      ensures decoder.maxmsgsize == max
    {
      decoder := new V2Decoder(max, bufsize);
      delivered, failed, arrived := [], false, [];
    }

    /** One call of decode, and the delivery of the message it may have completed. */
    method DecodeSome(data: seq<byte>, direct: bool) returns (used: nat, goOn: bool)
      requires Valid() && !failed && data != [] && (direct ==> |data| <= decoder.toRead)
      modifies this, decoder
      ensures Valid() && used <= |data| && arrived == old(arrived) + data[..used]
      ensures old(delivered) <= delivered
      ensures goOn ==> used > 0 && !failed
      ensures (!goOn && !failed) || direct ==> used == |data|
    {
      var rc, msg;
      ghost var o := Outcome(decoder.State(), delivered, false);
      rc, used, msg := decoder.Decode(data, direct);
      var news := if rc == 1 then [msg] else [];
      FeedMore(decoder.maxmsgsize, arrived, data[..used], o, Outcome(decoder.State(), news, rc == -1));
      delivered := delivered + news;
      failed := rc == -1;
      arrived := arrived + data[..used];
      goOn := rc == 1;
    }

    /** in_event: a read of any length into the decoder's buffer or straight into the message, as the
        decoder asks, and all of it decoded unless decoding fails.  The decoder never asks for more
        than it can take, so its assertion on the size of a direct read holds. */
    method InEvent(socket: seq<byte>, n: nat) returns (taken: nat)
      requires Valid() && !failed && socket != [] && n > 0
      modifies this, decoder
      ensures Valid() && old(delivered) <= delivered
      ensures 0 < taken <= n && taken <= |socket|
      ensures !failed ==> arrived == old(arrived) + socket[..taken]
      ensures old(arrived) <= arrived <= old(arrived) + socket[..taken]
    {
      var direct, size := decoder.GetBuffer();
      taken := if n < |socket| then n else |socket|;
      taken := if taken < size then taken else size;
      DecodeAll(socket[..taken], direct);
    }

    /** The loop over what has been read. */
    method DecodeAll(chunk: seq<byte>, direct: bool)
      requires Valid() && !failed && chunk != [] && (direct ==> |chunk| <= decoder.toRead)
      modifies this, decoder
      ensures Valid() && old(delivered) <= delivered
      ensures !failed ==> arrived == old(arrived) + chunk
      ensures old(arrived) <= arrived <= old(arrived) + chunk
    {
      var pos, goOn, first := 0, true, direct;
      while pos < |chunk| && goOn
        invariant pos <= |chunk| && Valid() && (goOn ==> !failed)
        invariant (first && pos < |chunk| ==> |chunk| - pos <= decoder.toRead)
        invariant !goOn && !failed ==> pos == |chunk|
        invariant arrived == old(arrived) + chunk[..pos] && old(delivered) <= delivered
        decreases |chunk| - pos, goOn
      {
        var used;
        used, goOn := DecodeSome(chunk[pos..], first);
        assert chunk[..pos + used] == chunk[..pos] + chunk[pos..][..used];
        first := false;
        pos := pos + used;
      }
      assert chunk[..|chunk|] == chunk;
    }
  }

  /** End to end: over a connection that keeps order, whatever the socket takes per call on one side and
      delivers per call on the other, the messages delivered are always the first ones pulled, with
      their flags; once everything pulled has been sent and has arrived, they are all of them. */
  lemma EndToEnd(s: OutputEngine, r: InputEngine)
    requires s.Valid() && r.Valid() && r.arrived <= s.sent
    requires forall i :: 0 <= i < |s.pulled| ==>
               Sized(s.pulled[i].msg) && Accepts(r.decoder.maxmsgsize, |s.pulled[i].msg.body|)
    ensures !r.failed && r.delivered <= Messages(s.pulled)
    ensures r.arrived == s.sent && s.out == [] && s.encoder.Remaining() == [] ==> r.delivered == Messages(s.pulled)
  {
    var max, ms := r.decoder.maxmsgsize, Messages(s.pulled);
    AllAccepted(max, ms);
    assert r.arrived <= Stream(ms) by {
      assert s.sent <= s.sent + s.out <= (s.sent + s.out) + s.encoder.Remaining();
    }
    PrefixRoundTrip(max, ms, r.arrived);
    if r.arrived == s.sent && s.out == [] && s.encoder.Remaining() == [] {
      assert r.arrived == Stream(ms);
      StreamRoundTrip(max, ms);
    }
  }

  lemma {:induction false} AllAccepted(max: int, ms: seq<Msg>)
    requires forall i :: 0 <= i < |ms| ==> Accepts(max, |ms[i].body|)
    ensures Accepted(max, ms) == |ms|
  {
    if ms != [] {
      AllAccepted(max, ms[1..]);
    }
  }
}
