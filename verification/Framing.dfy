/** ZMTP 3.0 framing: the wire form of a message, and the incremental decoder of
    src/net/decoder.hpp and src/net/v2_decoder.cpp, which accepts the bytes in arbitrary pieces. */
module Framing {
  import opened Wire

  datatype Msg = Msg(more: bool, command: bool, body: seq<byte>)

  /** v2_protocol_t */
  const MORE_FLAG: nat := 1
  const LARGE_FLAG: nat := 2
  const COMMAND_FLAG: nat := 4

  predicate Bit(b: nat, flag: nat)
    requires flag > 0
  {
    b / flag % 2 == 1
  }

  function Flags(m: Msg): byte {
    (if m.more then MORE_FLAG else 0) + (if |m.body| > 255 then LARGE_FLAG else 0)
    + (if m.command then COMMAND_FLAG else 0)
  }

  /** v2_encoder_t::message_ready */
  function Header(m: Msg): seq<byte> {
    [Flags(m)] + if |m.body| > 255 then Put(|m.body|, 8) else [|m.body|]
  }

  function Frame(m: Msg): seq<byte> {
    Header(m) + m.body
  }

  function Stream(ms: seq<Msg>): seq<byte> {
    if ms == [] then [] else Frame(ms[0]) + Stream(ms[1..])
  }

  /** A size the 64-bit length field can carry. */
  predicate Sized(m: Msg) {
    |m.body| < Pow256(8)
  }

  // ---------------------------------------------------------------- decoder

  datatype Stage = FlagsReady | OneByteSizeReady | EightByteSizeReady | MessageReady

  /** The bytes read for the current stage, and how many more it needs. */
  datatype Decoder = Decoder(stage: Stage, got: seq<byte>, toRead: nat, more: bool, command: bool)

  const START := Decoder(FlagsReady, [], 1, false, false)

  /** The outcome of one state machine action, or of feeding bytes. */
  datatype Outcome = Outcome(d: Decoder, msgs: seq<Msg>, failed: bool)

  predicate Ready(d: Decoder) {
    && (d.stage.FlagsReady? || d.stage.OneByteSizeReady? ==> |d.got| + d.toRead == 1)
    && (d.stage.EightByteSizeReady? ==> |d.got| + d.toRead == 8)
  }

  /** maxmsgsize < 0 means no limit. */
  predicate Accepts(max: int, size: nat) {
    max < 0 || size <= max
  }

  /** The action `next` of a stage whose bytes are complete. */
  function Act(max: int, d: Decoder): Outcome
    requires Ready(d) && d.toRead == 0
  {
    match d.stage
    case FlagsReady =>
      var b := d.got[0];
      var large := Bit(b, LARGE_FLAG);
      Outcome(Decoder(if large then EightByteSizeReady else OneByteSizeReady, [], if large then 8 else 1,
                      Bit(b, MORE_FLAG), Bit(b, COMMAND_FLAG)), [], false)
    case OneByteSizeReady =>
      if Accepts(max, d.got[0]) then Outcome(d.(stage := MessageReady, got := [], toRead := d.got[0]), [], false)
      else Outcome(d, [], true)
    case EightByteSizeReady =>
      var size := Get(d.got);
      if Accepts(max, size) then Outcome(d.(stage := MessageReady, got := [], toRead := size), [], false)
      else Outcome(d, [], true)
    case MessageReady =>
      Outcome(START, [Msg(d.more, d.command, d.got)], false)
  }

  /** Actions until one needs data, completes a message or fails. */
  function Settle(max: int, d: Decoder): (o: Outcome)
    requires Ready(d)
    ensures Ready(o.d) && |o.msgs| <= 1 && (!o.failed ==> o.d.toRead > 0)
    decreases d.toRead == 0, d.stage.FlagsReady?, !d.stage.MessageReady?
  {
    if d.toRead > 0 then Outcome(d, [], false)
    else
      var o := Act(max, d);
      if o.failed || o.msgs != [] then o else Settle(max, o.d)
  }

  /** Reference decoder: one byte at a time. */
  function FeedByte(max: int, d: Decoder, b: byte): (o: Outcome)
    requires Ready(d) && d.toRead > 0
    ensures Ready(o.d) && (!o.failed ==> o.d.toRead > 0)
  {
    Settle(max, d.(got := d.got + [b], toRead := d.toRead - 1))
  }

  /** Reference decoder over any number of bytes; it stops for good at the first failure. */
  function Feed(max: int, d: Decoder, bytes: seq<byte>): (o: Outcome)
    requires Ready(d) && d.toRead > 0
    ensures Ready(o.d) && (!o.failed ==> o.d.toRead > 0)
    decreases |bytes|
  {
    if bytes == [] then Outcome(d, [], false)
    else
      var o := FeedByte(max, d, bytes[0]);
      if o.failed then o
      else
        var p := Feed(max, o.d, bytes[1..]);
        Outcome(p.d, o.msgs + p.msgs, p.failed)
  }

  /** How the bytes are cut does not matter. */
  lemma {:induction false} FeedAppend(max: int, d: Decoder, a: seq<byte>, b: seq<byte>)
    requires Ready(d) && d.toRead > 0
    ensures var o := Feed(max, d, a);
      Feed(max, d, a + b) == if o.failed then o
                             else var p := Feed(max, o.d, b); Outcome(p.d, o.msgs + p.msgs, p.failed)
    decreases |a|
  {
    if a == [] {
      assert a + b == b;
    } else {
      var o := FeedByte(max, d, a[0]);
      assert (a + b)[0] == a[0] && (a + b)[1..] == a[1..] + b;
      if !o.failed {
        FeedAppend(max, o.d, a[1..], b);
      }
    }
  }

  lemma StoreByte(max: int, d: Decoder, b: byte)
    requires Ready(d) && d.toRead > 1
    ensures FeedByte(max, d, b) == Outcome(d.(got := d.got + [b], toRead := d.toRead - 1), [], false)
  {
  }

  /** Bytes that do not complete the stage are only stored. */
  lemma {:induction false} FeedPartial(max: int, d: Decoder, bytes: seq<byte>)
    requires Ready(d) && |bytes| < d.toRead
    ensures Feed(max, d, bytes) == Outcome(d.(got := d.got + bytes, toRead := d.toRead - |bytes|), [], false)
    decreases |bytes|
  {
    if bytes == [] {
      assert d.got + bytes == d.got;
    } else {
      var d1 := d.(got := d.got + [bytes[0]], toRead := d.toRead - 1);
      StoreByte(max, d, bytes[0]);
      FeedPartial(max, d1, bytes[1..]);
      var p := Feed(max, d1, bytes[1..]);
      assert Feed(max, d, bytes) == Outcome(p.d, [] + p.msgs, p.failed);
      assert d1.got + bytes[1..] == d.got + bytes;
    }
  }

  /** Bytes that complete the stage are stored and the machine runs on. */
  lemma FeedExactly(max: int, d: Decoder, bytes: seq<byte>)
    requires Ready(d) && |bytes| == d.toRead > 0
    ensures Feed(max, d, bytes) == Settle(max, d.(got := d.got + bytes, toRead := 0))
  {
    var n := |bytes| - 1;
    FeedPartial(max, d, bytes[..n]);
    var d1 := d.(got := d.got + bytes[..n], toRead := 1);
    assert bytes == bytes[..n] + [bytes[n]];
    FeedAppend(max, d, bytes[..n], [bytes[n]]);
    assert d1.got + [bytes[n]] == d.got + bytes;
    assert Feed(max, d1, [bytes[n]]) == FeedOne(max, d1, bytes[n]);
  }

  function FeedOne(max: int, d: Decoder, b: byte): (o: Outcome)
    requires Ready(d) && d.toRead > 0
    ensures o == Feed(max, d, [b])
  {
    var o := FeedByte(max, d, b);
    assert [b][1..] == [];
    assert o.msgs + [] == o.msgs;
    o
  }

  // ---------------------------------------------------------------- round trip

  lemma FlagsRoundTrip(m: Msg)
    ensures Bit(Flags(m), MORE_FLAG) == m.more
    ensures Bit(Flags(m), LARGE_FLAG) == (|m.body| > 255)
    ensures Bit(Flags(m), COMMAND_FLAG) == m.command
  {
  }

  /** The bytes of a frame: the flags byte, a length of one byte or of eight, and the body. */
  lemma FrameBytes(m: Msg)
    requires Sized(m)
    ensures var s := Frame(m);
      && |s| > 1
      && s[0] == (if m.more then 1 else 0) + (if |m.body| > 255 then 2 else 0) + (if m.command then 4 else 0)
      && (|m.body| <= 255 ==> s[1] == |m.body| && s[2..] == m.body)
      && (|m.body| > 255 ==> |s| > 9 && Get(s[1..9]) == |m.body| && s[9..] == m.body)
  {
    if |m.body| > 255 {
      GetPut(|m.body|, 8);
      assert Frame(m)[1..9] == Put(|m.body|, 8);
    }
  }

  /** What the decoder makes of any flags byte: bit 1 says how long the length is, bits 0 and 2 are the
      message's flags, and the others do not matter. */
  lemma FlagsDecoded(max: int, b: byte)
    ensures var large := b / 2 % 2 == 1;
      Feed(max, START, [b])
      == Outcome(Decoder(if large then EightByteSizeReady else OneByteSizeReady, [], if large then 8 else 1,
                         b % 2 == 1, b / 4 % 2 == 1), [], false)
  {
    FeedExactly(max, START, [b]);
    assert START.(got := START.got + [b], toRead := 0) == Decoder(FlagsReady, [b], 0, false, false);
  }

  /** The decoder after the flags byte of m. */
  function AfterFlags(m: Msg): Decoder {
    if |m.body| > 255 then Decoder(EightByteSizeReady, [], 8, m.more, m.command)
    else Decoder(OneByteSizeReady, [], 1, m.more, m.command)
  }

  lemma FeedFlags(max: int, m: Msg)
    ensures Feed(max, START, [Flags(m)]) == Outcome(AfterFlags(m), [], false)
  {
    FlagsRoundTrip(m);
    FeedExactly(max, START, [Flags(m)]);
    var d := Decoder(FlagsReady, [Flags(m)], 0, false, false);
    assert START.(got := START.got + [Flags(m)], toRead := 0) == d;
    assert Act(max, d) == Outcome(AfterFlags(m), [], false);
  }

  /** The decoder after the whole header of m, empty bodies included. */
  function AfterHeader(max: int, m: Msg): Outcome {
    if !Accepts(max, |m.body|) then
      Outcome(AfterFlags(m).(got := if |m.body| > 255 then Put(|m.body|, 8) else [|m.body|], toRead := 0), [], true)
    else if m.body == [] then Outcome(START, [m], false)
    else Outcome(Decoder(MessageReady, [], |m.body|, m.more, m.command), [], false)
  }

  lemma FeedSize(max: int, m: Msg)
    requires Sized(m)
    ensures Feed(max, AfterFlags(m), Header(m)[1..]) == AfterHeader(max, m)
  {
    var size := Header(m)[1..];
    var d := AfterFlags(m).(got := size, toRead := 0);
    assert size == if |m.body| > 255 then Put(|m.body|, 8) else [|m.body|];
    assert AfterFlags(m).got + size == size;
    FeedExactly(max, AfterFlags(m), size);
    if |m.body| > 255 {
      GetPut(|m.body|, 8);
    }
    if Accepts(max, |m.body|) {
      assert Act(max, d) == Outcome(Decoder(MessageReady, [], |m.body|, m.more, m.command), [], false);
    }
  }

  lemma FeedHeader(max: int, m: Msg)
    requires Sized(m)
    ensures Feed(max, START, Header(m)) == AfterHeader(max, m)
  {
    FeedFlags(max, m);
    FeedSize(max, m);
    assert Header(m) == [Flags(m)] + Header(m)[1..];
    FeedAppend(max, START, [Flags(m)], Header(m)[1..]);
    var p := AfterHeader(max, m);
    assert [] + p.msgs == p.msgs;
  }

  /** A whole frame gives back its message, or fails exactly when the message is too large. */
  lemma FeedFrame(max: int, m: Msg)
    requires Sized(m)
    ensures max < 0 || |m.body| <= max ==> Feed(max, START, Frame(m)) == Outcome(START, [m], false)
    ensures 0 <= max < |m.body| ==> Feed(max, START, Frame(m)).failed && Feed(max, START, Frame(m)).msgs == []
  {
    FeedHeader(max, m);
    FeedAppend(max, START, Header(m), m.body);
    if Accepts(max, |m.body|) && m.body != [] {
      var d := Decoder(MessageReady, [], |m.body|, m.more, m.command);
      FeedExactly(max, d, m.body);
      assert d.got + m.body == m.body;
      assert [] + [m] == [m];
    } else if m.body == [] {
      assert [m] + [] == [m];
    }
  }

  /** The number of leading messages that are not too large. */
  function Accepted(max: int, ms: seq<Msg>): nat {
    if ms == [] || !Accepts(max, |ms[0].body|) then 0 else 1 + Accepted(max, ms[1..])
  }

  /** Decoding a stream of frames gives back exactly the messages before the first one that is too
      large, with their flags, and fails if and only if there is one. */
  lemma {:induction false} StreamRoundTrip(max: int, ms: seq<Msg>)
    requires forall i :: 0 <= i < |ms| ==> Sized(ms[i])
    ensures Accepted(max, ms) <= |ms|
    ensures Feed(max, START, Stream(ms)).msgs == ms[..Accepted(max, ms)]
    ensures Feed(max, START, Stream(ms)).failed <==> Accepted(max, ms) < |ms|
    ensures Accepted(max, ms) == |ms| ==> Feed(max, START, Stream(ms)).d == START
    decreases |ms|
  {
    if ms != [] {
      FrameFirst(max, ms[0], Stream(ms[1..]));
      if Accepts(max, |ms[0].body|) {
        StreamRoundTrip(max, ms[1..]);
        var n := Accepted(max, ms[1..]);
        assert [ms[0]] + ms[1..][..n] == ms[..n + 1];
      }
    }
  }

  /** A frame in front of other bytes. */
  lemma FrameFirst(max: int, m: Msg, rest: seq<byte>)
    requires Sized(m)
    ensures !Accepts(max, |m.body|) ==> Feed(max, START, Frame(m) + rest).failed
    ensures !Accepts(max, |m.body|) ==> Feed(max, START, Frame(m) + rest).msgs == []
    ensures Accepts(max, |m.body|) ==>
      var p := Feed(max, START, rest); Feed(max, START, Frame(m) + rest) == Outcome(p.d, [m] + p.msgs, p.failed)
  {
    FeedFrame(max, m);
    FeedAppend(max, START, Frame(m), rest);
  }

  /** Whatever part of the stream has arrived, nothing but messages sent has been decoded, in order. */
  lemma PrefixRoundTrip(max: int, ms: seq<Msg>, arrived: seq<byte>)
    requires forall i :: 0 <= i < |ms| ==> Sized(ms[i])
    requires arrived <= Stream(ms)
    ensures Feed(max, START, arrived).msgs <= ms
    ensures Accepted(max, ms) == |ms| ==> !Feed(max, START, arrived).failed
  {
    var all := Stream(ms);
    assert all == arrived + all[|arrived|..];
    SplitRun(max, arrived, all[|arrived|..]);
    StreamRoundTrip(max, ms);
  }

  lemma SplitRun(max: int, a: seq<byte>, b: seq<byte>)
    ensures Feed(max, START, a).msgs <= Feed(max, START, a + b).msgs
    ensures !Feed(max, START, a + b).failed ==> !Feed(max, START, a).failed
  {
    FeedAppend(max, START, a, b);
  }

  // ---------------------------------------------------------------- the decoder object

  /** decoder_base_t with the actions of v2_decoder_t. */
  class V2Decoder {
    const maxmsgsize: int
    const bufsize: nat
    var stage: Stage
    var got: seq<byte>   // what read_pos has been filled with in this stage
    var toRead: nat
    var more: bool
    var command: bool

    ghost function State(): Decoder
      reads this
    {
      Decoder(stage, got, toRead, more, command)
    }

    ghost predicate Valid()
      reads this
    {
      Ready(State()) && toRead > 0
    }

    constructor (max: int, size: nat)
      ensures Valid() && State() == START && maxmsgsize == max && bufsize == size
    {
      maxmsgsize, bufsize := max, size;
      stage, got, toRead, more, command := FlagsReady, [], 1, false, false;
    }

    /** Large bodies are read straight into the message, never more than what it still needs. */
    method GetBuffer() returns (direct: bool, size: nat)
      requires Valid()
      ensures direct <==> toRead >= bufsize
      ensures size == if direct then toRead else bufsize
    {
      direct := toRead >= bufsize;
      size := if direct then toRead else bufsize;
    }

    /** `while (!to_read) rc = next ()` */
    method RunActions() returns (rc: int, msg: Msg)
      requires Ready(State())
      modifies this
      ensures rc == 0 || rc == 1 || rc == -1
      ensures Outcome(State(), if rc == 1 then [msg] else [], rc == -1) == Settle(maxmsgsize, old(State()))
    {
      msg := Msg(false, false, []);
      while toRead == 0
        invariant Ready(State()) && Settle(maxmsgsize, State()) == Settle(maxmsgsize, old(State()))
        decreases toRead == 0, stage.FlagsReady?, !stage.MessageReady?
      {
        match stage {
          case FlagsReady =>
            var b := got[0];
            var large := Bit(b, LARGE_FLAG);
            more, command := Bit(b, MORE_FLAG), Bit(b, COMMAND_FLAG);
            stage := if large then EightByteSizeReady else OneByteSizeReady;
            got, toRead := [], if large then 8 else 1;
          case MessageReady =>
            msg := Msg(more, command, got);
            stage, got, toRead, more, command := FlagsReady, [], 1, false, false;
            return 1, msg;
          case OneByteSizeReady =>
            if maxmsgsize >= 0 && got[0] > maxmsgsize {
              return -1, msg;
            }
            stage, got, toRead := MessageReady, [], got[0];
          case EightByteSizeReady =>
            var size := Get(got);
            if maxmsgsize >= 0 && size > maxmsgsize {
              return -1, msg;
            }
            stage, got, toRead := MessageReady, [], size;
        }
      }
      return 0, msg;
    }

    /** decode: consumes bytes up to the end of the current message at most.  What it did is what the
        reference decoder does on the consumed bytes, on the direct and on the copying path. */
    method Decode(data: seq<byte>, direct: bool) returns (rc: int, used: nat, msg: Msg)
      requires Valid() && (direct ==> 0 < |data| <= toRead)
      modifies this
      ensures used <= |data| && (rc == 0 || direct ==> used == |data|) && (rc == 0 || rc == 1 || rc == -1)
      ensures Feed(maxmsgsize, old(State()), data[..used]) == Outcome(State(), if rc == 1 then [msg] else [], rc == -1)
      ensures rc != -1 ==> Valid()
      ensures rc == 1 ==> used > 0
    {
      if direct {
        used := |data|;
        assert data[..used] == data;
        rc, msg := Advance(data);
        return;
      }
      rc, used, msg := Copy(data);
    }

    /** Stores a piece that the current stage still needs and runs the actions. */
    method Advance(piece: seq<byte>) returns (rc: int, msg: Msg)
      requires Valid() && 0 < |piece| <= toRead
      modifies this
      ensures rc == 0 || rc == 1 || rc == -1
      ensures Feed(maxmsgsize, old(State()), piece) == Outcome(State(), if rc == 1 then [msg] else [], rc == -1)
      ensures rc != -1 ==> Valid()
    {
      StepTaken(maxmsgsize, State(), piece);
      Take(piece);
      rc, msg := RunActions();
    }

    /** The copying path. */
    method Copy(data: seq<byte>) returns (rc: int, used: nat, msg: Msg)
      requires Valid()
      modifies this
      ensures used <= |data| && (rc == 0 ==> used == |data|) && (rc == 0 || rc == 1 || rc == -1)
      ensures Feed(maxmsgsize, old(State()), data[..used]) == Outcome(State(), if rc == 1 then [msg] else [], rc == -1)
      ensures rc != -1 ==> Valid()
      ensures rc == 1 ==> used > 0
    {
      used, msg := 0, Msg(false, false, []);
      ghost var d := State();
      while used < |data|
        invariant used <= |data| && Valid()
        invariant Feed(maxmsgsize, d, data[..used]) == Outcome(State(), [], false)
      {
        var n := if toRead < |data| - used then toRead else |data| - used;
        LoopStep(maxmsgsize, d, State(), data, used, n);
        ghost var o := Feed(maxmsgsize, State(), data[used..used + n]);
        rc, msg := Advance(data[used..used + n]);
        assert o == Outcome(State(), if rc == 1 then [msg] else [], rc == -1);
        used := used + n;
        assert Feed(maxmsgsize, d, data[..used]) == o;
        if rc != 0 {
          return;
        }
      }
      rc := 0;
    }

    method Take(piece: seq<byte>)
      requires |piece| <= toRead
      modifies this
      ensures State() == old(State()).(got := old(got) + piece, toRead := old(toRead) - |piece|)
    {
      got := got + piece;
      toRead := toRead - |piece|;
    }
  }

  /** The bytes consumed so far and the next piece, fed in one go. */
  lemma LoopStep(max: int, d: Decoder, d1: Decoder, data: seq<byte>, used: nat, n: nat)
    requires Ready(d) && d.toRead > 0 && Ready(d1) && d1.toRead > 0 && used + n <= |data|
    requires Feed(max, d, data[..used]) == Outcome(d1, [], false)
    ensures Feed(max, d, data[..used + n]) == Feed(max, d1, data[used..used + n])
  {
    var piece := data[used..used + n];
    assert data[..used + n] == data[..used] + piece;
    FeedAppend(max, d, data[..used], piece);
    var o := Feed(max, d1, piece);
    assert [] + o.msgs == o.msgs;
  }

  /** Storing a piece and running the actions is what the reference decoder does with it. */
  lemma StepTaken(max: int, d: Decoder, piece: seq<byte>)
    requires Ready(d) && 0 < d.toRead && |piece| <= d.toRead
    ensures var d1 := d.(got := d.got + piece, toRead := d.toRead - |piece|);
      Ready(d1) && Feed(max, d, piece) == Settle(max, d1)
  {
    if |piece| < d.toRead {
      FeedPartial(max, d, piece);
    } else {
      FeedExactly(max, d, piece);
    }
  }
}
