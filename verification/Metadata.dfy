/** Handshake metadata of src/net/mechanism.cpp: properties are written one after the other, and a
    cursor loop reads them back, checks the peer's socket type and takes its identity. */
module Metadata {
  import opened Optional
  import opened Wire

  datatype Property = Property(name: seq<byte>, value: seq<byte>)

  datatype SocketType = PAIR | PUB | SUB | REQ | REP | DEALER | ROUTER | PULL | PUSH | XPUB | XSUB

  datatype Options = Options(socketType: SocketType, recvIdentity: bool)

  datatype Rc = Accepted | InvalidType | ProtocolError

  /** What a parse leaves behind: its return code and the peer's identity. */
  datatype Verdict = Verdict(rc: Rc, identity: seq<byte>)

  const IDENTITY: seq<byte> := [73, 100, 101, 110, 116, 105, 116, 121]
  const SOCKET_TYPE: seq<byte> := [83, 111, 99, 107, 101, 116, 45, 84, 121, 112, 101]

  // ---------------------------------------------------------------- wire form

  predicate Encodable(p: Property) {
    |p.name| <= 255 && |p.value| <= 0x7FFF_FFFF
  }

  function Encode(p: Property): (s: seq<byte>)
    requires |p.name| <= 255
    ensures |s| == 1 + |p.name| + 4 + |p.value|
  {
    [|p.name|] + p.name + Put(|p.value|, 4) + p.value
  }

  function EncodeAll(ps: seq<Property>): seq<byte>
    requires forall p :: p in ps ==> |p.name| <= 255
  {
    if ps == [] then [] else Encode(ps[0]) + EncodeAll(ps[1..])
  }

  /** A cursor on a property of which at least the length field of the value is there. */
  predicate HasLength(buf: seq<byte>) {
    |buf| > 0 && buf[0] + 5 <= |buf|
  }

  function ValueLength(buf: seq<byte>): nat
    requires HasLength(buf)
  {
    Get(buf[1 + buf[0]..5 + buf[0]])
  }

  /** A cursor on a whole property. */
  predicate HasProperty(buf: seq<byte>) {
    HasLength(buf) && buf[0] + 5 + ValueLength(buf) <= |buf|
  }

  function First(buf: seq<byte>): Property
    requires HasProperty(buf)
  {
    Property(buf[1..1 + buf[0]], buf[5 + buf[0]..5 + buf[0] + ValueLength(buf)])
  }

  function Rest(buf: seq<byte>): (r: seq<byte>)
    requires HasProperty(buf)
    ensures |r| < |buf|
  {
    buf[5 + buf[0] + ValueLength(buf)..]
  }

  /** What may follow the last whole property in an accepted buffer: nothing, or a property that
      ends right after its non-empty name, or right after the length of a value that is missing. */
  predicate AcceptedTail(buf: seq<byte>) {
    || buf == []
    || (|buf| > 1 && |buf| - 1 == buf[0])
    || (HasLength(buf) && |buf| - 5 == buf[0] && ValueLength(buf) > 0)
  }

  // ---------------------------------------------------------------- checks

  /** check_socket_type: whether a socket of this type talks to one with that type name. */
  predicate CheckSocketType(own: SocketType, peer: seq<byte>) {
    exists t :: TalksTo(own, t) && peer == TypeName(t)
  }

  predicate TalksTo(own: SocketType, peer: SocketType) {
    match own
    case REQ => peer == REP || peer == ROUTER
    case REP => peer == REQ || peer == DEALER
    case DEALER => peer == REP || peer == DEALER || peer == ROUTER
    case ROUTER => peer == REQ || peer == DEALER || peer == ROUTER
    case PUSH => peer == PULL
    case PULL => peer == PUSH
    case PUB => peer == SUB || peer == XSUB
    case SUB => peer == PUB || peer == XPUB
    case XPUB => peer == SUB || peer == XSUB
    case XSUB => peer == PUB || peer == XPUB
    case PAIR => peer == PAIR
  }

  /** socket_type_string, in ASCII. */
  function TypeName(t: SocketType): (s: seq<byte>)
    ensures |s| <= 6
  {
    match t
    case PAIR => [80, 65, 73, 82]
    case PUB => [80, 85, 66]
    case SUB => [83, 85, 66]
    case REQ => [82, 69, 81]
    case REP => [82, 69, 80]
    case DEALER => [68, 69, 65, 76, 69, 82]
    case ROUTER => [82, 79, 85, 84, 69, 82]
    case PULL => [80, 85, 76, 76]
    case PUSH => [80, 85, 83, 72]
    case XPUB => [88, 80, 85, 66]
    case XSUB => [88, 83, 85, 66]
  }

  predicate BadType(o: Options, p: Property) {
    p.name == SOCKET_TYPE && !CheckSocketType(o.socketType, p.value)
  }

  function Identified(o: Options, p: Property, identity: seq<byte>): seq<byte> {
    if p.name == IDENTITY && o.recvIdentity then p.value else identity
  }

  /** The effect of a list of properties that are all there. */
  function Judge(o: Options, ps: seq<Property>, identity: seq<byte>): Verdict {
    if ps == [] then Verdict(Accepted, identity)
    else if BadType(o, ps[0]) then Verdict(InvalidType, identity)
    else Judge(o, ps[1..], Identified(o, ps[0], identity))
  }

  /** The parse of a buffer. */
  function Parse(o: Options, buf: seq<byte>, identity: seq<byte>): Verdict
    decreases |buf|
  {
    if !HasProperty(buf) then Verdict(if AcceptedTail(buf) then Accepted else ProtocolError, identity)
    else if BadType(o, First(buf)) then Verdict(InvalidType, identity)
    else Parse(o, Rest(buf), Identified(o, First(buf), identity))
  }

  // ---------------------------------------------------------------- one property

  /** Decoding is the inverse of encoding, whatever follows. */
  lemma FirstOfEncode(p: Property, tail: seq<byte>)
    requires |p.name| <= 255 && |p.value| < Pow256(4)
    ensures HasProperty(Encode(p) + tail) && First(Encode(p) + tail) == p && Rest(Encode(p) + tail) == tail
  {
    var buf, n := Encode(p) + tail, |p.name|;
    assert buf[0] == n;
    assert buf[1 + n..5 + n] == Put(|p.value|, 4);
    GetPut(|p.value|, 4);
    assert buf[1..1 + n] == p.name;
    assert buf[5 + n..5 + n + |p.value|] == p.value;
    assert buf[5 + n + |p.value|..] == tail;
  }

  /** And encoding the inverse of decoding. */
  lemma EncodeOfFirst(buf: seq<byte>)
    requires HasProperty(buf)
    ensures |First(buf).name| <= 255 && |First(buf).value| < Pow256(4)
    ensures Encode(First(buf)) + Rest(buf) == buf
  {
    var n: nat, v: nat := buf[0], ValueLength(buf);
    PutGet(buf[1 + n..5 + n]);
    assert buf == [buf[0]] + buf[1..1 + n] + buf[1 + n..5 + n] + buf[5 + n..5 + n + v] + buf[5 + n + v..];
  }

  lemma TailHasNoProperty(buf: seq<byte>)
    requires AcceptedTail(buf)
    ensures !HasProperty(buf)
  {
  }

  // ---------------------------------------------------------------- whole buffers

  /** Names and values as they can stand on the wire. */
  predicate OnWire(ps: seq<Property>) {
    forall p :: p in ps ==> |p.name| <= 255 && |p.value| < Pow256(4)
  }

  /** Parsing properties followed by a rest with no whole property treats the properties first, and
      then looks at the rest. */
  lemma {:induction false} ParseSplits(o: Options, ps: seq<Property>, tail: seq<byte>, identity: seq<byte>)
    requires OnWire(ps) && !HasProperty(tail)
    ensures var v := Judge(o, ps, identity);
            Parse(o, EncodeAll(ps) + tail, identity)
            == if v.rc == Accepted && !AcceptedTail(tail) then Verdict(ProtocolError, v.identity) else v
    decreases |ps|
  {
    if ps == [] {
      assert EncodeAll(ps) + tail == tail;
    } else {
      var rest := EncodeAll(ps[1..]) + tail;
      assert EncodeAll(ps) + tail == Encode(ps[0]) + rest;
      FirstOfEncode(ps[0], rest);
      if !BadType(o, ps[0]) {
        ParseSplits(o, ps[1..], tail, Identified(o, ps[0], identity));
      }
    }
  }

  /** Every buffer is whole properties and a rest without one. */
  lemma {:induction false} BufferSplits(buf: seq<byte>) returns (ps: seq<Property>, tail: seq<byte>)
    ensures OnWire(ps) && !HasProperty(tail) && buf == EncodeAll(ps) + tail
    decreases |buf|
  {
    if HasProperty(buf) {
      EncodeOfFirst(buf);
      var more;
      more, tail := BufferSplits(Rest(buf));
      ps := [First(buf)] + more;
      assert buf == Encode(First(buf)) + (EncodeAll(more) + tail);
    } else {
      ps, tail := [], buf;
    }
  }

  /** What was written is read back: the verdict on an encoded list is that on the list. */
  lemma PropertiesRoundTrip(o: Options, ps: seq<Property>, identity: seq<byte>)
    requires OnWire(ps)
    ensures Parse(o, EncodeAll(ps), identity) == Judge(o, ps, identity)
  {
    assert EncodeAll(ps) + [] == EncodeAll(ps);
    ParseSplits(o, ps, [], identity);
  }

  /** Exactly which buffers are accepted: properties none of which fails its check, and a tail
      that is empty or one of two truncated forms. */
  lemma AcceptedIff(o: Options, buf: seq<byte>, identity: seq<byte>)
    ensures Parse(o, buf, identity).rc == Accepted
       <==> exists ps, tail :: OnWire(ps) && (forall p :: p in ps ==> !BadType(o, p))
                               && AcceptedTail(tail) && buf == EncodeAll(ps) + tail
  {
    var ps, tail := BufferSplits(buf);
    ParseSplits(o, ps, tail, identity);
    JudgeAccepts(o, ps, identity);
    forall qs, rest | OnWire(qs) && (forall p :: p in qs ==> !BadType(o, p))
                      && AcceptedTail(rest) && buf == EncodeAll(qs) + rest
      ensures Parse(o, buf, identity).rc == Accepted
    {
      TailHasNoProperty(rest);
      ParseSplits(o, qs, rest, identity);
      JudgeAccepts(o, qs, identity);
    }
  }

  lemma {:induction false} JudgeAccepts(o: Options, ps: seq<Property>, identity: seq<byte>)
    ensures Judge(o, ps, identity).rc == Accepted <==> forall p :: p in ps ==> !BadType(o, p)
    decreases |ps|
  {
    if ps != [] {
      JudgeAccepts(o, ps[1..], Identified(o, ps[0], identity));
      assert ps == [ps[0]] + ps[1..];
    }
  }

  /** So acceptance does not mean that the buffer is made of whole properties: it may end after a name. */
  lemma TruncatedIsAccepted(o: Options, c: byte, identity: seq<byte>)
    ensures Parse(o, [1, c], identity).rc == Accepted
    ensures forall ps :: OnWire(ps) ==> EncodeAll(ps) != [1, c]
  {
    assert AcceptedTail([1, c]) && !HasProperty([1, c]);
  }

  /** Or after the length of a value that is not empty; but nowhere else. */
  lemma OtherTruncations(o: Options, c: byte, identity: seq<byte>)
    ensures Parse(o, [1, c, 0, 0, 0, 1], identity).rc == Accepted
    ensures Parse(o, [1], identity).rc == ProtocolError && Parse(o, [0], identity).rc == ProtocolError
    ensures Parse(o, [1, c, 0], identity).rc == ProtocolError && Parse(o, [2, c], identity).rc == ProtocolError
    ensures Parse(o, [1, c, 0, 0, 0, 2, c], identity).rc == ProtocolError
  {
    LengthBytes([1, c, 0, 0, 0, 1], 1);
    LengthBytes([1, c, 0, 0, 0, 2, c], 2);
  }

  lemma LengthBytes(buf: seq<byte>, n: byte)
    requires |buf| >= 6 && buf[0] == 1 && buf[2..6] == [0, 0, 0, n]
    ensures HasLength(buf) && ValueLength(buf) == n
  {
    var s := buf[2..6];
    assert s[..3] == [0, 0, 0] && s[..3][..2] == [0, 0] && s[..3][..2][..1] == [0] && s[..3][..2][..1][..0] == [];
    assert Get([0]) == 0 && Get([0, 0]) == 0 && Get([0, 0, 0]) == 0;
  }

  // ---------------------------------------------------------------- two peers

  /** The properties of the READY command (src/net/null_mechanism.cpp). */
  function ReadyProperties(own: SocketType, identity: seq<byte>): seq<Property> {
    [Property(SOCKET_TYPE, TypeName(own))]
    + if own == REQ || own == DEALER || own == ROUTER then [Property(IDENTITY, identity)] else []
  }

  lemma NamesAreDistinct(a: SocketType, b: SocketType)
    requires TypeName(a) == TypeName(b)
    ensures a == b
  {
    var x, y := TypeName(a), TypeName(b);
    assert |x| == |y| && x[0] == y[0] && x[1] == y[1] && x[2] == y[2];
  }

  lemma TalkingIsSymmetric(a: SocketType, b: SocketType)
    ensures TalksTo(a, b) <==> TalksTo(b, a)
  {
  }

  /** Two sockets accept each other's READY command or both refuse it; accepting, each learns the
      other's identity if that is sent and wanted. */
  lemma PeersAgree(a: Options, b: Options, idA: seq<byte>, idB: seq<byte>)
    requires |idA| <= 255 && |idB| <= 255
    ensures var atB := Parse(b, EncodeAll(ReadyProperties(a.socketType, idA)), []);
            var atA := Parse(a, EncodeAll(ReadyProperties(b.socketType, idB)), []);
            && (atA.rc == Accepted <==> atB.rc == Accepted)
            && (atA.rc == Accepted <==> TalksTo(a.socketType, b.socketType))
            && (atB.rc == Accepted ==>
                  atB.identity == if b.recvIdentity && a.socketType in {REQ, DEALER, ROUTER} then idA else [])
  {
    ReadyIsJudged(b, a.socketType, idA);
    ReadyIsJudged(a, b.socketType, idB);
    TalkingIsSymmetric(a.socketType, b.socketType);
  }

  lemma ReadyIsJudged(o: Options, peer: SocketType, id: seq<byte>)
    requires |id| <= 255
    ensures var v := Parse(o, EncodeAll(ReadyProperties(peer, id)), []);
            && (v.rc == Accepted <==> TalksTo(o.socketType, peer))
            && (v.rc == Accepted ==>
                  v.identity == if o.recvIdentity && peer in {REQ, DEALER, ROUTER} then id else [])
  {
    var ps := ReadyProperties(peer, id);
    assert Pow256(4) > 255 by { assert Pow256(4) == 256 * (256 * (256 * (256 * 1))); }
    assert OnWire(ps);
    PropertiesRoundTrip(o, ps, []);
    NamesAreExact(o.socketType, peer);
    JudgeReady(o, peer, id);
  }

  lemma NamesAreExact(own: SocketType, peer: SocketType)
    ensures CheckSocketType(own, TypeName(peer)) <==> TalksTo(own, peer)
  {
    forall t | TalksTo(own, t) && TypeName(peer) == TypeName(t) ensures t == peer {
      NamesAreDistinct(t, peer);
    }
  }

  /** The names each socket type accepts from its peer, in ASCII: REP, ROUTER; REQ, DEALER; REP, DEALER,
      ROUTER; REQ, DEALER, ROUTER; PULL; PUSH; SUB, XSUB; PUB, XPUB; SUB, XSUB; PUB, XPUB; PAIR. */
  predicate AcceptsName(own: SocketType, name: seq<byte>) {
    match own
    case REQ => name == [82, 69, 80] || name == [82, 79, 85, 84, 69, 82]
    case REP => name == [82, 69, 81] || name == [68, 69, 65, 76, 69, 82]
    case DEALER => name == [82, 69, 80] || name == [68, 69, 65, 76, 69, 82] || name == [82, 79, 85, 84, 69, 82]
    case ROUTER => name == [82, 69, 81] || name == [68, 69, 65, 76, 69, 82] || name == [82, 79, 85, 84, 69, 82]
    case PUSH => name == [80, 85, 76, 76]
    case PULL => name == [80, 85, 83, 72]
    case PUB => name == [83, 85, 66] || name == [88, 83, 85, 66]
    case SUB => name == [80, 85, 66] || name == [88, 80, 85, 66]
    case XPUB => name == [83, 85, 66] || name == [88, 83, 85, 66]
    case XSUB => name == [80, 85, 66] || name == [88, 80, 85, 66]
    case PAIR => name == [80, 65, 73, 82]
  }

  /** The check accepts these names and no others. */
  lemma CheckIsExact(own: SocketType, name: seq<byte>)
    ensures CheckSocketType(own, name) <==> AcceptsName(own, name)
  {
    if CheckSocketType(own, name) {
      var t :| TalksTo(own, t) && name == TypeName(t);
    }
    if AcceptsName(own, name) {
      var t := Named(own, name);
      assert TalksTo(own, t) && name == TypeName(t);
    }
  }

  /** The type an accepted name belongs to. */
  lemma Named(own: SocketType, name: seq<byte>) returns (t: SocketType)
    requires AcceptsName(own, name)
    ensures TalksTo(own, t) && name == TypeName(t)
  {
    match |name| {
      case 6 => t := if name[0] == 68 then DEALER else ROUTER;
      case 4 => t := if name[0] == 88 then (if name[1] == 80 then XPUB else XSUB)
                     else if name[1] == 65 then PAIR else if name[2] == 76 then PULL else PUSH;
      case _ => t := if name[0] == 82 then (if name[2] == 80 then REP else REQ)
                     else if name[0] == 80 then PUB else SUB;
    }
  }

  /** The bytes of a READY command that the two kinds of sockets in use send: the length and letters of
      Socket-Type, the length and letters of PUSH or PULL. */
  lemma ReadyBytes(t: SocketType, id: seq<byte>)
    requires t == PUSH || t == PULL
    ensures EncodeAll(ReadyProperties(t, id))
         == [11, 83, 111, 99, 107, 101, 116, 45, 84, 121, 112, 101, 0, 0, 0, 4]
          + if t == PUSH then [80, 85, 83, 72] else [80, 85, 76, 76]
  {
    var p := Property(SOCKET_TYPE, TypeName(t));
    assert ReadyProperties(t, id) == [p] && [p][1..] == [];
    assert Encode(p) + [] == Encode(p);
    FourBytes();
  }

  lemma FourBytes()
    ensures Put(4, 4) == [0, 0, 0, 4]
  {
    assert Put(0, 1) == [] + [0];
    assert Put(0, 2) == Put(0, 1) + [0];
    assert Put(0, 3) == Put(0, 2) + [0];
    assert Put(4, 4) == Put(0, 3) + [4];
  }

  /** A PUSH and a PULL socket accept each other. */
  lemma PushMeetsPull(push: Options, pull: Options, idA: seq<byte>, idB: seq<byte>)
    requires push.socketType == PUSH && pull.socketType == PULL && |idA| <= 255 && |idB| <= 255
    ensures Parse(pull, EncodeAll(ReadyProperties(PUSH, idA)), []) == Verdict(Accepted, [])
    ensures Parse(push, EncodeAll(ReadyProperties(PULL, idB)), []) == Verdict(Accepted, [])
  {
    ReadyIsJudged(pull, PUSH, idA);
    ReadyIsJudged(push, PULL, idB);
  }

  /** Every READY command announces the type's own name under Socket-Type first, and nothing but an Identity
      after it. */
  lemma ReadyIsLiteral(t: SocketType, id: seq<byte>)
    ensures var ps := ReadyProperties(t, id);
      && |ps| == (if t == REQ || t == DEALER || t == ROUTER then 2 else 1)
      && ps[0].name == [83, 111, 99, 107, 101, 116, 45, 84, 121, 112, 101]
      && (|ps| == 2 ==> ps[1] == Property([73, 100, 101, 110, 116, 105, 116, 121], id))
      && match t
         case PAIR => ps[0].value == [80, 65, 73, 82]
         case PUB => ps[0].value == [80, 85, 66]
         case SUB => ps[0].value == [83, 85, 66]
         case REQ => ps[0].value == [82, 69, 81]
         case REP => ps[0].value == [82, 69, 80]
         case DEALER => ps[0].value == [68, 69, 65, 76, 69, 82]
         case ROUTER => ps[0].value == [82, 79, 85, 84, 69, 82]
         case PULL => ps[0].value == [80, 85, 76, 76]
         case PUSH => ps[0].value == [80, 85, 83, 72]
         case XPUB => ps[0].value == [88, 80, 85, 66]
         case XSUB => ps[0].value == [88, 83, 85, 66]
  {
  }

  lemma JudgeReady(o: Options, peer: SocketType, id: seq<byte>)
    ensures var v := Judge(o, ReadyProperties(peer, id), []);
            && (v.rc == Accepted <==> CheckSocketType(o.socketType, TypeName(peer)))
            && (v.rc == Accepted ==>
                  v.identity == if o.recvIdentity && peer in {REQ, DEALER, ROUTER} then id else [])
  {
    var p, q := Property(SOCKET_TYPE, TypeName(peer)), Property(IDENTITY, id);
    assert |IDENTITY| != |SOCKET_TYPE|;
    JudgeOne(o, q, []);
    if peer == REQ || peer == DEALER || peer == ROUTER {
      assert ReadyProperties(peer, id)[1..] == [q];
    } else {
      JudgeOne(o, p, []);
      assert ReadyProperties(peer, id) == [p];
    }
  }

  lemma JudgeOne(o: Options, p: Property, identity: seq<byte>)
    ensures Judge(o, [p], identity)
         == if BadType(o, p) then Verdict(InvalidType, identity) else Verdict(Accepted, Identified(o, p, identity))
  {
    assert [p][1..] == [];
  }

  // ---------------------------------------------------------------- the mechanism object

  /** b with s written over it at this place. */
  function Splice(b: seq<byte>, at: nat, s: seq<byte>): (r: seq<byte>)
    requires at + |s| <= |b|
    ensures |r| == |b|
  {
    b[..at] + s + b[at + |s|..]
  }

  lemma SpliceStep(b: seq<byte>, at: nat, s: seq<byte>, k: nat)
    requires at + |s| <= |b| && k < |s|
    ensures Splice(b, at, s[..k + 1]) == Splice(b, at, s[..k])[at + k := s[k]]
  {
  }

  lemma SpliceTwice(b: seq<byte>, at: nat, s: seq<byte>, t: seq<byte>)
    requires at + |s| + |t| <= |b|
    ensures Splice(Splice(b, at, s), at + |s|, t) == Splice(b, at, s + t)
  {
  }

  class Mechanism {
    const options: Options
    var identity: seq<byte>

    constructor (o: Options)
      ensures options == o && identity == []
    {
      options, identity := o, [];
    }

    static method Write(buf: array<byte>, at: nat, s: seq<byte>)
      requires at + |s| <= buf.Length
      modifies buf
      ensures buf[..] == Splice(old(buf[..]), at, s)
    {
      for k := 0 to |s|
        invariant buf[..] == Splice(old(buf[..]), at, s[..k])
      {
        SpliceStep(old(buf[..]), at, s, k);
        ghost var b := buf[..];
        buf[at + k] := s[k];
        assert buf[..] == b[at + k := s[k]];
      }
      assert s[..|s|] == s;
    }

    /** Writes one property, changes nothing else, and returns its size. */
    static method AddProperty(buf: array<byte>, ptr: nat, name: seq<byte>, value: seq<byte>) returns (n: nat)
      requires Encodable(Property(name, value)) && ptr + 5 + |name| + |value| <= buf.Length
      modifies buf
      ensures n == |Encode(Property(name, value))|
      ensures buf[..] == Splice(old(buf[..]), ptr, Encode(Property(name, value)))
    {
      ghost var b := buf[..];
      Write(buf, ptr, [|name|]);
      WriteNext(buf, ptr + 1, name, b, ptr, [|name|]);
      WriteNext(buf, ptr + 1 + |name|, Put(|value|, 4), b, ptr, [|name|] + name);
      WriteNext(buf, ptr + 5 + |name|, value, b, ptr, [|name|] + name + Put(|value|, 4));
      n := 1 + |name| + 4 + |value|;
    }

    /** Writes s behind what has been written since base over b. */
    static method WriteNext(
      buf: array<byte>, at: nat, s: seq<byte>, ghost b: seq<byte>, ghost base: nat, ghost done: seq<byte>)
      requires |b| == buf.Length && at == base + |done| && at + |s| <= buf.Length && buf[..] == Splice(b, base, done)
      modifies buf
      ensures buf[..] == Splice(b, base, done + s)
    {
      Write(buf, at, s);
      SpliceTwice(b, base, done, s);
    }

    /** One turn of the parse loop up to the whole property, or to the place where it gives up. */
    static method ReadProperty(buf: seq<byte>, start: nat) returns (p: Option<Property>, ptr: nat)
      requires start + 1 < |buf|
      ensures ptr <= |buf|
      ensures p.Some? <==> HasProperty(buf[start..])
      ensures p.Some? ==> start < ptr && p.value == First(buf[start..]) && buf[ptr..] == Rest(buf[start..])
      ensures p.None? ==> (ptr == |buf| <==> AcceptedTail(buf[start..]))
    {
      ghost var cur := buf[start..];
      var nameLength: nat := buf[start];
      ptr := start + 1;
      if |buf| - ptr < nameLength {
        return None, ptr;
      }
      var name := buf[ptr..ptr + nameLength];
      assert name == cur[1..1 + nameLength];
      ptr := ptr + nameLength;
      if |buf| - ptr < 4 {
        return None, ptr;
      }
      var valueLength := Get(buf[ptr..ptr + 4]);
      assert buf[ptr..ptr + 4] == cur[1 + nameLength..5 + nameLength];
      ptr := ptr + 4;
      if |buf| - ptr < valueLength {
        return None, ptr;
      }
      var value := buf[ptr..ptr + valueLength];
      assert value == cur[5 + nameLength..5 + nameLength + valueLength];
      ptr := ptr + valueLength;
      assert buf[ptr..] == cur[5 + nameLength + valueLength..];
      p := Some(Property(name, value));
    }

    method ParseMetadata(buf: seq<byte>) returns (rc: Rc)
      modifies this`identity
      ensures Verdict(rc, identity) == Parse(options, buf, old(identity))
    {
      var ptr := 0;
      while |buf| - ptr > 1
        invariant ptr <= |buf|
        invariant Parse(options, buf, old(identity)) == Parse(options, buf[ptr..], identity)
        decreases |buf| - ptr
      {
        var p, next := ReadProperty(buf, ptr);
        if p.None? {
          return if next < |buf| then ProtocolError else Accepted;
        }
        ptr := next;
        if p.value.name == IDENTITY && options.recvIdentity {
          identity := p.value.value;
        } else if p.value.name == SOCKET_TYPE && !CheckSocketType(options.socketType, p.value.value) {
          return InvalidType;
        }
      }
      rc := if ptr < |buf| then ProtocolError else Accepted;
    }
  }
}
