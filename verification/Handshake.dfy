/** The ZMTP 3.0 greeting exchange of src/net/stream_engine.cpp between two NULL-mechanism engines
    that are joined by one FIFO byte stream in each direction, under any split of reads and writes.
    The greeting is produced step by step as the peer's bytes come in. */
module Handshake {
  import opened Wire

  const SIGNATURE_SIZE: nat := 10
  const V2_GREETING_SIZE: nat := 12
  const V3_GREETING_SIZE: nat := 64

  /** "NULL" padded with zeros to 20 bytes. */
  const MECHANISM: seq<byte> := [0x4e, 0x55, 0x4c, 0x4c] + Zeros(16)

  function Zeros(n: nat): (s: seq<byte>)
    ensures |s| == n && forall i :: 0 <= i < n ==> s[i] == 0
  {
    if n == 0 then [] else [0] + Zeros(n - 1)
  }

  function Signature(identity: byte): (s: seq<byte>)
    ensures |s| == SIGNATURE_SIZE && s[0] == 0xff && s[9] == 0x7f
  {
    [0xff] + Put(identity + 1, 8) + [0x7f]
  }

  /** Minor version, mechanism, as-server and filler: what follows the major version. */
  function Tail(): (s: seq<byte>)
    ensures |s| == 53
  {
    [0] + MECHANISM + Zeros(32)
  }

  /** Section "Version Negotiation" of 23/ZMTP: signature, version 3.0, mechanism, filler. */
  function Greeting(identity: byte): (s: seq<byte>)
    ensures |s| == V3_GREETING_SIZE
    ensures s[0] == 0xff && s[9] == 0x7f && s[10] == 3 && s[12..32] == MECHANISM
  {
    Signature(identity) + [3] + Tail()
  }

  /** The 64 bytes by their positions: the identity's length plus 1 between 0xff and 0x7f, version 3.0, the
      mechanism's name NULL, and zeros. */
  ghost predicate IsGreeting(s: seq<byte>, identity: byte) {
    && |s| == 64 && s[0] == 0xff && Get(s[1..9]) == identity + 1 && s[9] == 0x7f && s[10] == 3 && s[11] == 0
    && s[12..16] == [0x4e, 0x55, 0x4c, 0x4c] && forall i :: 16 <= i < 64 ==> s[i] == 0
  }

  lemma GreetingBytes(identity: byte)
    ensures IsGreeting(Greeting(identity), identity)
  {
    var s := Greeting(identity);
    assert Pow256(8) > 256 by { assert Pow256(2) == 65536 && Pow256(4) == 65536 * 65536; }
    GetPut(identity + 1, 8);
    assert s[1..9] == Put(identity + 1, 8);
    assert s[12..32] == MECHANISM;
    assert MECHANISM[..4] == s[12..16];
    forall i | 16 <= i < 64 ensures s[i] == 0 {
      assert i < 32 ==> s[i] == s[12..32][i - 12];
    }
  }

  datatype Phase =
    | Handshaking
    | Ready        // handshake returned true with the NULL mechanism
    | OldPeer      // left the loop for an unversioned, ZMTP/1.0 or ZMTP/2.0 peer
    | Mismatch     // the peer's mechanism is not ours

  datatype Side = Side(
    identity: byte,        // options.identity_size
    socketType: byte,
    produced: seq<byte>,   // greeting_send up to outpos + outsize, and whatever is sent after the handshake
    written: nat,          // how much of it the socket has taken
    recv: seq<byte>,       // greeting_recv[..greeting_bytes_read]
    size: nat,             // greeting_size
    pollout: bool,
    phase: Phase)

  function Plugged(identity: byte, socketType: byte): Side {
    Side(identity, socketType, Signature(identity), 0, [], V2_GREETING_SIZE, true, Handshaking)
  }

  /** Appending to greeting_send; output polling is switched on if nothing was waiting. */
  function Appended(s: Side, bytes: seq<byte>): Side {
    s.(produced := s.produced + bytes, pollout := s.pollout || |s.produced| == s.written)
  }

  /** The part of the loop body after a read that depends on the peer's bytes. */
  function Answered(s: Side): Side {
    if |s.recv| < SIGNATURE_SIZE then s
    else
      var s1 := if |s.produced| == SIGNATURE_SIZE then Appended(s, [3]) else s;
      if |s1.recv| > SIGNATURE_SIZE && |s1.produced| == SIGNATURE_SIZE + 1 then
        if s1.recv[10] == 0 || s1.recv[10] == 1 then Appended(s1, [s1.socketType])
        else Appended(s1, Tail()).(size := V3_GREETING_SIZE)
      else s1
  }

  predicate Unversioned(recv: seq<byte>) {
    (|recv| > 0 && recv[0] != 0xff) || (|recv| >= SIGNATURE_SIZE && recv[9] % 2 == 0)
  }

  /** What follows the loop. */
  function Finished(s: Side): Side
    requires |s.recv| >= V2_GREETING_SIZE
  {
    if s.recv[10] == 0 || s.recv[10] == 1 then s.(phase := OldPeer)
    else if |s.recv| >= 32 && s.recv[12..32] == MECHANISM then
      s.(phase := Ready, pollout := s.pollout || |s.produced| == s.written)
    else s.(phase := Mismatch)
  }

  /** One iteration of the loop in handshake, after a read that returned `bytes`. */
  function Received(s: Side, bytes: seq<byte>): Side {
    var s1 := s.(recv := s.recv + bytes);
    if Unversioned(s1.recv) then s1.(phase := OldPeer)
    else
      var s2 := Answered(s1);
      if |s2.recv| < s2.size || |s2.recv| < V2_GREETING_SIZE then s2 else Finished(s2)
  }

  /** out_event when the socket takes n bytes. */
  function Wrote(s: Side, n: nat): Side {
    var s1 := s.(written := s.written + n);
    if s.phase.Handshaking? && |s1.produced| == s1.written then s1.(pollout := false) else s1
  }

  // ---------------------------------------------------------------- two engines

  datatype Pair = Pair(a: Side, b: Side)

  datatype Event =
    | Read(left: bool, n: nat)
    | Write(left: bool, n: nat)
    | More(left: bool, bytes: seq<byte>) // traffic after the handshake

  function Self(p: Pair, left: bool): Side { if left then p.a else p.b }

  function Peer(p: Pair, left: bool): Side { if left then p.b else p.a }

  function With(p: Pair, left: bool, s: Side): Pair { if left then p.(a := s) else p.(b := s) }

  predicate CanRead(s: Side, peer: Side, n: nat) {
    s.phase.Handshaking? && 0 < n && |s.recv| + n <= s.size && |s.recv| + n <= peer.written <= |peer.produced|
  }

  predicate CanWrite(s: Side, n: nat) {
    s.pollout && 0 < n && s.written + n <= |s.produced|
  }

  predicate CanMove(s: Side, peer: Side, e: Event) {
    match e
    case Read(_, n) => CanRead(s, peer, n)
    case Write(_, n) => CanWrite(s, n)
    case More(_, _) => s.phase.Ready?
  }

  /** The moving side after the event. */
  function Moved(s: Side, peer: Side, e: Event): Side
    requires CanMove(s, peer, e)
  {
    match e
    case Read(_, n) => Received(s, peer.produced[|s.recv|..|s.recv| + n])
    case Write(_, n) => Wrote(s, n)
    case More(_, bytes) => s.(produced := s.produced + bytes)
  }

  predicate Enabled(p: Pair, e: Event) {
    CanMove(Self(p, e.left), Peer(p, e.left), e)
  }

  function Apply(p: Pair, e: Event): Pair
    requires Enabled(p, e)
  {
    With(p, e.left, Moved(Self(p, e.left), Peer(p, e.left), e))
  }

  function Init(ia: byte, ta: byte, ib: byte, tb: byte): Pair {
    Pair(Plugged(ia, ta), Plugged(ib, tb))
  }

  predicate CanRun(p: Pair, events: seq<Event>)
    decreases |events|
  {
    events == [] || (Enabled(p, events[0]) && CanRun(Apply(p, events[0]), events[1..]))
  }

  function After(p: Pair, events: seq<Event>): Pair
    requires CanRun(p, events)
    decreases |events|
  {
    if events == [] then p else After(Apply(p, events[0]), events[1..])
  }

  // ---------------------------------------------------------------- invariant

  /** How much of the greeting has been produced follows from how much of the peer's has been read. */
  function Produced(read: nat): nat {
    if read < SIGNATURE_SIZE then SIGNATURE_SIZE
    else if read == SIGNATURE_SIZE then SIGNATURE_SIZE + 1
    else V3_GREETING_SIZE
  }

  ghost predicate SideInv(s: Side, peer: Side) {
    && s.written <= |s.produced|
    && |s.recv| <= peer.written && s.recv <= Greeting(peer.identity) && s.recv <= peer.produced
    && s.size == (if |s.recv| <= SIGNATURE_SIZE then V2_GREETING_SIZE else V3_GREETING_SIZE)
    && (s.phase.Handshaking? <==> |s.recv| < V3_GREETING_SIZE)
    && (s.phase.Handshaking? || s.phase.Ready?)
    && (s.phase.Handshaking? ==> s.produced == Greeting(s.identity)[..Produced(|s.recv|)])
    && (s.phase.Ready? ==> Greeting(s.identity) <= s.produced)
    && (s.phase.Handshaking? && s.written < |s.produced| ==> s.pollout)
    && (s.phase.Ready? && s.written < V3_GREETING_SIZE ==> s.pollout)
  }

  ghost predicate Inv(p: Pair) {
    SideInv(p.a, p.b) && SideInv(p.b, p.a)
  }

  lemma InitInv(ia: byte, ta: byte, ib: byte, tb: byte)
    ensures Inv(Init(ia, ta, ib, tb))
  {
    assert Greeting(ia)[..SIGNATURE_SIZE] == Signature(ia);
    assert Greeting(ib)[..SIGNATURE_SIZE] == Signature(ib);
  }

  /** What a read returns continues the peer's greeting. */
  lemma ReadContinues(s: Side, peer: Side, n: nat)
    requires SideInv(s, peer) && SideInv(peer, s) && CanRead(s, peer, n)
    ensures var r := s.recv + peer.produced[|s.recv|..|s.recv| + n];
      r == Greeting(peer.identity)[..|s.recv| + n] && r <= peer.produced
  {
    var k := |s.recv|;
    var g := Greeting(peer.identity);
    assert s.recv == peer.produced[..k];
    assert peer.produced[..k] + peer.produced[k..k + n] == peer.produced[..k + n];
    if peer.phase.Handshaking? {
      assert peer.produced[..k + n] == g[..k + n];
    } else {
      assert peer.produced[..k + n] == g[..k + n];
    }
  }

  /** Reading part of a versioned greeting makes the own greeting grow to what Produced says. */
  lemma AnswerGrows(s: Side, peer: byte, k: nat)
    requires s.recv <= Greeting(peer) && k <= |s.recv| && s.phase.Handshaking?
    requires s.produced == Greeting(s.identity)[..Produced(k)] && s.written <= |s.produced|
    requires s.size == if k <= SIGNATURE_SIZE then V2_GREETING_SIZE else V3_GREETING_SIZE
    requires s.written < |s.produced| ==> s.pollout
    ensures var t := Answered(s);
      && t.produced == Greeting(s.identity)[..Produced(|s.recv|)]
      && t.size == (if |s.recv| <= SIGNATURE_SIZE then V2_GREETING_SIZE else V3_GREETING_SIZE)
      && (t.written < |t.produced| ==> t.pollout)
      && t == s.(produced := t.produced, size := t.size, pollout := t.pollout)
  {
    var g := Greeting(s.identity);
    assert g[..SIGNATURE_SIZE] + [3] == g[..SIGNATURE_SIZE + 1];
    assert g[..SIGNATURE_SIZE + 1] + Tail() == g == g[..V3_GREETING_SIZE];
    if |s.recv| > SIGNATURE_SIZE {
      assert s.recv[10] == 3;
    }
  }

  lemma ReadKeepsSide(s: Side, peer: Side, n: nat)
    requires SideInv(s, peer) && SideInv(peer, s) && CanRead(s, peer, n)
    ensures var s' := Received(s, peer.produced[|s.recv|..|s.recv| + n]);
      && SideInv(s', peer) && s.produced <= s'.produced && s'.written == s.written && s'.identity == s.identity
      && |s'.recv| == |s.recv| + n
  {
    ReadContinues(s, peer, n);
    var k, g := |s.recv|, Greeting(peer.identity);
    var s1 := s.(recv := s.recv + peer.produced[k..k + n]);
    assert s1.recv == g[..k + n];
    assert !Unversioned(s1.recv);
    AnswerGrows(s1, peer.identity, k);
    GreetingGrows(s.identity, k, k + n);
    if |s1.recv| == V3_GREETING_SIZE {
      assert s1.recv == g;
    }
  }

  lemma GreetingGrows(id: byte, j: nat, k: nat)
    requires j <= k
    ensures Produced(j) <= Produced(k) <= |Greeting(id)|
    ensures Greeting(id)[..Produced(j)] <= Greeting(id)[..Produced(k)]
  {
  }

  /** The peer's side of the invariant only depends on the stream growing. */
  lemma PeerUnmoved(peer: Side, s: Side, s': Side)
    requires SideInv(peer, s) && s.produced <= s'.produced && s.written <= s'.written && s'.identity == s.identity
    ensures SideInv(peer, s')
  {
  }

  lemma WriteKeepsSide(s: Side, peer: Side, n: nat)
    requires SideInv(s, peer) && CanWrite(s, n)
    ensures SideInv(Wrote(s, n), peer)
  {
  }

  lemma MoveKeepsSide(s: Side, peer: Side, e: Event)
    requires SideInv(s, peer) && SideInv(peer, s) && CanMove(s, peer, e)
    ensures var s' := Moved(s, peer, e);
      SideInv(s', peer) && s.produced <= s'.produced && s.written <= s'.written && s'.identity == s.identity
  {
    match e
    case Read(_, n) => ReadKeepsSide(s, peer, n);
    case Write(_, n) => WriteKeepsSide(s, peer, n);
    case More(_, _) =>
  }

  lemma StepKeepsInv(p: Pair, e: Event)
    requires Inv(p) && Enabled(p, e)
    ensures Inv(Apply(p, e))
  {
    var s, peer := Self(p, e.left), Peer(p, e.left);
    MoveKeepsSide(s, peer, e);
    PeerUnmoved(peer, s, Moved(s, peer, e));
  }

  lemma {:induction false} RunKeepsInv(p: Pair, events: seq<Event>)
    requires Inv(p) && CanRun(p, events)
    ensures Inv(After(p, events))
    decreases |events|
  {
    if events != [] {
      StepKeepsInv(p, events[0]);
      RunKeepsInv(Apply(p, events[0]), events[1..]);
    }
  }

  // ---------------------------------------------------------------- any peer whatsoever

  /** One side against a peer that sends what it likes. */
  datatype Traffic = Got(bytes: seq<byte>) | Gone(n: nat)

  predicate CanTake(s: Side, t: Traffic) {
    match t
    case Got(bytes) => s.phase.Handshaking? && 0 < |bytes| && |s.recv| + |bytes| <= s.size
    case Gone(n) => CanWrite(s, n)
  }

  function Took(s: Side, t: Traffic): Side {
    match t
    case Got(bytes) => Received(s, bytes)
    case Gone(n) => Wrote(s, n)
  }

  predicate CanTakeAll(s: Side, ts: seq<Traffic>)
    decreases |ts|
  {
    ts == [] || (CanTake(s, ts[0]) && CanTakeAll(Took(s, ts[0]), ts[1..]))
  }

  function TookAll(s: Side, ts: seq<Traffic>): Side
    decreases |ts|
  {
    if ts == [] then s else TookAll(Took(s, ts[0]), ts[1..])
  }

  function Arrived(ts: seq<Traffic>): seq<byte> {
    if ts == [] then [] else (if ts[0].Got? then ts[0].bytes else []) + Arrived(ts[1..])
  }

  /** The bytes so far cannot come from a peer that announces a version. */
  predicate NoVersion(recv: seq<byte>) {
    (|recv| >= 1 && recv[0] != 0xff) || (|recv| >= 10 && recv[9] % 2 == 0)
  }

  /** Version 0 or 1 in the eleventh byte. */
  predicate OldVersion(recv: seq<byte>) {
    |recv| >= 11 && recv[10] <= 1
  }

  /** Bytes 12 to 31 are the name NULL and zeros. */
  ghost predicate NamesNull(recv: seq<byte>) {
    |recv| >= 32 && recv[12..16] == [0x4e, 0x55, 0x4c, 0x4c] && forall i :: 16 <= i < 32 ==> recv[i] == 0
  }

  /** Where a side stands that has received these bytes. */
  ghost function Verdict(recv: seq<byte>): Phase {
    if NoVersion(recv) || (OldVersion(recv) && |recv| >= 12) then OldPeer
    else if |recv| < 64 then Handshaking
    else if NamesNull(recv) then Ready
    else Mismatch
  }

  /** What it has produced by then: its signature; its version, once ten bytes are there; and the rest of its
      greeting, or its socket type for an old peer, once the peer's version is. */
  function Reply(identity: byte, socketType: byte, recv: seq<byte>): seq<byte> {
    if |recv| < 10 || NoVersion(recv) then Greeting(identity)[..10]
    else if |recv| == 10 then Greeting(identity)[..11]
    else if OldVersion(recv) then Greeting(identity)[..11] + [socketType]
    else Greeting(identity)
  }

  ghost predicate Follows(s: Side) {
    && s.phase == Verdict(s.recv) && s.produced == Reply(s.identity, s.socketType, s.recv)
    && s.written <= |s.produced| && (s.phase.Handshaking? ==> (s.pollout <==> s.written < |s.produced|))
    && (s.phase.Ready? ==> s.pollout)
    && (s.phase.Handshaking? ==>
          s.size == if |s.recv| <= 10 || OldVersion(s.recv) then V2_GREETING_SIZE else V3_GREETING_SIZE)
  }

  lemma MechanismIsNull(recv: seq<byte>)
    requires |recv| >= 32
    ensures recv[12..32] == MECHANISM <==> NamesNull(recv)
  {
    var r := recv[12..32];
    assert MECHANISM[..4] == [0x4e, 0x55, 0x4c, 0x4c];
    assert r[..4] == recv[12..16];
    if r == MECHANISM {
      forall i | 16 <= i < 32 ensures recv[i] == 0 {
        assert recv[i] == r[i - 12];
      }
    }
    if NamesNull(recv) {
      forall i | 0 <= i < 20 ensures r[i] == MECHANISM[i] {
        assert i < 4 ==> r[i] == r[..4][i] && MECHANISM[i] == MECHANISM[..4][i];
        assert i >= 4 ==> r[i] == recv[i + 12];
      }
    }
  }

  /** The answer to the bytes received so far, when the side had answered the first k of them. */
  lemma AnswerFollows(s: Side, k: nat, t: Side)
    requires k < |s.recv| && s.produced == Reply(s.identity, s.socketType, s.recv[..k]) && t == Answered(s)
    requires !NoVersion(s.recv) && s.size == if k <= 10 || OldVersion(s.recv[..k]) then 12 else 64
    requires s.written <= |s.produced| && (s.pollout <==> s.written < |s.produced|)
    ensures t.pollout <==> t.written < |t.produced|
    ensures t.produced == Reply(s.identity, s.socketType, s.recv)
    ensures t.size == if |s.recv| <= 10 || OldVersion(s.recv) then 12 else 64
    ensures t == s.(produced := t.produced, size := t.size, pollout := t.pollout)
  {
    var g := Greeting(s.identity);
    assert g[..10] + [3] == g[..11];
    assert g[..11] + Tail() == g;
  }

  /** The same side, which has received these bytes since. */
  ghost predicate Continues(s: Side, s': Side, bytes: seq<byte>) {
    s'.recv == s.recv + bytes && s'.identity == s.identity && s'.socketType == s.socketType
  }

  lemma ReceiveFollows(s: Side, bytes: seq<byte>, s': Side)
    requires Follows(s) && CanTake(s, Got(bytes)) && s' == Received(s, bytes)
    ensures Follows(s') && Continues(s, s', bytes)
  {
    var s1 := s.(recv := s.recv + bytes);
    assert s1.recv[..|s.recv|] == s.recv;
    if !NoVersion(s1.recv) {
      var t := Answered(s1);
      AnswerFollows(s1, |s.recv|, t);
      if |t.recv| >= 32 {
        MechanismIsNull(t.recv);
      }
    }
  }

  lemma WriteFollows(s: Side, n: nat, s': Side)
    requires Follows(s) && CanWrite(s, n) && s' == Wrote(s, n)
    ensures Follows(s') && Continues(s, s', [])
  {
    assert s.recv + [] == s.recv;
  }

  lemma Chained(s: Side, s1: Side, s2: Side, a: seq<byte>, b: seq<byte>)
    requires Continues(s, s1, a) && Continues(s1, s2, b)
    ensures Continues(s, s2, a + b)
  {
    assert s.recv + (a + b) == s.recv + a + b;
  }

  lemma {:induction false} TrafficFollows(s: Side, ts: seq<Traffic>)
    requires Follows(s) && CanTakeAll(s, ts)
    ensures Follows(TookAll(s, ts)) && Continues(s, TookAll(s, ts), Arrived(ts))
    decreases |ts|
  {
    if ts == [] {
      assert s.recv + [] == s.recv;
    } else {
      var s', rest := Took(s, ts[0]), TookAll(Took(s, ts[0]), ts[1..]);
      match ts[0]
      case Got(bytes) =>
        ReceiveFollows(s, bytes, s');
        TrafficFollows(s', ts[1..]);
        Chained(s, s', rest, bytes, Arrived(ts[1..]));
      case Gone(n) =>
        WriteFollows(s, n, s');
        TrafficFollows(s', ts[1..]);
        Chained(s, s', rest, [], Arrived(ts[1..]));
    }
  }

  /** Whatever a peer sends, and however reads and writes cut it: what a side concludes and what it has
      answered depends on the bytes received alone; until then it polls for output exactly while something
      of that is unsent. */
  lemma AnyPeerIsJudged(identity: byte, socketType: byte, ts: seq<Traffic>)
    requires CanTakeAll(Plugged(identity, socketType), ts)
    ensures var s := TookAll(Plugged(identity, socketType), ts);
      && s.recv == Arrived(ts) && s.phase == Verdict(s.recv)
      && s.produced == Reply(identity, socketType, s.recv)
      && (s.phase.Handshaking? ==> (s.pollout <==> s.written < |s.produced|))
  {
    var s := Plugged(identity, socketType);
    assert Greeting(identity)[..10] == Signature(identity);
    TrafficFollows(s, ts);
  }

  // ---------------------------------------------------------------- main results

  /** A side that has left the handshake has produced exactly its 64-byte greeting first and consumed exactly
      the peer's; one still in it has produced a part of its greeting and misses a part of the peer's. */
  ghost predicate Exact(s: Side, peer: Side) {
    && (s.phase.Handshaking? || s.phase.Ready?)
    && (s.phase.Ready? ==> |s.produced| >= 64 && IsGreeting(s.produced[..64], s.identity)
                           && IsGreeting(s.recv, peer.identity))
    && (s.phase.Handshaking? ==> s.produced <= Greeting(s.identity) && |s.recv| < 64)
  }

  lemma SideIsExact(s: Side, peer: Side)
    requires SideInv(s, peer)
    ensures Exact(s, peer)
  {
    GreetingBytes(s.identity);
    GreetingBytes(peer.identity);
    if s.phase.Ready? {
      assert s.produced[..64] == Greeting(s.identity);
      assert s.recv == Greeting(peer.identity);
    }
  }

  /** In every run, neither side ever takes the other for an old or mismatched peer, and both are exact. */
  lemma GreetingsAreExact(ia: byte, ta: byte, ib: byte, tb: byte, events: seq<Event>, left: bool)
    requires CanRun(Init(ia, ta, ib, tb), events)
    ensures var p := After(Init(ia, ta, ib, tb), events); Exact(Self(p, left), Peer(p, left))
  {
    InitInv(ia, ta, ib, tb);
    RunKeepsInv(Init(ia, ta, ib, tb), events);
    var p := After(Init(ia, ta, ib, tb), events);
    SideIsExact(Self(p, left), Peer(p, left));
  }

  /** Bytes of greeting still to be written or read on one side. */
  function SideWork(s: Side): nat {
    (if s.written < V3_GREETING_SIZE then V3_GREETING_SIZE - s.written else 0)
    + (if |s.recv| < V3_GREETING_SIZE then V3_GREETING_SIZE - |s.recv| else 0)
  }

  function Work(p: Pair): nat {
    SideWork(p.a) + SideWork(p.b)
  }

  /** No greeting byte can be read or written in p. */
  ghost predicate Stuck(p: Pair) {
    && (forall left, n :: !CanRead(Self(p, left), Peer(p, left), n))
    && (forall left, n :: Self(p, left).written + n <= V3_GREETING_SIZE ==> !CanWrite(Self(p, left), n))
  }

  lemma StuckIsDone(p: Pair)
    requires Inv(p) && Stuck(p)
    ensures p.a.phase.Ready? && p.b.phase.Ready?
    ensures p.a.written >= V3_GREETING_SIZE && p.b.written >= V3_GREETING_SIZE
  {
    var a, b := p.a, p.b;
    assert !CanWrite(Self(p, true), 1) || a.written + 1 > V3_GREETING_SIZE;
    assert !CanWrite(Self(p, false), 1) || b.written + 1 > V3_GREETING_SIZE;
    assert !CanRead(Self(p, true), Peer(p, true), 1);
    assert !CanRead(Self(p, false), Peer(p, false), 1);
  }

  /** Events that read or write greeting bytes. */
  function Greetings(p: Pair, events: seq<Event>): nat
    requires CanRun(p, events)
    decreases |events|
  {
    if events == [] then 0
    else
      var e := events[0];
      (if e.Read? || (e.Write? && Self(p, e.left).written < V3_GREETING_SIZE) then 1 else 0)
      + Greetings(Apply(p, e), events[1..])
  }

  lemma {:induction false} ExchangeIsShort(p: Pair, events: seq<Event>)
    requires Inv(p) && CanRun(p, events)
    ensures Greetings(p, events) + Work(After(p, events)) <= Work(p)
    decreases |events|
  {
    if events != [] {
      EveryStepProgresses(p, events[0]);
      StepKeepsInv(p, events[0]);
      ExchangeIsShort(Apply(p, events[0]), events[1..]);
    }
  }

  /** Whatever reads and writes are split into, at most 256 of them move greeting bytes, and if none can
      be moved any more then both sides have left the handshake: there is no deadlock, and no poll-out
      request is forgotten. */
  lemma HandshakeCompletes(ia: byte, ta: byte, ib: byte, tb: byte, events: seq<Event>)
    requires CanRun(Init(ia, ta, ib, tb), events)
    ensures Greetings(Init(ia, ta, ib, tb), events) <= 256
    ensures var p := After(Init(ia, ta, ib, tb), events);
      Stuck(p) ==> p.a.phase.Ready? && p.b.phase.Ready?
  {
    var p := Init(ia, ta, ib, tb);
    InitInv(ia, ta, ib, tb);
    ExchangeIsShort(p, events);
    RunKeepsInv(p, events);
    if Stuck(After(p, events)) {
      StuckIsDone(After(p, events));
    }
  }

  /** Every read and every write of a greeting byte makes progress. */
  lemma EveryStepProgresses(p: Pair, e: Event)
    requires Inv(p) && Enabled(p, e)
    ensures Work(Apply(p, e)) <= Work(p)
    ensures e.Read? || (e.Write? && Self(p, e.left).written < V3_GREETING_SIZE) ==> Work(Apply(p, e)) < Work(p)
  {
    MoveProgresses(Self(p, e.left), Peer(p, e.left), e);
  }

  lemma MoveProgresses(s: Side, peer: Side, e: Event)
    requires SideInv(s, peer) && SideInv(peer, s) && CanMove(s, peer, e)
    ensures SideWork(Moved(s, peer, e)) <= SideWork(s)
    ensures e.Read? || (e.Write? && s.written < V3_GREETING_SIZE) ==> SideWork(Moved(s, peer, e)) < SideWork(s)
  {
    if e.Read? {
      ReadKeepsSide(s, peer, e.n);
    }
  }

  // ---------------------------------------------------------------- the engine object

  /** The handshake part of stream_engine_t, with its fixed 64-byte buffers. */
  class GreetingEngine {
    const identity: byte
    const socketType: byte
    const greetingSend: array<byte>
    const greetingRecv: array<byte>
    var outpos: nat
    var outsize: nat
    var bytesRead: nat
    var size: nat
    var pollout: bool
    var phase: Phase

    ghost predicate Valid()
      reads this
    {
      && greetingSend != greetingRecv && greetingSend.Length == greetingRecv.Length == V3_GREETING_SIZE
      && outpos + outsize <= V3_GREETING_SIZE && bytesRead <= size <= V3_GREETING_SIZE
    }

    ghost function State(): Side
      requires Valid()
      reads this, greetingSend, greetingRecv
    {
      Side(identity, socketType,
           greetingSend[..outpos + outsize], outpos, greetingRecv[..bytesRead], size, pollout, phase)
    }

    constructor (id: byte, type_: byte)
      ensures Valid() && fresh(greetingSend) && fresh(greetingRecv) && State() == Plugged(id, type_)
    {
      identity, socketType := id, type_;
      greetingSend := new byte[64](_ => 0);
      greetingRecv := new byte[64](_ => 0);
      outpos, outsize, bytesRead, size, pollout, phase := 0, 0, 0, V2_GREETING_SIZE, true, Handshaking;
      new;
      Store(Signature(id));
    }

    /** Writes at outpos + outsize. */
    method Store(bytes: seq<byte>)
      requires Valid() && outpos + outsize + |bytes| <= V3_GREETING_SIZE
      modifies this`outsize, greetingSend
      ensures Valid() && State() == old(State()).(produced := old(State()).produced + bytes)
    {
      var at := outpos + outsize;
      for i := 0 to |bytes|
        invariant outsize == old(outsize)
        invariant greetingSend[..at + i] == old(greetingSend[..outpos + outsize]) + bytes[..i]
      {
        greetingSend[at + i] := bytes[i];
        assert greetingSend[..at + i + 1] == greetingSend[..at + i] + [bytes[i]];
      }
      assert bytes[..|bytes|] == bytes;
      outsize := outsize + |bytes|;
    }

    method Append(bytes: seq<byte>)
      requires Valid() && outpos + outsize + |bytes| <= V3_GREETING_SIZE
      modifies this`outsize, this`pollout, greetingSend
      ensures Valid() && State() == Appended(old(State()), bytes)
    {
      if outsize == 0 {
        pollout := true;
      }
      Store(bytes);
    }

    /** The answer to what has been read so far; it never leaves the 64-byte buffer, whatever the peer sent. */
    method Answer()
      requires Valid() && bytesRead >= SIGNATURE_SIZE && size <= V3_GREETING_SIZE
      modifies this, greetingSend
      ensures Valid() && State() == Answered(old(State()))
      ensures phase == old(phase) && bytesRead == old(bytesRead)
    {
      if outpos + outsize == SIGNATURE_SIZE {
        Append([3]);
      }
      if bytesRead > SIGNATURE_SIZE && outpos + outsize == SIGNATURE_SIZE + 1 {
        if greetingRecv[10] == 0 || greetingRecv[10] == 1 {
          Append([socketType]);
        } else {
          Append(Tail());
          size := V3_GREETING_SIZE;
        }
      }
    }

    /** One iteration of the loop in handshake, for a read of at most size - bytesRead bytes. */
    method Receive(bytes: seq<byte>)
      requires Valid() && phase.Handshaking? && bytesRead + |bytes| <= size
      modifies this, greetingSend, greetingRecv
      ensures Valid() && State() == Received(old(State()), bytes)
    {
      Take(bytes);
      if (bytesRead > 0 && greetingRecv[0] != 0xff) || (bytesRead >= SIGNATURE_SIZE && greetingRecv[9] % 2 == 0) {
        phase := OldPeer;
        return;
      }
      if bytesRead >= SIGNATURE_SIZE {
        Answer();
      }
      if bytesRead >= size && bytesRead >= V2_GREETING_SIZE {
        Finish();
      }
    }

    method Take(bytes: seq<byte>)
      requires Valid() && bytesRead + |bytes| <= size
      modifies this`bytesRead, greetingRecv
      ensures Valid() && State() == old(State()).(recv := old(State()).recv + bytes)
    {
      var at := bytesRead;
      for i := 0 to |bytes|
        invariant bytesRead == at
        invariant greetingRecv[..at + i] == old(greetingRecv[..bytesRead]) + bytes[..i]
      {
        greetingRecv[at + i] := bytes[i];
        assert greetingRecv[..at + i + 1] == greetingRecv[..at + i] + [bytes[i]];
      }
      assert bytes[..|bytes|] == bytes;
      bytesRead := bytesRead + |bytes|;
    }

    method Finish()
      requires Valid() && bytesRead >= V2_GREETING_SIZE
      modifies this`phase, this`pollout
      ensures Valid() && State() == Finished(old(State()))
    {
      if greetingRecv[10] == 0 || greetingRecv[10] == 1 {
        phase := OldPeer;
      } else if bytesRead >= 32 && greetingRecv[12..32] == MECHANISM {
        if outsize == 0 {
          pollout := true;
        }
        phase := Ready;
      } else {
        phase := Mismatch;
      }
      assert bytesRead >= 32 ==> greetingRecv[..bytesRead][12..32] == greetingRecv[12..32];
    }

    method Write(n: nat)
      requires Valid() && n <= outsize
      modifies this`outpos, this`outsize, this`pollout
      ensures Valid() && State() == Wrote(old(State()), n)
    {
      outpos, outsize := outpos + n, outsize - n;
      if phase.Handshaking? && outsize == 0 {
        pollout := false;
      }
    }
  }
}
