/** Slots circulating between the writers and readers of the MPSC mesh: each writer owns a fixed pool
    of slots, which travel from its free rings to the writer, to a reader's ring, to the reader and
    its encoder, and back (src/queues/mpsc_writer_indirect_mesh.hpp, mpsc_reader_indirect_mesh.hpp,
    src/thread/out_callback_simple.hpp), over the queues wired up by the worker. */
module SlotCirculation {

  // ---------------------------------------------------------------- wiring

  /** An MPSCObject: how many rings its own queue has, and whose queues its peers are, by position. */
  datatype Endpoint = Endpoint(rings: nat, peers: seq<nat>)

  function ConnectPeer(e: Endpoint, peer: nat): Endpoint {
    Endpoint(e.rings + 1, e.peers + [peer])
  }

  function Upto(n: nat): seq<nat> {
    seq(n, i => i)
  }

  datatype Wiring = Wiring(writers: seq<Endpoint>, readers: seq<Endpoint>)

  /** Peer i of every object is object i of the other side, and there is a ring for each. */
  ghost predicate Straight(g: Wiring) {
    && (forall w :: 0 <= w < |g.writers| ==> g.writers[w] == Endpoint(|g.readers|, Upto(|g.readers|)))
    && (forall r :: 0 <= r < |g.readers| ==> g.readers[r] == Endpoint(|g.writers|, Upto(|g.writers|)))
  }

  /** The worker connects its compute threads in the order of their ids, each to the readers in order.
      Positions are assigned by arrival, whatever index ConnectPeer is given. */
  method ConnectAll(n: nat, m: nat) returns (g: Wiring)
    ensures |g.writers| == n && |g.readers| == m && Straight(g)
  {
    var writers, readers := seq(n, _ => Endpoint(0, [])), seq(m, _ => Endpoint(0, []));
    for w := 0 to n
      invariant |writers| == n && |readers| == m
      invariant forall i :: 0 <= i < n ==> writers[i] == if i < w then Endpoint(m, Upto(m)) else Endpoint(0, [])
      invariant forall r :: 0 <= r < m ==> readers[r] == Endpoint(w, Upto(w))
    {
      for r := 0 to m
        invariant |writers| == n && |readers| == m
        invariant forall i :: 0 <= i < n && i != w ==>
                    writers[i] == if i < w then Endpoint(m, Upto(m)) else Endpoint(0, [])
        invariant writers[w] == Endpoint(r, Upto(r))
        invariant forall i :: 0 <= i < m ==>
                    readers[i] == if i < r then Endpoint(w + 1, Upto(w + 1)) else Endpoint(w, Upto(w))
      {
        assert Upto(r + 1) == Upto(r) + [r] && Upto(w + 1) == Upto(w) + [w];
        writers := writers[w := ConnectPeer(writers[w], r)];
        readers := readers[r := ConnectPeer(readers[r], w)];
      }
    }
    g := Wiring(writers, readers);
  }

  // ---------------------------------------------------------------- circulation

  datatype Slot = Slot(owner: nat, index: nat)

  datatype Place =
    | Free(w: nat, r: nat)  // ring r of writer w's own queue
    | Held(w: nat)          // taken by the writer, not yet written
    | Full(r: nat, w: nat)  // ring w of reader r's own queue
    | Out(r: nat)           // pulled by the reader, with its callback or encoder

  /** What a slot contains: the id of the thread that filled it, and its data. */
  datatype Item<T> = Item(source: nat, data: T)

  datatype State<T> = State(
    at: map<Place, seq<Slot>>,
    memory: map<Slot, Item<T>>,
    whereIs: map<Slot, Place>)   // history: the place each slot was moved to last

  datatype Event<T> =
    | GetSlot(w: nat, r: nat)                  // the writer pops its free ring r
    | Write(w: nat, i: nat, dest: nat, data: T) // it fills its i-th held slot and pushes it to peer dest
    | Pull(r: nat, w: nat)                     // reader r pops its ring w
    | Ack(r: nat, i: nat)                      // its i-th slot goes back

  predicate IsPlace(g: Wiring, p: Place) {
    match p
    case Free(w, r) => w < |g.writers| && r < g.writers[w].rings
    case Held(w) => w < |g.writers|
    case Full(r, w) => r < |g.readers| && w < g.readers[r].rings
    case Out(r) => r < |g.readers|
  }

  predicate IsSlot(g: Wiring, k: nat, x: Slot) {
    x.owner < |g.writers| && x.index < k
  }

  function Without<T>(s: seq<T>, i: nat): seq<T>
    requires i < |s|
  {
    s[..i] + s[i + 1..]
  }

  /** Moves element i of place p to the end of place q. */
  function Moved<T>(s: State<T>, p: Place, i: nat, q: Place): State<T>
    requires p in s.at && i < |s.at[p]| && q in s.at && p != q
  {
    var x := s.at[p][i];
    s.(at := s.at[p := Without(s.at[p], i)][q := s.at[q] + [x]], whereIs := s.whereIs[x := q])
  }

  /** The place a step takes its slot from, the position there, and the place it puts it to. */
  function From<T>(e: Event<T>): (Place, nat) {
    match e
    case GetSlot(w, r) => (Free(w, r), 0)
    case Write(w, i, _, _) => (Held(w), i)
    case Pull(r, w) => (Full(r, w), 0)
    case Ack(r, i) => (Out(r), i)
  }

  predicate Takes<T>(s: State<T>, e: Event<T>) {
    From(e).0 in s.at && From(e).1 < |s.at[From(e).0]|
  }

  function Taken<T>(s: State<T>, e: Event<T>): Slot
    requires Takes(s, e)
  {
    s.at[From(e).0][From(e).1]
  }

  /** Where the source's code sends it: Write indexes the writer's peers by destination, Ack indexes
      the reader's peers by the source recorded in the slot. */
  predicate HasTarget<T>(g: Wiring, s: State<T>, e: Event<T>)
    requires Takes(s, e)
  {
    match e
    case Write(w, _, dest, _) => w < |g.writers| && dest < |g.writers[w].peers|
    case Ack(r, _) => r < |g.readers| && Taken(s, e) in s.memory && s.memory[Taken(s, e)].source < |g.readers[r].peers|
    case _ => true
  }

  function Target<T>(g: Wiring, s: State<T>, e: Event<T>): Place
    requires Takes(s, e) && HasTarget(g, s, e)
  {
    match e
    case GetSlot(w, _) => Held(w)
    case Write(w, _, dest, _) => Full(g.writers[w].peers[dest], w)
    case Pull(r, _) => Out(r)
    case Ack(r, _) => Free(g.readers[r].peers[s.memory[Taken(s, e)].source], r)
  }

  predicate Enabled<T>(g: Wiring, s: State<T>, e: Event<T>) {
    Takes(s, e) && HasTarget(g, s, e) && Target(g, s, e) in s.at
  }

  function Filled<T>(s: State<T>, e: Event<T>): map<Slot, Item<T>>
    requires Takes(s, e)
  {
    if e.Write? then s.memory[Taken(s, e) := Item(e.w, e.data)] else s.memory
  }

  function Apply<T>(g: Wiring, s: State<T>, e: Event<T>): State<T>
    requires Enabled(g, s, e)
  {
    Moved(s, From(e).0, From(e).1, Target(g, s, e)).(memory := Filled(s, e))
  }

  function PlacesOf(g: Wiring): set<Place> {
    (set w, r | 0 <= w < |g.writers| && 0 <= r < g.writers[w].rings :: Free(w, r))
    + (set w | 0 <= w < |g.writers| :: Held(w))
    + (set r, w | 0 <= r < |g.readers| && 0 <= w < g.readers[r].rings :: Full(r, w))
    + (set r | 0 <= r < |g.readers| :: Out(r))
  }

  function Pool(w: nat, k: nat): seq<Slot> {
    seq(k, i requires 0 <= i < k => Slot(w, i))
  }

  /** MPSCWriter::Init puts all k slots of a writer into the first ring of its own queue. */
  function Init<T>(g: Wiring, k: nat): State<T> {
    State(map p | p in PlacesOf(g) :: if p.Free? && p.r == 0 then Pool(p.w, k) else [],
          map[],
          map x | x in set w, i | 0 <= w < |g.writers| && 0 <= i < k :: Slot(w, i) :: Free(x.owner, 0))
  }

  predicate CanRun<T>(g: Wiring, s: State<T>, events: seq<Event<T>>)
    decreases |events|
  {
    events == [] || (Enabled(g, s, events[0]) && CanRun(g, Apply(g, s, events[0]), events[1..]))
  }

  function After<T>(g: Wiring, s: State<T>, events: seq<Event<T>>): State<T>
    requires CanRun(g, s, events)
    decreases |events|
  {
    if events == [] then s else After(g, Apply(g, s, events[0]), events[1..])
  }

  // ---------------------------------------------------------------- invariant

  ghost predicate NoRepeat<T>(s: seq<T>) {
    forall i, j :: 0 <= i < j < |s| ==> s[i] != s[j]
  }

  predicate In(at: map<Place, seq<Slot>>, p: Place, x: Slot) {
    p in at && x in at[p]
  }

  ghost predicate Somewhere(at: map<Place, seq<Slot>>, x: Slot) {
    exists p :: In(at, p, x)
  }

  /** Each slot is in exactly one place, once. */
  ghost predicate Located<T>(g: Wiring, k: nat, s: State<T>) {
    && (forall p :: p in s.at <==> IsPlace(g, p))
    && (forall x :: x in s.whereIs <==> IsSlot(g, k, x))
    && (forall p :: p in s.at ==> NoRepeat(s.at[p]))
    && (forall p, x :: In(s.at, p, x) ==> x in s.whereIs && s.whereIs[x] == p)
    && (forall x :: x in s.whereIs ==> In(s.at, s.whereIs[x], x))
  }

  /** Slots are only where their owner's traffic goes, and a filled slot names its owner. */
  predicate Belongs<T>(s: State<T>, p: Place, x: Slot) {
    match p
    case Free(w, _) => x.owner == w
    case Held(w) => x.owner == w
    case Full(_, w) => x.owner == w && x in s.memory && s.memory[x].source == w
    case Out(_) => x in s.memory && s.memory[x].source == x.owner
  }

  ghost predicate Inv<T>(g: Wiring, k: nat, s: State<T>) {
    Located(g, k, s) && forall x :: x in s.whereIs ==> Belongs(s, s.whereIs[x], x)
  }

  lemma InitPlaces<T>(g: Wiring, k: nat)
    ensures var s := Init<T>(g, k);
      && (forall p :: p in s.at <==> IsPlace(g, p))
      && (forall p :: p in s.at ==> s.at[p] == if p.Free? && p.r == 0 then Pool(p.w, k) else [])
      && (forall x :: x in s.whereIs <==> IsSlot(g, k, x))
      && (forall x :: x in s.whereIs ==> s.whereIs[x] == Free(x.owner, 0))
  {
    var s := Init<T>(g, k);
    forall p ensures p in PlacesOf(g) <==> IsPlace(g, p) {
    }
    forall x ensures x in s.whereIs <==> IsSlot(g, k, x) {
      assert IsSlot(g, k, x) ==> x == Slot(x.owner, x.index);
    }
  }

  lemma PoolMembers(w: nat, k: nat)
    ensures NoRepeat(Pool(w, k)) && forall x :: x in Pool(w, k) <==> x.owner == w && x.index < k
  {
    forall x: Slot | x.owner == w && x.index < k ensures x in Pool(w, k) {
      assert Pool(w, k)[x.index] == x;
    }
  }

  lemma PooledInv<T>(g: Wiring, k: nat, s: State<T>)
    requires Straight(g) && |g.readers| > 0
    requires forall p :: p in s.at <==> IsPlace(g, p)
    requires forall p :: p in s.at ==> s.at[p] == if p.Free? && p.r == 0 then Pool(p.w, k) else []
    requires forall x :: x in s.whereIs <==> IsSlot(g, k, x)
    requires forall x :: x in s.whereIs ==> s.whereIs[x] == Free(x.owner, 0)
    ensures Inv(g, k, s)
  {
    forall p | p in s.at ensures NoRepeat(s.at[p]) {
      if p.Free? { PoolMembers(p.w, k); }
    }
    forall p, x | In(s.at, p, x) ensures x in s.whereIs && s.whereIs[x] == p {
      assert p.Free? && p.r == 0;
      PoolMembers(p.w, k);
      assert IsPlace(g, p) && IsSlot(g, k, x);
    }
    forall x | x in s.whereIs ensures In(s.at, s.whereIs[x], x) {
      assert IsSlot(g, k, x) && IsPlace(g, Free(x.owner, 0));
      PoolMembers(x.owner, k);
    }
  }

  lemma InitInv<T>(g: Wiring, k: nat)
    requires Straight(g) && |g.readers| > 0
    ensures Inv(g, k, Init<T>(g, k))
  {
    InitPlaces<T>(g, k);
    PooledInv(g, k, Init<T>(g, k));
  }

  lemma WithoutMember<T>(s: seq<T>, i: nat)
    requires NoRepeat(s) && i < |s|
    ensures NoRepeat(Without(s, i)) && forall x :: x in Without(s, i) <==> x in s && x != s[i]
  {
    forall x | x in s && x != s[i] ensures x in Without(s, i) {
      var j :| 0 <= j < |s| && s[j] == x;
      assert Without(s, i)[if j < i then j else j - 1] == x;
    }
    forall a, b | 0 <= a < b < |Without(s, i)| ensures Without(s, i)[a] != Without(s, i)[b] {
      var a', b' := if a < i then a else a + 1, if b < i then b else b + 1;
      assert s[a'] != s[b'];
    }
    assert forall j :: 0 <= j < |Without(s, i)| ==> Without(s, i)[j] == s[if j < i then j else j + 1];
  }

  /** Membership after a move. */
  lemma MoveMembers<T>(s: State<T>, p: Place, i: nat, q: Place, r: Place, y: Slot)
    requires p in s.at && i < |s.at[p]| && q in s.at && p != q && NoRepeat(s.at[p])
    ensures var x := s.at[p][i];
      In(Moved(s, p, i, q).at, r, y) <==>
        (if y == x then r == q || (In(s.at, r, y) && r != p) else In(s.at, r, y))
  {
    WithoutMember(s.at[p], i);
  }

  /** Moving a slot keeps every slot in exactly one place. */
  lemma MoveKeepsLocated<T>(g: Wiring, k: nat, s: State<T>, p: Place, i: nat, q: Place)
    requires Located(g, k, s) && p in s.at && i < |s.at[p]| && q in s.at && p != q
    ensures Located(g, k, Moved(s, p, i, q))
  {
    var x := s.at[p][i];
    var s' := Moved(s, p, i, q);
    assert In(s.at, p, x);
    forall r | r in s'.at ensures NoRepeat(s'.at[r]) {
      WithoutMember(s.at[p], i);
      if r == q {
        assert !In(s.at, q, x);
      }
    }
    forall r, y | In(s'.at, r, y) ensures y in s'.whereIs && s'.whereIs[y] == r {
      MoveMembers(s, p, i, q, r, y);
    }
    forall y | y in s'.whereIs ensures In(s'.at, s'.whereIs[y], y) {
      MoveMembers(s, p, i, q, s'.whereIs[y], y);
    }
  }

  /** The code's choice of queue and ring is a place of the right owner. */
  lemma TargetBelongs<T>(g: Wiring, k: nat, s: State<T>, e: Event<T>)
    requires Straight(g) && Inv(g, k, s) && Takes(s, e)
    requires e.Write? ==> e.dest < |g.readers|
    ensures HasTarget(g, s, e) && Target(g, s, e) in s.at && Target(g, s, e) != From(e).0
    ensures e.Ack? ==> Target(g, s, e) == Free(Taken(s, e).owner, e.r)
    ensures e.Write? ==> Target(g, s, e) == Full(e.dest, e.w)
  {
    var p, x := From(e).0, Taken(s, e);
    assert In(s.at, p, x);
    assert s.whereIs[x] == p && Belongs(s, p, x);
    assert IsPlace(g, p) && IsSlot(g, k, x);
  }

  lemma StepKeepsInv<T>(g: Wiring, k: nat, s: State<T>, e: Event<T>)
    requires Straight(g) && Inv(g, k, s) && Enabled(g, s, e)
    ensures Inv(g, k, Apply(g, s, e))
  {
    var p, x := From(e).0, Taken(s, e);
    assert In(s.at, p, x);
    assert s.whereIs[x] == p && Belongs(s, p, x);
    assert IsPlace(g, p) && IsSlot(g, k, x);
    assert Target(g, s, e) != p;
    var m := Moved(s, p, From(e).1, Target(g, s, e));
    MoveKeepsLocated(g, k, s, p, From(e).1, Target(g, s, e));
    var s' := Apply(g, s, e);
    assert Located(g, k, s') by { assert s'.at == m.at && s'.whereIs == m.whereIs; }
    forall y | y in s'.whereIs ensures Belongs(s', s'.whereIs[y], y) {
      if y != x {
        assert Belongs(s, s.whereIs[y], y);
      }
    }
  }

  lemma {:induction false} RunKeepsInv<T>(g: Wiring, k: nat, s: State<T>, events: seq<Event<T>>)
    requires Straight(g) && Inv(g, k, s) && CanRun(g, s, events)
    ensures Inv(g, k, After(g, s, events))
    decreases |events|
  {
    if events != [] {
      StepKeepsInv(g, k, s, events[0]);
      RunKeepsInv(g, k, Apply(g, s, events[0]), events[1..]);
    }
  }

  // ---------------------------------------------------------------- main results

  /** Conservation: in every reachable state each of a writer's k slots is in exactly one place, there
      exactly once, and no place holds anything else. */
  lemma SlotsAreConserved<T>(g: Wiring, k: nat, events: seq<Event<T>>)
    requires Straight(g) && |g.readers| > 0 && CanRun(g, Init<T>(g, k), events)
    ensures var s := After(g, Init<T>(g, k), events);
      && (forall x :: IsSlot(g, k, x) ==> Somewhere(s.at, x))
      && (forall x, p, q :: In(s.at, p, x) && In(s.at, q, x) ==> p == q)
      && (forall p :: p in s.at ==> NoRepeat(s.at[p]))
      && (forall x, p :: In(s.at, p, x) ==> IsSlot(g, k, x))
  {
    InitInv<T>(g, k);
    RunKeepsInv(g, k, Init<T>(g, k), events);
    Conserved(g, k, After(g, Init<T>(g, k), events));
  }

  lemma Conserved<T>(g: Wiring, k: nat, s: State<T>)
    requires Located(g, k, s)
    ensures forall x :: IsSlot(g, k, x) ==> Somewhere(s.at, x)
    ensures forall x, p, q :: In(s.at, p, x) && In(s.at, q, x) ==> p == q
    ensures forall x, p :: In(s.at, p, x) ==> IsSlot(g, k, x)
  {
    forall x | IsSlot(g, k, x) ensures Somewhere(s.at, x) {
      assert In(s.at, s.whereIs[x], x);
    }
  }

  /** Whatever the traffic, an acknowledge pushes its slot back to the writer that owns it, into the ring
      of the reader that returns it.  When that ring has room is the subject of module SlotRings. */
  lemma AcksReachTheOwner<T>(g: Wiring, k: nat, events: seq<Event<T>>, e: Event<T>)
    requires Straight(g) && |g.readers| > 0 && CanRun(g, Init<T>(g, k), events)
    requires e.Ack? && Takes(After(g, Init<T>(g, k), events), e)
    ensures var s := After(g, Init<T>(g, k), events);
      Enabled(g, s, e) && Target(g, s, e) == Free(Taken(s, e).owner, e.r)
  {
    InitInv<T>(g, k);
    RunKeepsInv(g, k, Init<T>(g, k), events);
    TargetBelongs(g, k, After(g, Init<T>(g, k), events), e);
  }

  /** No ring ever holds more than the k slots of its writer.  What a ring counts as occupied can be more,
      see module SlotRings. */
  lemma RingsHoldAtMostK<T>(g: Wiring, k: nat, events: seq<Event<T>>, p: Place)
    requires Straight(g) && |g.readers| > 0 && CanRun(g, Init<T>(g, k), events)
    requires IsPlace(g, p) && !p.Out?
    ensures var s := After(g, Init<T>(g, k), events); p in s.at && |s.at[p]| <= k
  {
    InitInv<T>(g, k);
    RunKeepsInv(g, k, Init<T>(g, k), events);
    RingFits(g, k, After(g, Init<T>(g, k), events), p);
  }

  lemma RingFits<T>(g: Wiring, k: nat, s: State<T>, p: Place)
    requires Inv(g, k, s) && IsPlace(g, p) && !p.Out?
    ensures p in s.at && |s.at[p]| <= k
  {
    var slots := s.at[p];
    forall x | x in slots ensures x.owner == p.w && x.index < k {
      assert In(s.at, p, x);
      assert Belongs(s, p, x) && IsSlot(g, k, x);
    }
    PigeonHole(slots, p.w, k);
  }

  /** Distinct slots of one owner with indices below k are at most k many. */
  lemma {:induction false} PigeonHole(slots: seq<Slot>, w: nat, k: nat)
    requires NoRepeat(slots) && forall x :: x in slots ==> x.owner == w && x.index < k
    ensures |slots| <= k
    decreases k
  {
    if slots != [] {
      assert slots[0] in slots;
      if Slot(w, k - 1) in slots {
        var i :| 0 <= i < |slots| && slots[i] == Slot(w, k - 1);
        WithoutMember(slots, i);
        PigeonHole(Without(slots, i), w, k - 1);
      } else {
        PigeonHole(slots, w, k - 1);
      }
    }
  }
}
