/** The chunked queue of src/control_channel/yqueue.hpp: linked chunks of N elements, the most
    recently emptied chunk kept as a spare.

    Memory is explicit: `mem` maps the identities of the chunks that are allocated and not freed
    to their contents, so a use after free would not verify; where a chunk is freed, that it has
    not been freed before is asserted.  The
    abstract value is the sequence of addresses (chunk, offset) of the live elements, front first. */
module YQueue {
  import opened Optional

  datatype Chunk<T> = Chunk(values: seq<T>, prev: Option<nat>, next: Option<nat>)

  datatype Cell = Cell(chunk: nat, off: nat)

  type Memory<T> = map<nat, Chunk<T>>

  ghost predicate Linked<T>(mem: Memory<T>, a: nat, b: nat) {
    a in mem && b in mem && mem[a].next == Some(b) && mem[b].prev == Some(a)
  }

  ghost predicate Block<T>(n: nat, mem: Memory<T>, c: nat) {
    c in mem && |mem[c].values| == n
  }

  /** The chunks form a doubly linked list of distinct blocks of n elements. */
  ghost predicate Chained<T>(n: nat, mem: Memory<T>, live: seq<nat>) {
    && |live| > 0
    && (forall c :: c in live ==> Block(n, mem, c))
    && (forall i, j :: 0 <= i < j < |live| ==> live[i] != live[j])
    && (forall i, j :: 0 <= i < |live| && j == i + 1 < |live| ==> Linked(mem, live[i], live[j]))
  }

  /** b is the position right after a in the chain of chunks. */
  ghost predicate Follows<T>(n: nat, mem: Memory<T>, a: Cell, b: Cell) {
    if a.off + 1 < n then b == Cell(a.chunk, a.off + 1)
    else a.off + 1 == n && b.off == 0 && Linked(mem, a.chunk, b.chunk)
  }

  /** The cells run from the begin position to right before the end position, in chain order. */
  ghost predicate Laid<T>(n: nat, mem: Memory<T>, live: seq<nat>, cells: seq<Cell>, begin: Cell, end: Cell) {
    && begin.off < n && end.off < n
    && (forall i :: 0 <= i < |cells| ==> cells[i].chunk in live && cells[i].off < n)
    && (forall i, j :: 0 <= i < j < |cells| ==> cells[i].chunk == cells[j].chunk ==> cells[i].off < cells[j].off)
    && (forall i :: 0 <= i < |cells| ==> cells[i].chunk == end.chunk ==> cells[i].off < end.off)
    && (forall i, j :: 0 <= i < |cells| && j == i + 1 < |cells| ==> Follows(n, mem, cells[i], cells[j]))
    && (cells == [] ==> begin == end)
    && (cells != [] ==> cells[0] == begin && Follows(n, mem, cells[|cells| - 1], end))
  }

  /** The fields of yqueue_t, together with the chain and the element addresses they denote. */
  datatype Queue<T> = Queue(
    n: nat, mem: Memory<T>, nextId: nat,
    begin: Cell, back: Option<Cell>, end: Cell, spare: Option<nat>,
    live: seq<nat>, cells: seq<Cell>)

  /** Allocated memory is exactly the live chunks and the spare: nothing leaks, nothing dangles. */
  ghost predicate Accounted<T>(q: Queue<T>) {
    && (q.spare.Some? ==> q.spare.value !in q.live && Block(q.n, q.mem, q.spare.value))
    && (forall c :: c in q.mem <==> c in q.live || q.spare == Some(c))
    && (forall c :: c in q.mem ==> c < q.nextId)
  }

  ghost predicate Good<T>(q: Queue<T>) {
    && Chained(q.n, q.mem, q.live)
    && q.live[0] == q.begin.chunk && q.live[|q.live| - 1] == q.end.chunk
    && Laid(q.n, q.mem, q.live, q.cells, q.begin, q.end)
    && (q.cells != [] ==> q.back == Some(q.cells[|q.cells| - 1]))
    && Accounted(q)
  }

  /** Two memories agree on the chunk: same elements and same links. */
  ghost predicate Same<T>(m: Memory<T>, m': Memory<T>, c: nat) {
    c in m && c in m' && m'[c] == m[c]
  }

  // ---------------------------------------------------------------- push

  lemma ExtendChain<T>(n: nat, m: Memory<T>, m': Memory<T>, live: seq<nat>, sc: nat)
    requires Chained(n, m, live) && sc !in live && Block(n, m', sc)
    requires forall c :: c in live && c != live[|live| - 1] ==> Same(m, m', c)
    requires var e := live[|live| - 1]; e in m && Linked(m', e, sc) && m'[e] == m[e].(next := Some(sc))
    ensures Chained(n, m', live + [sc])
  {
    var l := live + [sc];
    forall i, j | 0 <= i < |l| && j == i + 1 < |l| ensures Linked(m', l[i], l[j]) {
      if j < |live| {
        assert Linked(m, live[i], live[j]) && Same(m, m', live[i]);
        assert j < |live| - 1 ==> Same(m, m', live[j]);
      }
    }
  }

  lemma AppendWithin<T>(n: nat, m: Memory<T>, live: seq<nat>, cells: seq<Cell>, begin: Cell, end: Cell)
    requires Laid(n, m, live, cells, begin, end) && end.off + 1 < n && end.chunk in live
    ensures Laid(n, m, live, cells + [end], begin, Cell(end.chunk, end.off + 1))
  {
  }

  lemma AppendAcross<T>(n: nat, m: Memory<T>, m': Memory<T>, live: seq<nat>, cells: seq<Cell>,
                        begin: Cell, end: Cell, sc: nat)
    requires Chained(n, m, live) && live[|live| - 1] == end.chunk
    requires Laid(n, m, live, cells, begin, end) && end.off + 1 == n && sc !in live
    requires forall a: nat, b: nat :: Linked(m, a, b) && a in live && b in live && a != end.chunk ==> Linked(m', a, b)
    requires Linked(m', end.chunk, sc)
    ensures Laid(n, m', live + [sc], cells + [end], begin, Cell(sc, 0))
  {
    var cs := cells + [end];
    forall i, j | 0 <= i < |cs| && j == i + 1 < |cs| ensures Follows(n, m', cs[i], cs[j]) {
      assert Follows(n, m, cells[i], cs[j]);
    }
  }

  ghost predicate HasValue<T>(mem: Memory<T>, c: Cell) {
    c.chunk in mem && c.off < |mem[c.chunk].values|
  }

  /** The element at an address. */
  ghost function Value<T>(mem: Memory<T>, c: Cell): T
    requires HasValue(mem, c)
  {
    mem[c.chunk].values[c.off]
  }

  /** The element at the address is the same in both memories. */
  ghost predicate Kept<T>(m: Memory<T>, m': Memory<T>, c: Cell) {
    HasValue(m, c) && HasValue(m', c) && Value(m, c) == Value(m', c)
  }

  /** The chunk push links behind the end chunk: the spare one if there is one, else a new one. */
  function Obtained<T>(q: Queue<T>): nat {
    if q.spare.Some? then q.spare.value else q.nextId
  }

  function WithObtained<T>(q: Queue<T>, garbage: seq<T>): Memory<T> {
    if q.spare.Some? then q.mem else q.mem[q.nextId := Chunk(garbage, None, None)]
  }

  function LinkedMemory<T>(m: Memory<T>, e: nat, sc: nat): Memory<T>
    requires e in m && sc in m && e != sc
  {
    m[e := m[e].(next := Some(sc))][sc := m[sc].(prev := Some(e))]
  }

  ghost function Pushed<T>(q: Queue<T>, garbage: seq<T>): Queue<T>
    requires Good(q)
  {
    var q1 := q.(back := Some(q.end), cells := q.cells + [q.end]);
    if q.end.off + 1 != q.n then q1.(end := Cell(q.end.chunk, q.end.off + 1))
    else
      var sc := Obtained(q);
      EndIsNotObtained(q);
      q1.(mem := LinkedMemory(WithObtained(q, garbage), q.end.chunk, sc),
          nextId := if q.spare.Some? then q.nextId else q.nextId + 1,
          end := Cell(sc, 0), spare := None, live := q.live + [sc])
  }

  lemma EndIsNotObtained<T>(q: Queue<T>)
    requires Good(q)
    ensures q.end.chunk in q.live && Obtained(q) !in q.live && q.end.chunk in q.mem
  {
    assert q.live[|q.live| - 1] in q.live;
    assert Block(q.n, q.mem, q.end.chunk);
  }

  lemma PushKeepsChain<T>(q: Queue<T>, garbage: seq<T>)
    requires Good(q) && |garbage| == q.n && q.end.off + 1 == q.n
    ensures var q' := Pushed(q, garbage);
      && Chained(q'.n, q'.mem, q'.live)
      && Laid(q'.n, q'.mem, q'.live, q'.cells, q'.begin, q'.end)
  {
    EndIsNotObtained(q);
    var q', sc := Pushed(q, garbage), Obtained(q);
    assert forall c :: c in q.live ==> Block(q.n, q.mem, c);
    forall c | c in q.live && c != q.end.chunk ensures Same(q.mem, q'.mem, c) {
    }
    LinkedBefore(q.mem, q'.mem, q.live, q.end.chunk, sc);
    ExtendChain(q.n, q.mem, q'.mem, q.live, sc);
    AppendAcross(q.n, q.mem, q'.mem, q.live, q.cells, q.begin, q.end, sc);
  }

  lemma LinkedBefore<T>(m: Memory<T>, m': Memory<T>, live: seq<nat>, e: nat, sc: nat)
    requires forall c :: c in live && c != e ==> Same(m, m', c)
    requires e in m && Linked(m', e, sc) && m'[e] == m[e].(next := Some(sc))
    ensures forall a: nat, b: nat :: Linked(m, a, b) && a in live && b in live && a != e ==> Linked(m', a, b)
  {
    forall a: nat, b: nat | Linked(m, a, b) && a in live && b in live && a != e ensures Linked(m', a, b) {
      assert Same(m, m', a) && (b != e ==> Same(m, m', b));
    }
  }

  lemma PushKeepsGood<T>(q: Queue<T>, garbage: seq<T>)
    requires Good(q) && |garbage| == q.n
    ensures Good(Pushed(q, garbage))
  {
    EndIsNotObtained(q);
    if q.end.off + 1 != q.n {
      AppendWithin(q.n, q.mem, q.live, q.cells, q.begin, q.end);
    } else {
      PushKeepsChain(q, garbage);
      PushAccounted(q, Pushed(q, garbage), Obtained(q), garbage);
    }
  }

  /** A new chunk, or the spare one, joins the chain. */
  lemma PushAccounted<T>(q: Queue<T>, q': Queue<T>, sc: nat, garbage: seq<T>)
    requires Accounted(q) && q.end.chunk in q.live && sc == Obtained(q) && q.end.chunk != sc
    requires var m := WithObtained(q, garbage);
      q.end.chunk in m && sc in m && q'.mem == LinkedMemory(m, q.end.chunk, sc)
    requires q'.live == q.live + [sc] && q'.spare == None && q'.nextId >= q.nextId
    requires q.spare.None? ==> q'.nextId == q.nextId + 1
    ensures Accounted(q')
  {
  }

  lemma PushKeepsElements<T>(q: Queue<T>, garbage: seq<T>)
    requires Good(q) && |garbage| == q.n
    ensures forall i :: 0 <= i < |q.cells| ==> Kept(q.mem, Pushed(q, garbage).mem, q.cells[i])
  {
    EndIsNotObtained(q);
    forall i | 0 <= i < |q.cells| ensures Kept(q.mem, Pushed(q, garbage).mem, q.cells[i]) {
      assert Block(q.n, q.mem, q.cells[i].chunk);
    }
  }

  // ---------------------------------------------------------------- pop

  ghost function Popped<T>(q: Queue<T>): Queue<T>
    requires Good(q) && q.cells != []
  {
    var q1 := q.(cells := q.cells[1..]);
    if q.begin.off + 1 != q.n then q1.(begin := Cell(q.begin.chunk, q.begin.off + 1))
    else
      var o := q.begin.chunk;
      CrossingHasNext(q);
      var nb := q.mem[o].next.value;
      var m := q.mem[nb := q.mem[nb].(prev := None)];
      assert q.spare.Some? ==> q.spare.value in m;  // freed once
      q1.(begin := Cell(nb, 0), live := q.live[1..], spare := Some(o),
          mem := if q.spare.Some? then m - {q.spare.value} else m)
  }

  /** When the first element sits at the end of its chunk, a next chunk is linked behind it. */
  lemma CrossingHasNext<T>(q: Queue<T>)
    requires Good(q) && q.cells != [] && q.begin.off + 1 == q.n
    ensures |q.live| >= 2 && Linked(q.mem, q.begin.chunk, q.live[1])
  {
    assert q.cells[0].chunk != q.end.chunk;
    assert |q.live| >= 2;
    assert Linked(q.mem, q.live[0], q.live[1]);
  }

  lemma DropFirstChunk<T>(n: nat, m: Memory<T>, m': Memory<T>, live: seq<nat>)
    requires Chained(n, m, live) && |live| >= 2
    requires forall c :: c in live[2..] ==> Same(m, m', c)
    requires live[1] in m && live[1] in m' && m'[live[1]] == m[live[1]].(prev := None)
    ensures Chained(n, m', live[1..])
  {
    var l := live[1..];
    forall c | c in l ensures Block(n, m', c) {
      assert c in live && Block(n, m, c);
      assert c != live[1] ==> c in live[2..];
    }
    forall i, j | 0 <= i < |l| && j == i + 1 < |l| ensures Linked(m', l[i], l[j]) {
      assert Linked(m, live[i + 1], live[j + 1]);
      assert live[2..][j - 1] == live[j + 1] && Same(m, m', live[j + 1]);
      if i > 0 {
        assert live[2..][i - 1] == live[i + 1] && Same(m, m', live[i + 1]);
      }
    }
  }

  lemma DropFirstCell<T>(n: nat, m: Memory<T>, live: seq<nat>, cells: seq<Cell>, begin: Cell, end: Cell, begin': Cell)
    requires Laid(n, m, live, cells, begin, end) && cells != []
    requires Follows(n, m, begin, begin') && begin'.off < n
    requires forall b :: Follows(n, m, begin, b) ==> b == begin'
    ensures Laid(n, m, live, cells[1..], begin', end)
  {
    var cs := cells[1..];
    if cs != [] {
      assert Follows(n, m, cells[0], cells[1]);
    }
    forall i, j | 0 <= i < |cs| && j == i + 1 < |cs| ensures Follows(n, m, cs[i], cs[j]) {
      assert Follows(n, m, cells[i + 1], cells[j + 1]);
    }
  }

  /** No remaining element lies in the chunk whose last element was popped. */
  lemma RestIsBehind<T>(n: nat, m: Memory<T>, live: seq<nat>, cells: seq<Cell>, begin: Cell, end: Cell)
    requires Laid(n, m, live, cells, begin, end) && cells != [] && begin.off + 1 == n
    requires |live| > 0 && live[0] == begin.chunk
    ensures forall i :: 0 <= i < |cells[1..]| ==> cells[1..][i].chunk in live[1..]
  {
    forall i | 0 < i < |cells| ensures cells[i].chunk in live[1..] {
      assert cells[0].chunk != cells[i].chunk;
      var k :| 0 <= k < |live| && live[k] == cells[i].chunk;
      assert live[k] == live[1..][k - 1];
    }
  }

  /** The layout only depends on the links between its own chunks, the end chunk's excepted. */
  lemma Transfer<T>(n: nat, m: Memory<T>, m': Memory<T>, live: seq<nat>, live': seq<nat>,
                    cells: seq<Cell>, begin: Cell, end: Cell)
    requires Laid(n, m, live, cells, begin, end) && end.chunk in live'
    requires forall i :: 0 <= i < |cells| ==> cells[i].chunk in live'
    requires forall a: nat, b: nat :: Linked(m, a, b) && a in live' && b in live' && a != end.chunk ==> Linked(m', a, b)
    ensures Laid(n, m', live', cells, begin, end)
  {
    forall i, j | 0 <= i < |cells| && j == i + 1 < |cells| ensures Follows(n, m', cells[i], cells[j]) {
      assert Follows(n, m, cells[i], cells[j]);
    }
  }

  /** Cutting the back link of the second chunk and freeing fr leaves all links behind the first chunk. */
  lemma LinksSurvive<T>(m: Memory<T>, m': Memory<T>, live: seq<nat>, fr: Option<nat>)
    requires |live| >= 2 && Linked(m, live[0], live[1])
    requires forall i, j :: 0 <= i < j < |live| ==> live[i] != live[j]
    requires forall c :: c in m && fr != Some(c) && c != live[1] ==> Same(m, m', c)
    requires live[1] in m' && m'[live[1]] == m[live[1]].(prev := None)
    requires fr.Some? ==> fr.value !in live
    ensures forall a: nat, b: nat :: Linked(m, a, b) && a in live[1..] && b in live[1..] ==> Linked(m', a, b)
  {
    forall a: nat, b: nat | Linked(m, a, b) && a in live[1..] && b in live[1..] ensures Linked(m', a, b) {
      assert a in live && a != live[0] && b in live;
      assert a != live[1] ==> Same(m, m', a);
      assert b != live[1];
      assert Same(m, m', b);
    }
  }

  lemma PopAcrossLaid<T>(n: nat, m: Memory<T>, m': Memory<T>, live: seq<nat>, cells: seq<Cell>,
                         begin: Cell, end: Cell, fr: Option<nat>)
    requires Laid(n, m, live, cells, begin, end) && cells != [] && begin.off + 1 == n
    requires |live| >= 2 && live[0] == begin.chunk && Linked(m, live[0], live[1]) && end.chunk in live[1..]
    requires forall i, j :: 0 <= i < j < |live| ==> live[i] != live[j]
    requires forall c :: c in m && fr != Some(c) && c != live[1] ==> Same(m, m', c)
    requires live[1] in m' && m'[live[1]] == m[live[1]].(prev := None)
    requires fr.Some? ==> fr.value !in live
    ensures Laid(n, m', live[1..], cells[1..], Cell(live[1], 0), end)
  {
    var begin' := Cell(live[1], 0);
    assert Laid(n, m, live, cells[1..], begin', end) by {
      DropFirstCell(n, m, live, cells, begin, end, begin');
    }
    RestIsBehind(n, m, live, cells, begin, end);
    LinksSurvive(m, m', live, fr);
    Transfer(n, m, m', live, live[1..], cells[1..], begin', end);
  }

  lemma PopAcrossChained<T>(q: Queue<T>, q': Queue<T>)
    requires Good(q) && q.cells != [] && q.begin.off + 1 == q.n && q' == Popped(q)
    ensures Chained(q'.n, q'.mem, q'.live) && q'.live[|q'.live| - 1] == q'.end.chunk
  {
    CrossingHasNext(q);
    forall c | c in q.live[2..] ensures Same(q.mem, q'.mem, c) {
      assert c in q.live && Block(q.n, q.mem, c);
      var k :| 2 <= k < |q.live| && q.live[k] == c;
      assert q.live[1] != q.live[k];
    }
    DropFirstChunk(q.n, q.mem, q'.mem, q.live);
  }

  lemma PopAcrossAccounted<T>(q: Queue<T>, q': Queue<T>)
    requires Good(q) && q.cells != [] && q.begin.off + 1 == q.n && q' == Popped(q)
    ensures Accounted(q')
  {
    CrossingHasNext(q);
    assert Block(q.n, q.mem, q.live[0]);
    assert q.live[0] !in q'.live;
    assert q.live == [q.live[0]] + q'.live;
    assert q.live[1] in q.live;
  }

  lemma PopKeepsGood<T>(q: Queue<T>)
    requires Good(q) && q.cells != []
    ensures Good(Popped(q))
  {
    var q' := Popped(q);
    if q.begin.off + 1 != q.n {
      DropFirstCell(q.n, q.mem, q.live, q.cells, q.begin, q.end, q'.begin);
    } else {
      CrossingHasNext(q);
      assert q.live[1..][|q.live| - 2] == q.end.chunk;
      PopAcrossLaid(q.n, q.mem, q'.mem, q.live, q.cells, q.begin, q.end, q.spare);
      PopAcrossChained(q, q');
      PopAcrossAccounted(q, q');
    }
  }

  lemma PopKeepsElements<T>(q: Queue<T>)
    requires Good(q) && q.cells != []
    ensures forall i :: 0 < i < |q.cells| ==> Kept(q.mem, Popped(q).mem, q.cells[i])
  {
    var q' := Popped(q);
    forall i | 0 < i < |q.cells| ensures Kept(q.mem, q'.mem, q.cells[i]) {
      assert Block(q.n, q.mem, q.cells[i].chunk);
      if q.begin.off + 1 == q.n {
        CrossingHasNext(q);
      }
    }
  }

  // ---------------------------------------------------------------- unpush

  /** The element before the end position, when the end position opens a new chunk. */
  lemma OpenedHasPrev<T>(q: Queue<T>)
    requires Good(q) && q.cells != [] && q.end.off == 0
    ensures |q.live| >= 2
    ensures var e := q.live[|q.live| - 2];
      Linked(q.mem, e, q.end.chunk) && q.cells[|q.cells| - 1] == Cell(e, q.n - 1)
  {
    var last := q.cells[|q.cells| - 1];
    assert last.chunk != q.end.chunk;
    var k := |q.live| - 1;
    assert k > 0;
    assert Linked(q.mem, q.live[k - 1], q.live[k]);
    assert Follows(q.n, q.mem, last, q.end);
  }

  ghost function StepBack<T>(n: nat, mem: Memory<T>, c: Cell): Option<Cell>
    requires c.chunk in mem && n > 0
  {
    if c.off != 0 then Some(Cell(c.chunk, c.off - 1))
    else if mem[c.chunk].prev.Some? then Some(Cell(mem[c.chunk].prev.value, n - 1))
    else None
  }

  ghost function Unpushed<T>(q: Queue<T>): Queue<T>
    requires Good(q) && q.cells != []
  {
    assert Block(q.n, q.mem, q.cells[|q.cells| - 1].chunk);
    var q1 := q.(back := StepBack(q.n, q.mem, q.back.value), cells := q.cells[..|q.cells| - 1]);
    if q.end.off != 0 then q1.(end := Cell(q.end.chunk, q.end.off - 1))
    else
      OpenedHasPrev(q);
      assert q.end.chunk in q.mem;  // freed once
      var e := q.mem[q.end.chunk].prev.value;
      q1.(end := Cell(e, q.n - 1), live := q.live[..|q.live| - 1],
          mem := (q.mem - {q.end.chunk})[e := q.mem[e].(next := None)])
  }

  lemma DropLastCell<T>(n: nat, m: Memory<T>, live: seq<nat>, cells: seq<Cell>, begin: Cell, end: Cell)
    requires Laid(n, m, live, cells, begin, end) && cells != []
    ensures Laid(n, m, live, cells[..|cells| - 1], begin, cells[|cells| - 1])
  {
    var cs := cells[..|cells| - 1];
    forall i, j | 0 <= i < |cs| && j == i + 1 < |cs| ensures Follows(n, m, cs[i], cs[j]) {
      assert Follows(n, m, cells[i], cells[j]);
    }
    if cs != [] {
      assert Follows(n, m, cells[|cs| - 1], cells[|cs|]);
    }
  }

  lemma DropLastChunk<T>(n: nat, m: Memory<T>, m': Memory<T>, live: seq<nat>)
    requires Chained(n, m, live) && |live| >= 2
    requires var e := live[|live| - 2]; e in m && e in m' && m'[e] == m[e].(next := None)
    requires forall c :: c in m && c != live[|live| - 2] && c != live[|live| - 1] ==> Same(m, m', c)
    ensures Chained(n, m', live[..|live| - 1])
    ensures forall a: nat, b: nat | a in live[..|live| - 1] && b in live[..|live| - 1] && a != live[|live| - 2] ::
              Linked(m, a, b) ==> Linked(m', a, b)
  {
    var l := live[..|live| - 1];
    forall c | c in l ensures Block(n, m', c) {
      assert c in live && Block(n, m, c);
      assert c != live[|live| - 2] ==> Same(m, m', c);
    }
    forall i, j | 0 <= i < |l| && j == i + 1 < |l| ensures Linked(m', l[i], l[j]) {
      assert Linked(m, live[i], live[j]) && live[i] != live[|live| - 2] && Same(m, m', live[i]);
      assert live[j] != live[|live| - 2] ==> Same(m, m', live[j]);
    }
  }

  /** Every remaining element lies in the chunks before the one being freed. */
  lemma RestIsBefore<T>(n: nat, m: Memory<T>, live: seq<nat>, cells: seq<Cell>, begin: Cell, end: Cell)
    requires Laid(n, m, live, cells, begin, end) && end.off == 0
    requires |live| > 0 && live[|live| - 1] == end.chunk
    ensures forall i :: 0 <= i < |cells| ==> cells[i].chunk in live[..|live| - 1]
  {
    forall i | 0 <= i < |cells| ensures cells[i].chunk in live[..|live| - 1] {
      var k :| 0 <= k < |live| && live[k] == cells[i].chunk;
      assert live[k] == live[..|live| - 1][k];
    }
  }

  lemma UnpushMovesBack<T>(q: Queue<T>)
    requires Good(q) && q.cells != []
    ensures Unpushed(q).end == q.cells[|q.cells| - 1]
    ensures |q.cells| > 1 ==> Unpushed(q).back == Some(q.cells[|q.cells| - 2])
  {
    var k := |q.cells| - 1;
    assert Follows(q.n, q.mem, q.cells[k], q.end);
    if k > 0 {
      assert Follows(q.n, q.mem, q.cells[k - 1], q.cells[k]);
    }
    if q.end.off == 0 {
      OpenedHasPrev(q);
    }
  }

  lemma UnpushAcrossLaid<T>(n: nat, m: Memory<T>, m': Memory<T>, live: seq<nat>, cells: seq<Cell>,
                            begin: Cell, end: Cell)
    requires Laid(n, m, live, cells, begin, end) && cells != [] && end.off == 0
    requires |live| >= 2 && live[|live| - 1] == end.chunk && live[|live| - 2] == cells[|cells| - 1].chunk
    requires forall a: nat, b: nat | a in live[..|live| - 1] && b in live[..|live| - 1] && a != live[|live| - 2] ::
              Linked(m, a, b) ==> Linked(m', a, b)
    ensures Laid(n, m', live[..|live| - 1], cells[..|cells| - 1], begin, cells[|cells| - 1])
  {
    RestIsBefore(n, m, live, cells, begin, end);
    DropLastCell(n, m, live, cells, begin, end);
    assert live[..|live| - 1][|live| - 2] == live[|live| - 2];
    Transfer(n, m, m', live, live[..|live| - 1], cells[..|cells| - 1], begin, cells[|cells| - 1]);
  }

  /** q' is q without its last cell and last chunk. */
  ghost predicate LastChunkLeft<T>(q: Queue<T>, q': Queue<T>) {
    && |q.live| >= 2 && q.cells != [] && q.end.off == 0 && q.live[|q.live| - 1] == q.end.chunk
    && var e := q.live[|q.live| - 2];
    && q.cells[|q.cells| - 1].chunk == e && e in q.mem && e in q'.mem && q'.mem[e] == q.mem[e].(next := None)
    && (forall c :: c in q.mem && c != e && c != q.end.chunk ==> Same(q.mem, q'.mem, c))
    && q'.n == q.n && q'.begin == q.begin && q'.end == q.cells[|q.cells| - 1]
    && q'.live == q.live[..|q.live| - 1] && q'.cells == q.cells[..|q.cells| - 1]
  }

  lemma UnpushLeavesChunk<T>(q: Queue<T>, q': Queue<T>)
    requires Good(q) && q.cells != [] && q.end.off == 0 && q' == Unpushed(q)
    ensures LastChunkLeft(q, q')
  {
    OpenedHasPrev(q);
  }

  lemma UnpushAcrossKeepsGood<T>(q: Queue<T>, q': Queue<T>)
    requires Chained(q.n, q.mem, q.live) && Laid(q.n, q.mem, q.live, q.cells, q.begin, q.end) && LastChunkLeft(q, q')
    ensures Chained(q'.n, q'.mem, q'.live) && Laid(q'.n, q'.mem, q'.live, q'.cells, q'.begin, q'.end)
  {
    DropLastChunk(q.n, q.mem, q'.mem, q.live);
    UnpushAcrossLaid(q.n, q.mem, q'.mem, q.live, q.cells, q.begin, q.end);
  }

  lemma UnpushKeepsGood<T>(q: Queue<T>)
    requires Good(q) && q.cells != []
    ensures Good(Unpushed(q))
  {
    var q' := Unpushed(q);
    UnpushMovesBack(q);
    if q.end.off != 0 {
      DropLastCell(q.n, q.mem, q.live, q.cells, q.begin, q.end);
    } else {
      UnpushLeavesChunk(q, q');
      UnpushAcrossKeepsGood(q, q');
      OpenedHasPrev(q);
      UnpushAccounted(q, q');
    }
  }

  lemma UnpushAccounted<T>(q: Queue<T>, q': Queue<T>)
    requires Good(q) && q.cells != [] && q.end.off == 0 && q' == Unpushed(q)
    ensures Accounted(q')
  {
    OpenedHasPrev(q);
    var k := |q.live| - 1;
    assert q.live == q'.live + [q.end.chunk];
    assert q.end.chunk !in q'.live;
    assert q.live[k - 1] in q.live;
  }

  lemma UnpushKeepsElements<T>(q: Queue<T>)
    requires Good(q) && q.cells != []
    ensures forall i :: 0 <= i < |q.cells| - 1 ==> Kept(q.mem, Unpushed(q).mem, q.cells[i])
  {
    var q' := Unpushed(q);
    forall i | 0 <= i < |q.cells| - 1 ensures Kept(q.mem, q'.mem, q.cells[i]) {
      assert Block(q.n, q.mem, q.cells[i].chunk);
      if q.end.off == 0 {
        OpenedHasPrev(q);
        assert q.cells[i].chunk != q.end.chunk;
      }
    }
  }

  // ---------------------------------------------------------------- what the queue means

  lemma ElementsExist<T>(q: Queue<T>)
    requires Good(q)
    ensures forall i :: 0 <= i < |q.cells| ==> HasValue(q.mem, q.cells[i])
  {
    forall i | 0 <= i < |q.cells| ensures HasValue(q.mem, q.cells[i]) {
      assert Block(q.n, q.mem, q.cells[i].chunk);
    }
  }

  /** The plain sequence the queue stands for. */
  ghost function Elements<T>(q: Queue<T>): (s: seq<T>)
    requires Good(q)
    ensures |s| == |q.cells|
  {
    ElementsExist(q);
    seq(|q.cells|, i requires 0 <= i < |q.cells| => Value(q.mem, q.cells[i]))
  }

  /** Distinct live elements have distinct addresses: comparing pointers compares positions. */
  lemma PointersArePositions<T>(q: Queue<T>, i: nat, j: nat)
    requires Good(q) && i < |q.cells| && j < |q.cells|
    ensures q.cells[i] == q.cells[j] <==> i == j
  {
    if i < j {
      assert q.cells[i].chunk == q.cells[j].chunk ==> q.cells[i].off < q.cells[j].off;
    } else if j < i {
      assert q.cells[j].chunk == q.cells[i].chunk ==> q.cells[j].off < q.cells[i].off;
    }
  }

  /** Unpush undoes push, across chunk boundaries too: positions, addresses and elements are back. */
  lemma UnpushUndoesPush<T>(q: Queue<T>, garbage: seq<T>)
    requires Good(q) && |garbage| == q.n
    ensures Good(Pushed(q, garbage)) && Good(Unpushed(Pushed(q, garbage)))
    ensures var u := Unpushed(Pushed(q, garbage));
      && u.cells == q.cells && u.begin == q.begin && u.end == q.end
      && Elements(u) == Elements(q)
      && (q.cells != [] ==> u.back == q.back)
  {
    var p := Pushed(q, garbage);
    PushMeaning(q, garbage);
    UnpushMeaning(p);
    PushAppends(q, garbage);
    UnpushDrops(p);
    UnpushMovesBack(p);
    SamePrefix(q, Unpushed(p), p);
    if q.cells != [] {
      BackIsLast(q);
    }
  }

  lemma PushAppends<T>(q: Queue<T>, garbage: seq<T>)
    requires Good(q) && |garbage| == q.n
    ensures Pushed(q, garbage).cells == q.cells + [q.end] && Pushed(q, garbage).begin == q.begin
  {
  }

  lemma UnpushDrops<T>(q: Queue<T>)
    requires Good(q) && q.cells != []
    ensures Unpushed(q).cells == q.cells[..|q.cells| - 1] && Unpushed(q).begin == q.begin
  {
  }

  lemma BackIsLast<T>(q: Queue<T>)
    requires Good(q) && q.cells != []
    ensures q.back == Some(q.cells[|q.cells| - 1])
  {
  }

  lemma SamePrefix<T>(q: Queue<T>, u: Queue<T>, p: Queue<T>)
    requires Good(q) && Good(u) && Good(p) && PrefixKept(q, p) && PrefixKept(u, p) && |q.cells| == |u.cells|
    ensures q.cells == u.cells && Elements(q) == Elements(u)
  {
    assert |Elements(q)| == |q.cells| && |Elements(u)| == |u.cells|;
  }

  ghost predicate PrefixKept<T>(q: Queue<T>, q': Queue<T>)
    requires Good(q) && Good(q')
  {
    q.cells <= q'.cells && Elements(q) <= Elements(q')
  }

  lemma PushMeaning<T>(q: Queue<T>, garbage: seq<T>)
    requires Good(q) && |garbage| == q.n
    ensures Good(Pushed(q, garbage)) && PrefixKept(q, Pushed(q, garbage))
  {
    PushKeepsGood(q, garbage);
    PushKeepsElements(q, garbage);
    var p := Pushed(q, garbage);
    forall i | 0 <= i < |q.cells| ensures Elements(p)[i] == Elements(q)[i] {
      assert Kept(q.mem, p.mem, q.cells[i]);
    }
  }

  lemma UnpushMeaning<T>(q: Queue<T>)
    requires Good(q) && q.cells != []
    ensures Good(Unpushed(q)) && PrefixKept(Unpushed(q), q)
  {
    UnpushKeepsGood(q);
    UnpushKeepsElements(q);
    var p := Unpushed(q);
    forall i | 0 <= i < |p.cells| ensures Elements(p)[i] == Elements(q)[i] {
      assert Kept(q.mem, p.mem, q.cells[i]);
    }
  }

  lemma PopMeaning<T>(q: Queue<T>)
    requires Good(q) && q.cells != []
    ensures Good(Popped(q)) && Elements(Popped(q)) == Elements(q)[1..]
  {
    PopKeepsGood(q);
    PopKeepsElements(q);
    var p := Popped(q);
    forall i | 0 <= i < |p.cells| ensures Elements(p)[i] == Elements(q)[i + 1] {
      assert Kept(q.mem, p.mem, q.cells[i + 1]);
    }
  }

  /** Storing through the back pointer changes the last element and nothing else. */
  lemma SetMeaning<T>(q: Queue<T>, q': Queue<T>, v: T)
    requires Good(q) && q.cells != [] && HasValue(q.mem, q.cells[|q.cells| - 1])
    requires var c := q.cells[|q.cells| - 1];
      q' == q.(mem := q.mem[c.chunk := q.mem[c.chunk].(values := q.mem[c.chunk].values[c.off := v])])
    ensures Good(q') && Elements(q') == Elements(q)[|q.cells| - 1 := v]
  {
    var k := |q.cells| - 1;
    assert forall a: nat, b: nat :: Linked(q.mem, a, b) ==> Linked(q'.mem, a, b);
    assert forall c :: Block(q.n, q.mem, c) ==> Block(q.n, q'.mem, c);
    LinksDecideLayout(q, q');
    ElementsExist(q);
    forall i | 0 <= i < |q.cells| ensures Elements(q')[i] == Elements(q)[k := v][i] {
      PointersArePositions(q, i, k);
    }
  }

  lemma LinksDecideLayout<T>(q: Queue<T>, q': Queue<T>)
    requires Good(q) && q' == q.(mem := q'.mem) && q'.mem.Keys == q.mem.Keys
    requires forall a: nat, b: nat :: Linked(q.mem, a, b) ==> Linked(q'.mem, a, b)
    requires forall c :: Block(q.n, q.mem, c) ==> Block(q.n, q'.mem, c)
    ensures Good(q')
  {
    assert q.live[|q.live| - 1] in q.live;
    Transfer(q.n, q.mem, q'.mem, q.live, q.live, q.cells, q.begin, q.end);
  }

  ghost function FirstOf(live: seq<nat>, i: nat): set<nat>
    requires i <= |live|
  {
    set c | c in live[..i]
  }

  /** A chunk of the chain is still there when the ones before it are freed. */
  lemma FreeOne<T>(m: Memory<T>, live: seq<nat>, i: nat)
    requires i < |live| && live[i] in m && forall a, b :: 0 <= a < b < |live| ==> live[a] != live[b]
    ensures Same(m, m - FirstOf(live, i), live[i])
    ensures m - FirstOf(live, i) - {live[i]} == m - FirstOf(live, i + 1)
  {
    assert FirstOf(live, i + 1) == FirstOf(live, i) + {live[i]};
  }

  lemma NothingIsLeft<T>(q: Queue<T>, mem: Memory<T>)
    requires Accounted(q)
    requires mem == q.mem - FirstOf(q.live, |q.live|) - (if q.spare.Some? then {q.spare.value} else {})
    ensures mem == map[]
  {
    assert q.live[..|q.live|] == q.live;
    assert forall c :: c !in mem;
  }

  class YQueue<T(0)> {
    const N: nat
    var mem: Memory<T>
    var nextId: nat         // identities from here on were never handed out by malloc
    var begin: Cell         // begin_chunk, begin_pos
    var back: Option<Cell>  // back_chunk, back_pos
    var end: Cell           // end_chunk, end_pos
    var spare: Option<nat>
    ghost var live: seq<nat>
    ghost var cells: seq<Cell>

    ghost function State(): Queue<T>
      reads this
    {
      Queue(N, mem, nextId, begin, back, end, spare, live, cells)
    }

    ghost predicate Valid()
      reads this
    {
      Good(State())
    }

    constructor (n: nat)
      requires n > 0
      ensures Valid() && N == n && Elements(State()) == []
    {
      N := n;
      var garbage: T := *;
      mem, nextId := map[0 := Chunk(seq(n, _ => garbage), None, None)], 1;
      begin, back, end, spare := Cell(0, 0), None, Cell(0, 0), None;
      live, cells := [0], [];
    }

    method Front() returns (v: T)
      requires Valid() && cells != []
      ensures v == Elements(State())[0]
    {
      assert Block(N, mem, cells[0].chunk);
      v := mem[begin.chunk].values[begin.off];
    }

    /** Appends one element; `garbage` is what a newly allocated chunk happens to hold. */
    method Push(garbage: seq<T>)
      requires Valid() && |garbage| == N
      modifies this
      ensures Valid() && State() == Pushed(old(State()), garbage)
      ensures PrefixKept(old(State()), State())
    {
      ghost var q := State();
      EndIsNotObtained(q);
      var last := end;
      if end.off + 1 != N {
        end := Cell(end.chunk, end.off + 1);
      } else {
        var sc := spare;
        spare := None;
        if sc.None? {
          mem := mem[nextId := Chunk(garbage, None, None)];
          sc := Some(nextId);
          nextId := nextId + 1;
        }
        mem := LinkedMemory(mem, end.chunk, sc.value);
        end := Cell(sc.value, 0);
        live := live + [sc.value];
      }
      back := Some(last);
      cells := cells + [last];
      assert State() == Pushed(q, garbage);
      PushMeaning(q, garbage);
    }

    method SetBack(v: T)
      requires Valid() && cells != []
      modifies this
      ensures Valid() && cells == old(cells)
      ensures Elements(State()) == old(Elements(State()))[|cells| - 1 := v]
    {
      ghost var q := State();
      ElementsExist(q);
      var c := back.value;
      mem := mem[c.chunk := mem[c.chunk].(values := mem[c.chunk].values[c.off := v])];
      SetMeaning(q, State(), v);
    }

    /** Removes the last element: the addresses and contents of all others stay as they were. */
    method Unpush()
      requires Valid() && cells != []
      modifies this
      ensures Valid() && State() == Unpushed(old(State()))
      ensures PrefixKept(State(), old(State())) && |cells| == |old(cells)| - 1
    {
      ghost var q := State();
      assert Block(N, mem, cells[|cells| - 1].chunk);
      var b := back.value;
      back := if b.off != 0 then Some(Cell(b.chunk, b.off - 1))
              else if mem[b.chunk].prev.Some? then Some(Cell(mem[b.chunk].prev.value, N - 1))
              else None;
      if end.off != 0 {
        end := Cell(end.chunk, end.off - 1);
      } else {
        OpenedHasPrev(q);
        var oldEnd := end.chunk;
        var e := mem[oldEnd].prev.value;
        assert oldEnd in mem;  // freed once
        mem := (mem - {oldEnd})[e := mem[e].(next := None)];
        end := Cell(e, N - 1);
        live := live[..|live| - 1];
      }
      cells := cells[..|cells| - 1];
      assert State() == Unpushed(q);
      UnpushMeaning(q);
    }

    /** Removes the first element; an emptied chunk replaces the spare, and the old spare is freed. */
    method Pop()
      requires Valid() && cells != []
      modifies this
      ensures Valid() && State() == Popped(old(State()))
      ensures cells == old(cells)[1..] && Elements(State()) == old(Elements(State()))[1..]
    {
      ghost var q := State();
      if begin.off + 1 != N {
        begin := Cell(begin.chunk, begin.off + 1);
      } else {
        CrossingHasNext(q);
        var o := begin.chunk;
        var nb := mem[o].next.value;
        mem := mem[nb := mem[nb].(prev := None)];
        begin := Cell(nb, 0);
        var cs := spare;
        spare := Some(o);
        if cs.Some? {
          assert cs.value in mem;  // freed once
          mem := mem - {cs.value};
        }
        live := live[1..];
      }
      cells := cells[1..];
      assert State() == Popped(q);
      PopMeaning(q);
    }

    /** The destructor: whatever the queue went through, it frees every chunk that is still allocated, each
        once, and follows no link of a freed one. */
    method Destroy()
      requires Valid()
      modifies this
      ensures mem == map[] && spare == None
    {
      ghost var q := State();
      FreeChain();
      var sc := spare;
      spare := None;
      if sc.Some? {
        assert sc.value in mem;  // freed once
        mem := mem - {sc.value};
      }
      NothingIsLeft(q, mem);
    }

    /** Its loop. */
    method FreeChain()
      requires Chained(N, mem, live) && begin.chunk == live[0] && end.chunk == live[|live| - 1]
      modifies `mem, `begin
      ensures mem == old(mem) - FirstOf(live, |live|)
    {
      ghost var m, i := mem, 0;
      while begin.chunk != end.chunk
        invariant 0 <= i < |live| && begin.chunk == live[i]
        invariant mem == m - FirstOf(live, i)
        decreases |live| - i
      {
        assert Linked(m, live[i], live[i + 1]);
        FreeOne(m, live, i);
        var o := begin.chunk;
        assert o in mem;  // freed once
        begin := Cell(mem[o].next.value, begin.off);
        mem := mem - {o};
        i := i + 1;
      }
      assert i == |live| - 1 && Block(N, m, live[i]);
      FreeOne(m, live, i);
      assert begin.chunk in mem;  // freed once
      mem := mem - {begin.chunk};
    }
  }
}
