/** The lock-free pipe of src/control_channel/ypipe.hpp.

    Pointers into the pipe's queue are modelled as positions in the sequence of all items
    ever written; the terminator element sits at position |items|.  Module YQueue shows that
    positions of live elements and their addresses are in one-to-one correspondence. */
module Pipe {

  datatype Ptr = Null | At(pos: nat)

  datatype PipeState<T> = PipeState(
    items: seq<T>,   // every element written and not unwritten, read ones included
    front: nat,      // reader: first unread element
    r: Ptr,          // reader: first element not prefetched
    w: nat,          // writer: first unflushed element
    f: nat,          // writer: first element to be flushed in the future
    c: Ptr           // shared: past the last flushed element, or Null when the reader sleeps
  )

  function Empty<T>(): PipeState<T> {
    PipeState([], 0, At(0), 0, 0, At(0))
  }

  function Written<T>(p: PipeState<T>, value: T, incomplete: bool): PipeState<T> {
    p.(items := p.items + [value], f := if incomplete then p.f else |p.items| + 1)
  }

  function Unwritten<T>(p: PipeState<T>): PipeState<T> {
    if p.f == |p.items| || p.items == [] then p else p.(items := p.items[..|p.items| - 1])
  }

  /** The writer's compare-and-swap succeeds exactly when the reader has not gone to sleep. */
  predicate CasWins<T>(p: PipeState<T>) {
    p.c == At(p.w)
  }

  /** c becomes f and w follows: the effect of a successful swap, and of `c.set (f)` after a failed one. */
  function Published<T>(p: PipeState<T>): PipeState<T> {
    p.(c := At(p.f), w := p.f)
  }

  predicate Prefetched<T>(p: PipeState<T>) {
    p.r != At(p.front) && p.r.At?
  }

  /** `r = c.cas (&queue.front (), NULL)`: fetch the flushed bound, or fall asleep. */
  function Fetched<T>(p: PipeState<T>): PipeState<T> {
    p.(r := p.c, c := if p.c == At(p.front) then Null else p.c)
  }

  function Checked<T>(p: PipeState<T>): PipeState<T> {
    if Prefetched(p) then p else Fetched(p)
  }

  function Popped<T>(p: PipeState<T>): PipeState<T> {
    p.(front := p.front + 1)
  }

  /** The invariant every pipe operation keeps: front <= r <= c == w <= f <= |items|, and a
      sleeping reader has read all that was flushed.  A reader that polls again while it is
      asleep fetches the Null word itself, so r may be Null here; module Mailbox shows that the
      mailbox never polls that way. */
  ghost predicate PipeInv<T>(p: PipeState<T>) {
    && p.front <= p.w <= p.f <= |p.items|
    && (p.r.At? ==> p.front <= p.r.pos <= p.w)
    && (p.c.At? ==> p.c.pos == p.w)
    && (p.c.Null? ==> p.front == p.w)
  }

  class YPipe<T(0)> {
    var items: seq<T>
    var front: nat
    var r: Ptr
    var w: nat
    var f: nat
    var c: Ptr

    ghost function State(): PipeState<T>
      reads this
    {
      PipeState(items, front, r, w, f, c)
    }

    ghost predicate Valid()
      reads this
    {
      PipeInv(State())
    }

    constructor ()
      ensures Valid() && State() == Empty<T>()
    {
      items, front, r, w, f, c := [], 0, At(0), 0, 0, At(0);
    }

    method Write(value: T, incomplete: bool)
      requires Valid()
      modifies this
      ensures Valid() && State() == Written(old(State()), value, incomplete)
      // an incomplete item stays behind the flush bound
      ensures incomplete ==> f == old(f)
    {
      items := items + [value];
      if !incomplete {
        f := |items|;
      }
    }

    /** Takes back the last item if it is incomplete.  A flushed or read item is never taken back. */
    method Unwrite() returns (ok: bool, value: T)
      requires Valid()
      modifies this
      ensures Valid() && State() == Unwritten(old(State()))
      ensures ok <==> old(f) < |old(items)|
      ensures ok ==> items + [value] == old(items) && f <= |items|
      ensures !ok ==> State() == old(State())
    {
      value := *;
      if f == |items| {
        ok := false;
      } else {
        ok, value := true, items[|items| - 1];
        items := items[..|items| - 1];
      }
    }

    /** Publishes all complete items.  The result is false exactly when there was something to
        publish and the reader was asleep; afterwards nothing complete is left unflushed and the
        reader's word is awake again if anything was published. */
    method Flush() returns (ok: bool)
      requires Valid()
      modifies this
      ensures Valid()
      ensures State() == if old(w) == old(f) then old(State()) else Published(old(State()))
      ensures ok <==> old(w) == old(f) || old(c).At?
    {
      if w == f {
        return true;
      }
      var seen := c;
      if seen == At(w) {
        c := At(f);
      }
      if seen != At(w) {
        c := At(f);
        w := f;
        return false;
      }
      w := f;
      return true;
    }

    /** True exactly when a flushed item is unread; when false the reader has put itself to sleep. */
    method CheckRead() returns (ok: bool)
      requires Valid()
      modifies this
      ensures Valid() && State() == Checked(old(State()))
      ensures ok <==> front < w
      ensures ok ==> Prefetched(State())
      ensures !ok ==> c == Null
    {
      if r != At(front) && r.At? {
        return true;
      }
      var seen := c;
      if c == At(front) {
        c := Null;
      }
      r := seen;
      if At(front) == r || !r.At? {
        return false;
      }
      return true;
    }

    /** Returns the oldest unread flushed item, or reports none and leaves the reader asleep. */
    method Read() returns (ok: bool, value: T)
      requires Valid()
      modifies this
      ensures Valid()
      ensures ok <==> old(front) < old(w)
      ensures State() == if ok then Popped(Checked(old(State()))) else Checked(old(State()))
      ensures ok ==> front == old(front) + 1 <= |items| && value == items[old(front)]
      ensures !ok ==> c == Null
    {
      value := *;
      ok := CheckRead();
      if !ok {
        return;
      }
      value := items[front];
      front := front + 1;
    }
  }
}
