/**
 * The sliding window of src/rules/_window.py: a `deque(maxlen=size)` of
 * floats. Appending to a full deque drops its oldest entry; a deque whose
 * maxlen is 0 stays empty.
 */
module SlidingWindow {
  import opened Values

  /** The last `capacity` entries of `s` (all of `s` when it is shorter). */
  function Latest(s: seq<Value>, capacity: nat): (r: seq<Value>)
    ensures |r| == if |s| <= capacity then |s| else capacity
    ensures r == s[|s| - |r|..]
  {
    if |s| <= capacity then s else s[|s| - capacity..]
  }

  /** One `append` onto a deque with the given maxlen. */
  function Slide(buf: seq<Value>, capacity: nat, v: Value): (r: seq<Value>)
    requires |buf| <= capacity
    ensures |r| == if |buf| + 1 <= capacity then |buf| + 1 else capacity
    ensures |buf| < capacity ==> r == buf + [v]
    ensures 0 < capacity == |buf| ==> r == buf[1..] + [v]
  {
    Latest(buf + [v], capacity)
  }

  /** `ready()`: full, and not empty (so a maxlen-0 window is never ready). */
  predicate IsReady(buf: seq<Value>, capacity: nat)
  {
    |buf| == capacity && |buf| > 0
  }

  /** The contents after pushing `vs` in order onto an empty window. */
  function Fill(capacity: nat, vs: seq<Value>): (r: seq<Value>)
    ensures |r| <= capacity
  {
    if vs == [] then [] else Slide(Fill(capacity, vs[..|vs| - 1]), capacity, vs[|vs| - 1])
  }

  lemma LatestOfPush(s: seq<Value>, capacity: nat, v: Value)
    ensures Latest(Latest(s, capacity) + [v], capacity) == Latest(s + [v], capacity)
  {
    if |s| > capacity && capacity > 0 {
      var t := s[|s| - capacity..];
      calc {
        Latest(t + [v], capacity);
        (t + [v])[1..];
        { assert (t + [v])[1..] == t[1..] + [v]; }
        t[1..] + [v];
        { assert t[1..] == s[|s| + 1 - capacity..]; }
        s[|s| + 1 - capacity..] + [v];
        { assert (s + [v])[|s| + 1 - capacity..] == s[|s| + 1 - capacity..] + [v]; }
        Latest(s + [v], capacity);
      }
    }
  }

  /** A window holds exactly the most recent `capacity` values pushed since it
      was empty, oldest first. */
  lemma {:induction false} FillKeepsLatest(capacity: nat, vs: seq<Value>)
    ensures Fill(capacity, vs) == Latest(vs, capacity)
  {
    if vs != [] {
      var init, last := vs[..|vs| - 1], vs[|vs| - 1];
      assert init + [last] == vs;
      calc {
        Fill(capacity, vs);
        Slide(Fill(capacity, init), capacity, last);
        { FillKeepsLatest(capacity, init); }
        Slide(Latest(init, capacity), capacity, last);
        Latest(Latest(init, capacity) + [last], capacity);
        { LatestOfPush(init, capacity, last); }
        Latest(vs, capacity);
      }
    }
  }

  /** After exactly `capacity` pushes from empty, a window of capacity at least 1
      is ready and holds every value pushed. */
  lemma ReadyAfterCapacityPushes(capacity: nat, vs: seq<Value>)
    requires capacity >= 1 && |vs| == capacity
    ensures IsReady(Fill(capacity, vs), capacity)
    ensures Fill(capacity, vs) == vs
  {
    FillKeepsLatest(capacity, vs);
  }

  /** Fewer pushes than the capacity leave the window not ready. */
  lemma NotReadyBeforeCapacity(capacity: nat, vs: seq<Value>)
    requires |vs| < capacity
    ensures !IsReady(Fill(capacity, vs), capacity)
    ensures Fill(capacity, vs) == vs
  {
    FillKeepsLatest(capacity, vs);
  }

  /** One push more than the capacity keeps the length at the capacity and
      evicts the first value, so the oldest entry is the second value pushed. */
  lemma OverflowEvictsFirst(capacity: nat, vs: seq<Value>)
    requires capacity >= 1 && |vs| == capacity + 1
    ensures |Fill(capacity, vs)| == capacity
    ensures Fill(capacity, vs) == vs[1..]
    ensures Fill(capacity, vs)[0] == vs[1]
  {
    FillKeepsLatest(capacity, vs);
  }

  /** `Window`: its maxlen is fixed at construction; only `push` and `reset`
      change its buffer. */
  class Window {
    const capacity: nat
    var buf: seq<Value>

    ghost predicate Valid()
      reads this
    {
      |buf| <= capacity
    }

    /** `Window.from_cfg(size)` */
    constructor (size: nat)
      ensures Valid()
      ensures capacity == size && buf == []
    {
      capacity := size;
      buf := [];
    }

    /** `push`: append, evicting the oldest value when full; NaN is stored too. */
    method Push(v: Value)
      requires Valid()
      modifies this`buf
      ensures Valid()
      ensures buf == Slide(old(buf), capacity, v)
    {
      buf := Latest(buf + [v], capacity);
    }

    /** `ready()` */
    function Ready(): (r: bool)
      reads this
      ensures r <==> IsReady(buf, capacity)
    {
      |buf| == capacity && |buf| > 0
    }

    /** `values()`: a snapshot of the buffer, oldest first. */
    function Values(): (r: seq<Value>)
      reads this
      ensures r == buf
    {
      buf
    }

    /** `reset()`: empty the buffer; the capacity is a constant. */
    method Reset()
      modifies this`buf
      ensures Valid()
      ensures buf == []
    {
      buf := [];
    }
  }
}
