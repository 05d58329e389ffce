/** The node-ring backend.  The source preallocates `size` nodes linked
    head -> ... -> tail -> head and keeps `start` and `end` as references
    to nodes.  Here the nodes live in an arena indexed by node number: the
    value slots in an array, which `add` overwrites in place, and the
    links in a sequence, `next[i]` being the index of node `i`'s
    successor; a cursor is the index of the node it refers to.  Node `i`
    is the `i`-th node allocated, so the ring always links `i` to
    `(i + 1) mod size`.  A null reference (the head and both cursors of a
    ring with no nodes) is index 0 of an empty arena. */
module ListBackend {
  import opened RingSpec

  /** Every node links to the next one in allocation order, the last
      back to the first. */
  ghost predicate IsRing(next: seq<nat>)
  {
    forall i {:trigger next[i]} :: 0 <= i < |next| ==> next[i] == Succ(i, |next|)
  }

  /** The node reached from node `i` by following `k` links. */
  ghost function Follow(next: seq<nat>, i: nat, k: nat): (j: nat)
    requires IsRing(next) && i < |next|
    ensures j < |next|
    decreases k
  {
    if k == 0 then i else next[Follow(next, i, k - 1)]
  }

  /** Walking a ring of `n` nodes `k` links from node `i` reaches node
      `(i + k) mod n`; in particular `n` links from the head lead back to
      the head. */
  lemma {:induction false} FollowIsMod(next: seq<nat>, i: nat, k: nat)
    requires IsRing(next) && i < |next|
    ensures Follow(next, i, k) == (i + k) % |next|
    ensures Follow(next, i, k) == Advance(i, k, |next|)
    decreases k
  {
    if k == 0 {
      ModUnique(i, |next|, 0, i);
    } else {
      FollowIsMod(next, i, k - 1);
      SuccOfMod(i + k - 1, |next|);
      AdvanceIsMod(i, k, |next|);
    }
  }

  /** `circular_singly_linked_list`: `size` nodes, `head` the first and
      `tail` the last allocated.  Node `i` has its value slot in
      `values[i]` and its successor's index in `next[i]`. */
  class CircularList<T(0)> {
    var size: nat
    var values: array<T>
    var next: seq<nat>
    var head: nat
    var tail: nat

    /** The object invariant: one node per slot of the arena, linked into
        one cycle from `head` (node 0) to `tail` and back. */
    ghost predicate Valid()
      reads this
    {
      && values.Length == size
      && |next| == size
      && head == 0
      && tail == (if size == 0 then 0 else size - 1)
      && IsRing(next)
    }

    /** `circular_singly_linked_list()`: no nodes. */
    constructor Empty()
      ensures Valid() && fresh(values) && size == 0
    {
      size := 0;
      values := new T[0];
      next := [];
      head, tail := 0, 0;
    }

    /** `circular_singly_linked_list(size)`: allocates the head, then each
        further node as the successor of the previous one, and closes the
        cycle by linking the tail back to the head. */
    constructor (size: nat)
      ensures Valid() && fresh(values) && this.size == size
      ensures size > 0 ==> next[tail] == head
      ensures size > 0 ==> Follow(next, head, size) == head
    {
      var links := new nat[size];
      if size > 0 {
        var curr := 0;
        var n := 1;
        while n < size
          invariant 1 <= n <= size && curr == n - 1
          invariant forall i :: 0 <= i < n - 1 ==> links[i] == i + 1
        {
          links[curr] := n;
          curr := links[curr];
          n := n + 1;
        }
        links[curr] := 0;
        FollowIsMod(links[..], 0, size);
        ModUnique(size, size, 1, 0);
        tail := curr;
      } else {
        tail := 0;
      }
      this.size := size;
      values := new T[size];
      next := links[..];
      head := 0;
    }

    /** `csll_copy(other)`: `other.size` fresh nodes holding `other`'s
        values in cycle order from the head. */
    method CopyFrom(other: CircularList<T>)
      requires other.Valid() && other != this
      modifies this
      ensures Valid() && fresh(values)
      ensures size == other.size && values[..] == other.values[..]
    {
      size := other.size;
      values := new T[other.size];
      head := 0;
      if other.size == 0 {
        next := [];
        tail := 0;
      } else {
        var links := new nat[other.size];
        values[head] := other.values[other.head];
        var curr := head;
        var curr2 := other.head;
        var n := 1;
        while n < other.size
          modifies values, links
          invariant 1 <= n <= other.size == values.Length == links.Length
          invariant curr == n - 1 && curr2 == n - 1
          invariant forall i :: 0 <= i < n - 1 ==> links[i] == i + 1
          invariant forall i :: 0 <= i < n ==> values[i] == other.values[i]
        {
          links[curr] := n;
          values[n] := other.values[other.next[curr2]];
          curr := links[curr];
          curr2 := other.next[curr2];
          n := n + 1;
        }
        tail := curr;
        links[tail] := head;
        next := links[..];
      }
    }

    /** `csll_move(other)`: takes over `other`'s nodes.  `other` keeps its
        old `size` but no longer has nodes; every caller then overwrites
        or discards it. */
    method MoveFrom(other: CircularList<T>)
      requires other.Valid() && other != this
      modifies this, other
      ensures Valid()
      ensures size == old(other.size) && values == old(other.values) && next == old(other.next)
      ensures head == old(other.head) && tail == old(other.tail)
      ensures other.size == old(other.size) && fresh(other.values)
      ensures other.values.Length == 0 && other.next == []
      ensures other.head == 0 && other.tail == 0
    {
      size := other.size;
      values, other.values := other.values, new T[0];
      next, other.next := other.next, [];
      head, other.head := other.head, 0;
      tail, other.tail := other.tail, 0;
    }
  }

  /** `list_circular_buffer`: a ring of nodes, cursors `start` (oldest
      element) and `end` (next write), and `full`. */
  class ListCircularBuffer<T(0)> {
    const list: CircularList<T>
    var start: nat
    var end: nat
    var full: bool

    /** The object invariant: a well-formed ring and cursors placed on it. */
    ghost predicate Valid()
      reads this, list, list.values
    {
      list.Valid() && Placed(list.size, start, end, full)
    }

    /** The buffer's contents, oldest first. */
    ghost function Contents(): (s: seq<T>)
      reads this, list, list.values
      requires Valid()
      ensures |s| <= list.size
    {
      Window(list.values[..], start, end, full)
    }

    /** `list_circular_buffer()`: no nodes, null cursors, not full. */
    constructor Empty()
      ensures Valid() && fresh(list) && fresh(list.values)
      ensures list.size == 0 && start == 0 && end == 0 && !full
      ensures Contents() == []
    {
      list := new CircularList<T>.Empty();
      start, end, full := 0, 0, false;
    }

    /** `list_circular_buffer(size)`: a ring of `size` nodes with both
        cursors on the head; empty. */
    constructor (size: nat)
      ensures Valid() && fresh(list) && fresh(list.values)
      ensures list.size == size && start == list.head && end == list.head && !full
      ensures Contents() == []
    {
      var ring := new CircularList<T>(size);
      list := ring;
      start := ring.head;
      end := ring.head;
      full := false;
    }

    /** The copy constructor: a deep copy of `other`. */
    constructor Copy(other: ListCircularBuffer<T>)
      requires other.Valid()
      ensures Valid() && fresh(list) && fresh(list.values)
      ensures list.size == other.list.size
      ensures list.values[..] == other.list.values[..]
      ensures start == other.start && end == other.end && full == other.full
      ensures Contents() == other.Contents()
    {
      list := new CircularList<T>.Empty();
      start, end, full := 0, 0, false;
      new;
      CopyFrom(other);
    }

    /** The move constructor: takes over `other`'s nodes and cursors and
        leaves `other` with no nodes. */
    constructor Moved(other: ListCircularBuffer<T>)
      requires other.Valid()
      modifies other, other.list
      ensures Valid() && other.Valid() && fresh(list)
      ensures list.size == old(other.list.size) && list.values == old(other.list.values)
      ensures start == old(other.start) && end == old(other.end) && full == old(other.full)
      ensures Contents() == old(other.Contents())
      ensures other.list.size == 0 && other.start == 0 && other.end == 0 && !other.full
      ensures fresh(other.list.values) && other.Contents() == []
    {
      list := new CircularList<T>.Empty();
      start, end, full := 0, 0, false;
      new;
      MoveFrom(other);
    }

    /** `buffer_size()`. */
    function BufferSize(): nat
      reads this, list
    {
      list.size
    }

    /** `is_empty()`: not full, and the cursors are on the same node; a
        ring of 0 nodes is always empty. */
    predicate IsEmpty()
      reads this, list, list.values
      requires Valid()
      ensures IsEmpty() <==> Contents() == []
      ensures list.size == 0 ==> IsEmpty()
    {
      if full then false else start == end
    }

    /** `is_full()`: the flag, which holds exactly when every node of a
        non-empty ring holds an element; a ring of 0 nodes is never full. */
    predicate IsFull()
      reads this, list, list.values
      requires Valid()
      ensures IsFull() <==> 0 < list.size && |Contents()| == list.size
      ensures list.size == 0 ==> !IsFull()
    {
      full
    }

    /** `clear()`: both cursors back to the head; nodes untouched. */
    method Clear()
      requires Valid()
      modifies this
      ensures Valid() && list.values == old(list.values) && list.values[..] == old(list.values[..])
      ensures start == list.head && end == list.head && !full
      ensures Contents() == []
    {
      start := list.head;
      end := list.head;
      full := false;
    }

    /** `resize(buffer_size)`: same size is a no-op; size 0 gives the
        empty default; otherwise the head-to-start distance is measured,
        the old state moved out, a fresh ring of `m` nodes built, both
        cursors placed that distance from its head, and the old contents
        drained into it oldest first through `Add`. */
    method Resize(m: nat)
      requires Valid()
      modifies this, list
      ensures Valid() && list.size == m
      ensures Contents() == Keep(old(Contents()), m)
      ensures m == old(list.size) ==>
                list.values == old(list.values) && start == old(start) && end == old(end) && full == old(full)
      ensures m != old(list.size) ==> fresh(list.values)
      ensures m == 0 ==> start == 0 && end == 0 && !full
      ensures 0 < m != old(list.size) ==>
                RefilledAt(old(start) % m, |old(Contents())|, m, start, end, full)
    {
      if m == list.size {
        return;
      }
      if m == 0 {
        var none := new ListCircularBuffer<T>.Empty();
        MoveFrom(none);
      } else if m > list.size && list.size == 0 {
        var sized := new ListCircularBuffer<T>(m);
        MoveFrom(sized);
        assert old(start) == 0 && old(start) % m == 0 && RefilledAt(0, 0, m, start, end, full);
      } else {
        Rebuild(m);
      }
    }

    /** The general case of `resize`: measures how far `start` is from the
        head, moves the old state out into `previous`, gives this buffer a
        fresh ring of `m` nodes with both cursors that distance from its
        head, and drains `previous` into it. */
    method Rebuild(m: nat)
      requires Valid() && 0 < list.size && 0 < m
      modifies this, list
      ensures Valid() && list.size == m && fresh(list.values)
      ensures Contents() == Keep(old(Contents()), m)
      ensures RefilledAt(old(start) % m, |old(Contents())|, m, start, end, full)
    {
      var n := StartDistance();
      var previous := new ListCircularBuffer<T>.Moved(this);
      var ring := new CircularList<T>(m);
      list.MoveFrom(ring);
      PlaceCursors(n);
      DrainFrom(previous);
    }

    /** The placing loop of `resize`: walks `n` links from the head of the
        fresh ring and puts both cursors on the node reached. */
    method PlaceCursors(n: nat)
      requires list.Valid() && 0 < list.size && !full
      modifies this
      ensures Valid() && !full
      ensures start == n % list.size && end == start
    {
      var curr := list.head;
      var n2 := 0;
      while n2 < n
        invariant n2 <= n && curr == Follow(list.next, list.head, n2)
      {
        curr := list.next[curr];
        n2 := n2 + 1;
      }
      FollowIsMod(list.next, list.head, n);
      start := curr;
      end := curr;
    }

    /** The measuring loop of `resize`: walks from the head until it meets
        `start`, counting links. */
    method StartDistance() returns (n: nat)
      requires Valid() && 0 < list.size
      ensures n == start
      ensures Follow(list.next, list.head, n) == start
    {
      var curr := list.head;
      n := 0;
      while curr != start
        invariant curr == n <= start
        invariant Follow(list.next, list.head, n) == curr
        decreases start - curr
      {
        curr := list.next[curr];
        n := n + 1;
      }
    }

    /** The refill loop of `resize`: while `previous` is not empty, `Add`
        its `Get`.  Starting from an empty buffer of `m > 0` nodes, this
        leaves the newest `m` of `previous`'s contents, in order. */
    method DrainFrom(previous: ListCircularBuffer<T>)
      requires Valid() && previous.Valid()
      requires previous != this && previous.list != list && previous.list.values != list.values
      requires !full && start == end && start < list.size
      modifies this, list.values, previous
      ensures Valid() && previous.Valid()
      ensures list.size == old(list.size) && list.values == old(list.values)
      ensures previous.list.values == old(previous.list.values) && previous.Contents() == []
      ensures Contents() == Keep(old(previous.Contents()), list.size)
      ensures RefilledAt(old(start), |old(previous.Contents())|, list.size, start, end, full)
    {
      ghost var all := previous.Contents();
      ghost var s0 := start;
      ghost var k := 0;
      assert Keep(all[..0], list.size) == [] == Contents();
      while !previous.IsEmpty()
        invariant Valid() && previous.Valid()
        invariant list.size == old(list.size) && list.values == old(list.values)
        invariant previous.list.values == old(previous.list.values)
        invariant 0 <= k <= |all| && previous.Contents() == all[k..]
        invariant Contents() == Keep(all[..k], list.size)
        invariant RefilledAt(s0, k, list.size, start, end, full)
        decreases |previous.Contents()|
      {
        AddOldestOf(previous, all, s0, k);
        k := k + 1;
      }
      assert all[..k] == all;
    }

    /** One step of the refill loop, `this->add(lcb_old.get())`: the
        `k`-th oldest of the drained contents `all` moves across. */
    method AddOldestOf(previous: ListCircularBuffer<T>, ghost all: seq<T>, ghost s0: nat, ghost k: nat)
      requires Valid() && previous.Valid()
      requires previous != this && previous.list != list && previous.list.values != list.values
      requires s0 < list.size && k < |all| && previous.Contents() == all[k..]
      requires Contents() == Keep(all[..k], list.size)
      requires RefilledAt(s0, k, list.size, start, end, full)
      modifies this, list.values, previous
      ensures Valid() && previous.Valid()
      ensures list.values == old(list.values)
      ensures previous.list.values == old(previous.list.values)
      ensures previous.Contents() == all[k + 1..]
      ensures Contents() == Keep(all[..k + 1], list.size)
      ensures RefilledAt(s0, k + 1, list.size, start, end, full)
    {
      ghost var start0, end0, full0 := start, end, full;
      assert all[..k + 1] == all[..k] + [all[k]];
      PushKeep(all[..k], list.size, all[k]);
      var v := previous.Get();
      assert v.value == all[k] && previous.Contents() == all[k + 1..];
      var _ := Add(v.value);
      assert Contents() == Keep(all[..k + 1], list.size);
      RefillStep(s0, k, list.size, start0, end0, full0);
    }

    /** `add(value)`: fails on a ring of no nodes and changes nothing;
        otherwise writes into the `end` node, moves `end` to its successor
        and runs `PostAdd`, so `x` becomes the newest element and, when
        the buffer was full, the oldest is evicted. */
    method Add(x: T) returns (r: Result<()>)
      requires Valid()
      modifies this, list.values
      ensures Valid() && list.values == old(list.values)
      ensures old(list.size) == 0 ==>
                r == Failure(NoSpaceMessage) && start == old(start) && end == old(end) && full == old(full)
      ensures 0 < old(list.size) ==>
                && r == Success(())
                && list.values[..] == old(list.values[..])[old(end) := x]
                && end == Succ(old(end), list.size)
                && full == (end == old(start) || old(full))
                && start == (if end != old(start) && old(full) then Succ(old(start), list.size) else old(start))
                && Contents() == Push(old(Contents()), list.size, x)
    {
      if list.size == 0 {
        return Failure(NoSpaceMessage);
      }
      ghost var slots := list.values[..];
      WindowAdd(slots, start, end, full, x);
      list.values[end] := x;
      end := list.next[end];
      PostAdd();
      r := Success(());
    }

    /** `post_add()`: marks the buffer full when `end` has reached
        `start`, or else, when it was already full, moves `start` to its
        successor past the overwritten element. */
    method PostAdd()
      requires list.Valid() && 0 < list.size && start < list.size && end < list.size
      modifies this
      ensures end == old(end)
      ensures full == (end == start || old(full))
      ensures start == if end != old(start) && old(full) then Succ(old(start), list.size) else old(start)
    {
      if end == start {
        full := true;
      } else if full {
        start := list.next[start];
      }
    }

    /** `get()`: fails when empty (also with no nodes) and changes
        nothing; otherwise removes and returns the oldest element. */
    method Get() returns (r: Result<T>)
      requires Valid()
      modifies this
      ensures Valid() && end == old(end)
      ensures old(Contents()) == [] ==>
                r == Failure(EmptyMessage) && start == old(start) && full == old(full)
      ensures old(Contents()) != [] ==>
                && r == Success(old(Contents())[0])
                && start == Succ(old(start), list.size) && !full
                && Contents() == old(Contents())[1..]
    {
      if IsEmpty() {
        return Failure(EmptyMessage);
      }
      var v := TakeOldest();
      r := Success(v);
    }

    /** `try_get(value)` once the lock is held: on an empty buffer reports
        failure and hands `value` back untouched; otherwise behaves as
        `Get`. */
    method TryGet(value: T) returns (ok: bool, out: T)
      requires Valid()
      modifies this
      ensures Valid() && end == old(end)
      ensures ok <==> old(Contents()) != []
      ensures !ok ==> out == value && start == old(start) && full == old(full)
      ensures ok ==> out == old(Contents())[0] && Contents() == old(Contents())[1..]
      ensures ok ==> start == Succ(old(start), list.size) && !full
    {
      if IsEmpty() {
        return false, value;
      }
      out := TakeOldest();
      ok := true;
    }

    /** `_get()`: reads the `start` node, moves `start` to its successor,
        clears `full`. */
    method TakeOldest() returns (v: T)
      requires Valid() && Contents() != []
      modifies this
      ensures Valid() && end == old(end)
      ensures v == old(Contents())[0]
      ensures start == Succ(old(start), list.size) && !full
      ensures Contents() == old(Contents())[1..]
    {
      WindowGet(list.values[..], start, end, full);
      v := list.values[start];
      start := list.next[start];
      if full {
        full := false;
      }
    }

    /** `lcb_copy(other)`, the body of the copy constructor and of copy
        assignment (whose self-assignment guard is the `other != this`
        requirement): copies the ring, then walks `other`'s ring from its
        head in step with two walkers on the copy, stopping each walker
        when the source walk reaches `other.start`, resp. `other.end`. */
    method CopyFrom(other: ListCircularBuffer<T>)
      requires other.Valid() && other != this && other.list != list
      modifies this, list
      ensures Valid() && fresh(list.values)
      ensures list.size == other.list.size
      ensures list.values[..] == other.list.values[..]
      ensures start == other.start && end == other.end && full == other.full
      ensures Contents() == other.Contents()
    {
      list.CopyFrom(other.list);
      var curr := list.head;
      var curr2 := list.head;
      var curr3 := other.list.head;
      var startFound := false;
      var endFound := false;
      ghost var last := if other.start < other.end then other.end else other.start;
      while true
        invariant curr3 <= last
        invariant startFound == (other.start < curr3) && endFound == (other.end < curr3)
        invariant curr == (if startFound then other.start else curr3)
        invariant curr2 == (if endFound then other.end else curr3)
        decreases last - curr3
      {
        if curr3 == other.start {
          startFound := true;
        }
        if curr3 == other.end {
          endFound := true;
        }
        if !startFound {
          curr := list.next[curr];
        }
        if !endFound {
          curr2 := list.next[curr2];
        }
        if startFound && endFound {
          break;
        }
        curr3 := other.list.next[curr3];
      }
      start := curr;
      end := curr2;
      full := other.full;
    }

    /** `lcb_move(other)`, the body of the move constructor and of move
        assignment: `_list = std::exchange(other._list, {})` hands the
        nodes over and gives `other` an empty ring; the cursors and the
        flag are exchanged for null, null and false. */
    method MoveFrom(other: ListCircularBuffer<T>)
      requires other.Valid() && other != this && other.list != list
      modifies this, list, other, other.list
      ensures Valid() && other.Valid()
      ensures list.size == old(other.list.size) && list.values == old(other.list.values)
      ensures start == old(other.start) && end == old(other.end) && full == old(other.full)
      ensures Contents() == old(other.Contents())
      ensures other.list.size == 0 && other.start == 0 && other.end == 0 && !other.full
      ensures fresh(other.list.values) && other.Contents() == []
    {
      list.MoveFrom(other.list);
      var none := new CircularList<T>.Empty();
      other.list.MoveFrom(none);
      start, other.start := other.start, 0;
      end, other.end := other.end, 0;
      full, other.full := other.full, false;
    }
  }
}
