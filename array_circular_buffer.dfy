/** The contiguous backend: one owned block of `bufferSize` slots, integer
    cursors `start` (oldest element) and `end` (next write), and `full` to
    tell a full ring from an empty one when the cursors meet. */
module ArrayBackend {
  import opened RingSpec

  class ArrayCircularBuffer<T(0)> {
    var bufferSize: nat
    var buffer: array<T>
    var start: nat
    var end: nat
    var full: bool

    /** The object invariant: the block has `bufferSize` slots and the
        cursors are placed in it. */
    ghost predicate Valid()
      reads this
    {
      buffer.Length == bufferSize && Placed(bufferSize, start, end, full)
    }

    /** The buffer's contents, oldest first. */
    ghost function Contents(): (s: seq<T>)
      reads this, buffer
      requires Valid()
      ensures |s| <= bufferSize
    {
      Window(buffer[..], start, end, full)
    }

    /** `array_circular_buffer()`: no storage, empty, not full. */
    constructor Empty()
      ensures Valid() && fresh(buffer)
      ensures bufferSize == 0 && start == 0 && end == 0 && !full
      ensures Contents() == []
    {
      bufferSize := 0;
      buffer := new T[0];
      start, end, full := 0, 0, false;
    }

    /** `array_circular_buffer(buffer_size)`: `size` fresh slots, empty. */
    constructor (size: nat)
      ensures Valid() && fresh(buffer)
      ensures bufferSize == size && start == 0 && end == 0 && !full
      ensures Contents() == []
    {
      bufferSize := size;
      buffer := new T[size];
      start, end, full := 0, 0, false;
    }

    /** The copy constructor: a deep copy of `other`. */
    constructor Copy(other: ArrayCircularBuffer<T>)
      requires other.Valid()
      ensures Valid() && fresh(buffer)
      ensures bufferSize == other.bufferSize && buffer[..] == other.buffer[..]
      ensures start == other.start && end == other.end && full == other.full
      ensures Contents() == other.Contents()
    {
      bufferSize := 0;
      buffer := new T[0];
      start, end, full := 0, 0, false;
      new;
      CopyFrom(other);
    }

    /** The move constructor: takes over `other`'s storage and state and
        leaves `other` with no storage. */
    constructor Moved(other: ArrayCircularBuffer<T>)
      requires other.Valid()
      modifies other
      ensures Valid() && other.Valid()
      ensures bufferSize == old(other.bufferSize) && buffer == old(other.buffer)
      ensures start == old(other.start) && end == old(other.end) && full == old(other.full)
      ensures Contents() == old(other.Contents())
      ensures other.bufferSize == 0 && other.start == 0 && other.end == 0 && !other.full
      ensures fresh(other.buffer) && other.Contents() == []
    {
      bufferSize := 0;
      buffer := new T[0];
      start, end, full := 0, 0, false;
      new;
      MoveFrom(other);
    }

    /** `buffer_size()`. */
    function BufferSize(): nat
      reads this
    {
      bufferSize
    }

    /** `is_empty()`: not full, and the cursors meet; a block of 0 slots
        is always empty. */
    predicate IsEmpty()
      reads this, buffer
      requires Valid()
      ensures IsEmpty() <==> Contents() == []
      ensures bufferSize == 0 ==> IsEmpty()
    {
      if full then false else start == end
    }

    /** `is_full()`: the flag, which holds exactly when every slot of a
        non-empty block is in use; a block of 0 slots is never full. */
    predicate IsFull()
      reads this, buffer
      requires Valid()
      ensures IsFull() <==> 0 < bufferSize && |Contents()| == bufferSize
      ensures bufferSize == 0 ==> !IsFull()
    {
      full
    }

    /** `clear()`: both cursors back to slot 0; storage untouched. */
    method Clear()
      requires Valid()
      modifies this
      ensures Valid() && bufferSize == old(bufferSize)
      ensures buffer == old(buffer) && buffer[..] == old(buffer[..])
      ensures start == 0 && end == 0 && !full
      ensures Contents() == []
    {
      start := 0;
      end := 0;
      full := false;
    }

    /** `resize(buffer_size)`: same size is a no-op; size 0 drops the
        storage; otherwise fresh storage of `m` slots is filled by draining
        the old contents oldest first through `Add`, so the newest
        `min(k, m)` of the `k` old elements survive, in order. */
    method Resize(m: nat)
      requires Valid()
      modifies this
      ensures Valid() && bufferSize == m
      ensures Contents() == Keep(old(Contents()), m)
      ensures m == old(bufferSize) ==>
                buffer == old(buffer) && start == old(start) && end == old(end) && full == old(full)
      ensures m != old(bufferSize) ==> fresh(buffer)
      ensures m == 0 ==> start == 0 && end == 0 && !full
      ensures 0 < m != old(bufferSize) ==>
                RefilledAt(old(start) % m, |old(Contents())|, m, start, end, full)
    {
      if m == bufferSize {
        return;
      }
      if m == 0 {
        var none := new ArrayCircularBuffer<T>.Empty();
        MoveFrom(none);
      } else if m > bufferSize && bufferSize == 0 {
        var sized := new ArrayCircularBuffer<T>(m);
        MoveFrom(sized);
        assert old(start) == 0 && old(start) % m == 0 && RefilledAt(0, 0, m, start, end, full);
      } else {
        Rebuild(m);
      }
    }

    /** The general case of `resize`: moves the old state out into
        `previous`, gives this buffer fresh storage of `m` slots with both
        cursors at the old `start` taken modulo `m`, and drains `previous`
        into it. */
    method Rebuild(m: nat)
      requires Valid() && 0 < bufferSize && 0 < m
      modifies this
      ensures Valid() && bufferSize == m && fresh(buffer)
      ensures Contents() == Keep(old(Contents()), m)
      ensures RefilledAt(old(start) % m, |old(Contents())|, m, start, end, full)
    {
      // The source's realignment loop always stops with n == start.
      var n := start;
      var previous := new ArrayCircularBuffer<T>.Moved(this);
      bufferSize := m;
      buffer := new T[m];
      start := n % m;
      end := start;
      DrainFrom(previous);
    }

    /** The refill loop of `resize`: while `previous` is not empty, `Add`
        its `Get`.  Starting from an empty buffer of `m > 0` slots, this
        leaves the newest `m` of `previous`'s contents, in order, and
        empties `previous`. */
    method DrainFrom(previous: ArrayCircularBuffer<T>)
      requires Valid() && previous.Valid() && previous != this && previous.buffer != buffer
      requires !full && start == end && start < bufferSize
      modifies this, buffer, previous
      ensures Valid() && previous.Valid()
      ensures bufferSize == old(bufferSize) && buffer == old(buffer)
      ensures previous.buffer == old(previous.buffer) && previous.Contents() == []
      ensures Contents() == Keep(old(previous.Contents()), bufferSize)
      ensures RefilledAt(old(start), |old(previous.Contents())|, bufferSize, start, end, full)
    {
      ghost var all := previous.Contents();
      ghost var s0 := start;
      ghost var k := 0;
      assert Keep(all[..0], bufferSize) == [] == Contents();
      while !previous.IsEmpty()
        invariant Valid() && previous.Valid()
        invariant bufferSize == old(bufferSize) && buffer == old(buffer)
        invariant previous.buffer == old(previous.buffer)
        invariant 0 <= k <= |all| && previous.Contents() == all[k..]
        invariant Contents() == Keep(all[..k], bufferSize)
        invariant RefilledAt(s0, k, bufferSize, start, end, full)
        decreases |previous.Contents()|
      {
        AddOldestOf(previous, all, s0, k);
        k := k + 1;
      }
      assert all[..k] == all;
    }

    /** One step of the refill loop, `this->add(acb_old.get())`: the
        `k`-th oldest of the drained contents `all` moves across. */
    method AddOldestOf(previous: ArrayCircularBuffer<T>, ghost all: seq<T>, ghost s0: nat, ghost k: nat)
      requires Valid() && previous.Valid() && previous != this && previous.buffer != buffer
      requires s0 < bufferSize && k < |all| && previous.Contents() == all[k..]
      requires Contents() == Keep(all[..k], bufferSize)
      requires RefilledAt(s0, k, bufferSize, start, end, full)
      modifies this, buffer, previous
      ensures Valid() && previous.Valid()
      ensures bufferSize == old(bufferSize) && buffer == old(buffer)
      ensures previous.buffer == old(previous.buffer)
      ensures previous.Contents() == all[k + 1..]
      ensures Contents() == Keep(all[..k + 1], bufferSize)
      ensures RefilledAt(s0, k + 1, bufferSize, start, end, full)
    {
      ghost var start0, end0, full0 := start, end, full;
      assert all[..k + 1] == all[..k] + [all[k]];
      PushKeep(all[..k], bufferSize, all[k]);
      var v := previous.Get();
      var _ := Add(v.value);
      RefillStep(s0, k, bufferSize, start0, end0, full0);
    }

    /** `add(value)`: fails with no storage and changes nothing; otherwise
        writes at `end`, advances `end` and runs `PostAdd`, so `x` becomes
        the newest element and, when the buffer was full, the oldest is
        evicted. */
    method Add(x: T) returns (r: Result<()>)
      requires Valid()
      modifies this, buffer
      ensures Valid() && buffer == old(buffer) && bufferSize == old(bufferSize)
      ensures old(bufferSize) == 0 ==>
                r == Failure(NoSpaceMessage) && start == old(start) && end == old(end) && full == old(full)
      ensures 0 < old(bufferSize) ==>
                && r == Success(())
                && buffer[..] == old(buffer[..])[old(end) := x]
                && end == Succ(old(end), bufferSize)
                && full == (end == old(start) || old(full))
                && start == (if end != old(start) && old(full) then Succ(old(start), bufferSize) else old(start))
                && Contents() == Push(old(Contents()), bufferSize, x)
    {
      if bufferSize == 0 {
        return Failure(NoSpaceMessage);
      }
      WindowAdd(buffer[..], start, end, full, x);
      SuccIsMod(end, bufferSize);
      SuccIsMod(start, bufferSize);
      buffer[end] := x;
      end := end + 1;
      PostAdd();
      r := Success(());
    }

    /** `post_add()`: wraps `end`; marks the buffer full when `end` has
        caught up with `start`, or else, when it was already full, moves
        `start` on past the overwritten element. */
    method PostAdd()
      requires 0 < bufferSize && start < bufferSize && 0 < end <= bufferSize
      modifies this
      ensures bufferSize == old(bufferSize) && buffer == old(buffer)
      ensures end == old(end) % bufferSize
      ensures full == (end == start || old(full))
      ensures start == if end != old(start) && old(full) then (old(start) + 1) % bufferSize else old(start)
    {
      end := end % bufferSize;
      if end == start {
        full := true;
      } else if full {
        start := start + 1;
        start := start % bufferSize;
      }
    }

    /** `get()`: fails when empty (also with no storage) and changes
        nothing; otherwise removes and returns the oldest element. */
    method Get() returns (r: Result<T>)
      requires Valid()
      modifies this
      ensures Valid() && buffer == old(buffer) && bufferSize == old(bufferSize) && end == old(end)
      ensures old(Contents()) == [] ==>
                r == Failure(EmptyMessage) && start == old(start) && full == old(full)
      ensures old(Contents()) != [] ==>
                && r == Success(old(Contents())[0])
                && start == Succ(old(start), bufferSize) && !full
                && Contents() == old(Contents())[1..]
    {
      if IsEmpty() {
        return Failure(EmptyMessage);
      }
      var v := TakeOldest();
      r := Success(v);
    }

    /** `try_get(value)` once the lock is held: on an empty buffer reports
        failure and hands `value` back untouched; otherwise behaves as
        `Get`. */
    method TryGet(value: T) returns (ok: bool, out: T)
      requires Valid()
      modifies this
      ensures Valid() && buffer == old(buffer) && bufferSize == old(bufferSize) && end == old(end)
      ensures ok <==> old(Contents()) != []
      ensures !ok ==> out == value && start == old(start) && full == old(full)
      ensures ok ==> out == old(Contents())[0] && Contents() == old(Contents())[1..]
      ensures ok ==> start == Succ(old(start), bufferSize) && !full
    {
      if IsEmpty() {
        return false, value;
      }
      out := TakeOldest();
      ok := true;
    }

    /** `_get()`: reads the oldest slot, advances `start`, clears `full`. */
    method TakeOldest() returns (v: T)
      requires Valid() && Contents() != []
      modifies this
      ensures Valid() && buffer == old(buffer) && bufferSize == old(bufferSize) && end == old(end)
      ensures v == old(Contents())[0]
      ensures start == Succ(old(start), bufferSize) && !full
      ensures Contents() == old(Contents())[1..]
    {
      WindowGet(buffer[..], start, end, full);
      SuccIsMod(start, bufferSize);
      v := buffer[start];
      start := start + 1;
      start := start % bufferSize;
      if full {
        full := false;
      }
    }

    /** `acb_copy(other)`, the body of the copy constructor and of copy
        assignment (whose self-assignment guard is the `other != this`
        requirement): fresh storage, every slot copied, same cursors. */
    method CopyFrom(other: ArrayCircularBuffer<T>)
      requires other.Valid() && other != this
      modifies this
      ensures Valid() && fresh(buffer)
      ensures bufferSize == other.bufferSize && buffer[..] == other.buffer[..]
      ensures start == other.start && end == other.end && full == other.full
      ensures Contents() == other.Contents()
    {
      bufferSize := other.bufferSize;
      buffer := new T[other.bufferSize];
      var n := 0;
      while n < other.bufferSize
        modifies buffer
        invariant 0 <= n <= other.bufferSize == buffer.Length
        invariant buffer[..n] == other.buffer[..n]
      {
        buffer[n] := other.buffer[n];
        n := n + 1;
      }
      assert buffer[..] == buffer[..n];
      start := other.start;
      end := other.end;
      full := other.full;
    }

    /** `acb_move(other)`, the body of the move constructor and of move
        assignment: takes over `other`'s block and cursors and leaves
        `other` with no storage, cursors at 0 and not full. */
    method MoveFrom(other: ArrayCircularBuffer<T>)
      requires other.Valid() && other != this
      modifies this, other
      ensures Valid() && other.Valid()
      ensures bufferSize == old(other.bufferSize) && buffer == old(other.buffer)
      ensures start == old(other.start) && end == old(other.end) && full == old(other.full)
      ensures Contents() == old(other.Contents())
      ensures other.bufferSize == 0 && other.start == 0 && other.end == 0 && !other.full
      ensures fresh(other.buffer) && other.Contents() == []
    {
      bufferSize, other.bufferSize := other.bufferSize, 0;
      buffer, other.buffer := other.buffer, new T[0];
      start, other.start := other.start, 0;
      end, other.end := other.end, 0;
      full, other.full := other.full, false;
    }
  }
}
