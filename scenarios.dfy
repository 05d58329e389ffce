/** The repository's test scenarios, replayed on both backends (the two
    test files run the same steps).  Each scenario method builds its
    buffers fresh and states in its postcondition what the test observes:
    the values `get` and `try_get` hand back, the failures, and at every
    checkpoint the test's `buffer_size()`, `is_empty()` and `is_full()`.
    The helpers before them stand for the tests' chained `add` calls and
    repeated `get` calls. */
module Scenarios {
  import opened RingSpec
  import opened ArrayBackend
  import opened ListBackend

  /** What a test reads off a buffer at a checkpoint: `buffer_size()`,
      `is_empty()` and `is_full()`. */
  datatype Status = Status(size: nat, empty: bool, full: bool)

  // ---------------------------------------------------------------------
  // Array backend
  // ---------------------------------------------------------------------

  /** The three queries a test makes at a checkpoint. */
  function ArrayStatusOf<T(0)>(b: ArrayCircularBuffer<T>): Status
    reads b, b.buffer
    requires b.Valid()
  {
    Status(b.BufferSize(), b.IsEmpty(), b.IsFull())
  }

  /** A chain `b.add(xs[0]).add(xs[1])...` on a buffer of capacity `> 0`:
      the newest `capacity` of the old contents followed by `xs`. */
  method ArrayAddAll<T(0)>(b: ArrayCircularBuffer<T>, xs: seq<T>)
    requires b.Valid() && 0 < b.bufferSize
    modifies b, b.buffer
    ensures b.Valid() && b.bufferSize == old(b.bufferSize) && b.buffer == old(b.buffer)
    ensures b.Contents() == Keep(old(b.Contents()) + xs, b.bufferSize)
  {
    ghost var c := b.Contents();
    assert c + xs[..0] == c;
    var i := 0;
    while i < |xs|
      invariant 0 <= i <= |xs| && b.Valid()
      invariant b.bufferSize == old(b.bufferSize) && b.buffer == old(b.buffer)
      invariant b.Contents() == Keep(c + xs[..i], b.bufferSize)
    {
      ArrayAddNext(b, c, xs, i);
      i := i + 1;
    }
    assert xs[..i] == xs;
  }

  /** One link of the chain: adds `xs[i]` after `c + xs[..i]`. */
  method ArrayAddNext<T(0)>(b: ArrayCircularBuffer<T>, ghost c: seq<T>, xs: seq<T>, i: nat)
    requires b.Valid() && 0 < b.bufferSize && i < |xs|
    requires b.Contents() == Keep(c + xs[..i], b.bufferSize)
    modifies b, b.buffer
    ensures b.Valid() && b.bufferSize == old(b.bufferSize) && b.buffer == old(b.buffer)
    ensures b.Contents() == Keep(c + xs[..i + 1], b.bufferSize)
  {
    assert c + xs[..i + 1] == (c + xs[..i]) + [xs[i]];
    PushKeep(c + xs[..i], b.bufferSize, xs[i]);
    var _ := b.Add(xs[i]);
  }

  /** A chain of adds on an empty buffer: it then holds `xs` when they fit. */
  method ArrayFill<T(0)>(b: ArrayCircularBuffer<T>, xs: seq<T>)
    requires b.Valid() && 0 < b.bufferSize && b.Contents() == [] && |xs| <= b.bufferSize
    modifies b, b.buffer
    ensures b.Valid() && b.bufferSize == old(b.bufferSize) && b.buffer == old(b.buffer)
    ensures b.Contents() == xs
  {
    ArrayAddAll(b, xs);
    assert [] + xs == xs;
  }

  /** `k` successive `b.get()` calls on a buffer holding at least `k`
      elements: the oldest `k`, in order. */
  method ArrayGetMany<T(0)>(b: ArrayCircularBuffer<T>, k: nat) returns (got: seq<T>)
    requires b.Valid() && k <= |b.Contents()|
    modifies b
    ensures b.Valid() && b.bufferSize == old(b.bufferSize) && b.buffer == old(b.buffer)
    ensures got == old(b.Contents())[..k] && b.Contents() == old(b.Contents())[k..]
  {
    ghost var c := b.Contents();
    got := [];
    while |got| < k
      invariant |got| <= k && b.Valid()
      invariant b.bufferSize == old(b.bufferSize) && b.buffer == old(b.buffer)
      invariant got == c[..|got|] && b.Contents() == c[|got|..]
    {
      var r := b.Get();
      assert c[..|got| + 1] == c[..|got|] + [r.value];
      got := got + [r.value];
    }
  }

  /** A fresh buffer holding `xs` in capacity `size`, for `|xs| <= size`,
      built by `size` construction and a chain of adds. */
  method ArrayHolding<T(0)>(size: nat, xs: seq<T>) returns (b: ArrayCircularBuffer<T>)
    requires 0 < size && |xs| <= size
    ensures b.Valid() && fresh(b) && fresh(b.buffer) && b.bufferSize == size && b.Contents() == xs
  {
    b := new ArrayCircularBuffer<T>(size);
    ArrayFill(b, xs);
  }

  /** `test_1`, first part: a default buffer has no capacity, rejects
      both `add` overloads, reports empty on `get`, and `try_get` leaves
      the caller's value alone. */
  method ArrayNoCapacityScenario() returns (atStart: Status, rejected: Result<()>,
                                          rejectedAgain: Result<()>, empty: Result<int>,
                                          tried: bool, kept: int)
    ensures atStart == Status(0, true, false)
    ensures rejected == Failure(NoSpaceMessage) && rejectedAgain == Failure(NoSpaceMessage)
    ensures empty == Failure(EmptyMessage)
    ensures !tried && kept == 42
  {
    var b := new ArrayCircularBuffer<int>.Empty();
    atStart := ArrayStatusOf(b);
    rejected := b.Add(42);
    var i := 42;
    rejectedAgain := b.Add(i);
    empty := b.Get();
    tried, kept := b.TryGet(42);
  }

  /** `test_1`: a default buffer resized to 4, then sent 1 to 6. */
  method ArrayAfterSixAdds() returns (b: ArrayCircularBuffer<int>)
    ensures b.Valid() && fresh(b) && fresh(b.buffer) && b.bufferSize == 4 && b.Contents() == [3, 4, 5, 6]
  {
    b := new ArrayCircularBuffer<int>.Empty();
    b.Resize(4);
    ArrayAddAll(b, [1, 2, 3, 4, 5, 6]);
    assert [] + [1, 2, 3, 4, 5, 6] == [1, 2, 3, 4, 5, 6];
  }

  /** `test_1`, second part: `resize(4)` gives an empty buffer of 4;
      after six adds it keeps the last four and is full, and `get`
      yields 3, 4, 5. */
  method ArrayOverwriteScenario() returns (atResize: Status, afterAdds: Status, got: seq<int>)
    ensures atResize == Status(4, true, false) && afterAdds == Status(4, false, true)
    ensures got == [3, 4, 5]
  {
    var b := new ArrayCircularBuffer<int>.Empty();
    b.Resize(4);
    atResize := ArrayStatusOf(b);
    ArrayAddAll(b, [1, 2, 3, 4, 5, 6]);
    assert [] + [1, 2, 3, 4, 5, 6] == [1, 2, 3, 4, 5, 6];
    assert b.Contents() == [3, 4, 5, 6];
    afterAdds := ArrayStatusOf(b);
    got := ArrayGetMany(b, 3);
  }

  /** `test_1`: after the three gets, a resize to 8 (observed) and adds
      of 7, 8, 9. */
  method ArrayAfterGrowth() returns (b: ArrayCircularBuffer<int>, atResize: Status)
    ensures b.Valid() && fresh(b) && fresh(b.buffer) && b.bufferSize == 8 && b.Contents() == [6, 7, 8, 9]
    ensures atResize == Status(8, false, false)
  {
    b := ArrayAfterSixAdds();
    var _ := ArrayGetMany(b, 3);
    assert b.Contents() == [6];
    b.Resize(8);
    assert b.Contents() == [6];
    atResize := ArrayStatusOf(b);
    ArrayAddAll(b, [7, 8, 9]);
  }

  /** `test_1`, third part: growing to 8 keeps the remaining 6, three more
      adds do not fill the buffer, the next `get` yields 6, and `clear`
      empties it but keeps its capacity. */
  method ArrayGrowScenario() returns (atResize: Status, afterAdds: Status, got: Result<int>,
                                   afterClear: Status)
    ensures atResize == Status(8, false, false) && afterAdds == Status(8, false, false)
    ensures got == Success(6) && afterClear == Status(8, true, false)
  {
    var b;
    b, atResize := ArrayAfterGrowth();
    afterAdds := ArrayStatusOf(b);
    got := b.Get();
    b.Clear();
    afterClear := ArrayStatusOf(b);
  }

  /** `test_2`, first part: a copy starts with its original's contents
      and is independent of it: draining the copy leaves the original's
      elements in place. */
  method ArrayCopyScenario() returns (atStart: Status, afterAdds: Status, fromOriginal: seq<int>,
                                   copied: Status, fromCopy: seq<int>, restOfOriginal: seq<int>)
    ensures atStart == Status(9, true, false) && afterAdds == Status(9, false, false)
    ensures fromOriginal == [4, 9]
    ensures copied == Status(9, false, false) && fromCopy == [14, 18, 32]
    ensures restOfOriginal == [14, 18, 32, 54, 60]
  {
    var b := new ArrayCircularBuffer<int>(9);
    atStart := ArrayStatusOf(b);
    ArrayFill(b, [4, 9, 14, 18, 32, 54, 60]);
    afterAdds := ArrayStatusOf(b);
    fromOriginal := ArrayGetMany(b, 2);
    ghost var rest := b.Contents();
    assert rest == [14, 18, 32, 54, 60];
    var copy := new ArrayCircularBuffer<int>.Copy(b);
    copied := ArrayStatusOf(copy);
    fromCopy := ArrayGetMany(copy, 3);
    assert b.Contents() == rest;
    restOfOriginal := ArrayGetMany(b, 5);
  }

  /** `test_2`, second part: a move leaves the source with no capacity,
      so that `add` on it fails, while the target carries on where the
      source stopped. */
  method ArrayMoveScenario() returns (movedFrom: Status, rejected: Result<()>, moved: Status,
                                   fromMoved: seq<int>, drained: Result<int>)
    ensures movedFrom == Status(0, true, false) && rejected == Failure(NoSpaceMessage)
    ensures moved == Status(9, false, false) && fromMoved == [54, 60]
    ensures drained == Failure(EmptyMessage)
  {
    var b := ArrayHolding(9, [4, 9, 14, 18, 32, 54, 60]);
    var _ := ArrayGetMany(b, 5);
    assert b.Contents() == [54, 60];
    var target := new ArrayCircularBuffer<int>.Moved(b);
    movedFrom := ArrayStatusOf(b);
    rejected := b.Add(42);
    moved := ArrayStatusOf(target);
    fromMoved := ArrayGetMany(target, 2);
    drained := target.Get();
  }

  /** `test_3`, first part: shrinking from 42 to 4 keeps the newest four,
      which fill the buffer. */
  method ArrayShrinkScenario() returns (atStart: Status, shrunk: Status, got: seq<string>)
    ensures atStart == Status(42, true, false) && shrunk == Status(4, false, true)
    ensures got == ["toto", "tutu", "tata"]
  {
    var b := new ArrayCircularBuffer<string>(42);
    atStart := ArrayStatusOf(b);
    ArrayFill(b, ["titi", "toto", "tutu", "tata", "tete"]);
    b.Resize(4);
    assert b.Contents() == ["toto", "tutu", "tata", "tete"];
    shrunk := ArrayStatusOf(b);
    got := ArrayGetMany(b, 3);
  }

  /** `test_3`, second part: from four slots holding "tete", three more
      adds and a resize to 1 keep only the newest; a resize to the current
      size then changes nothing. */
  method ArrayShrinkToOneScenario() returns (shrunk: Status, got: Result<string>,
                                          afterSame: Status, drained: Result<string>)
    ensures shrunk == Status(1, false, true) && got == Success("terter")
    ensures afterSame == Status(1, true, false) && drained == Failure(EmptyMessage)
  {
    var b := ArrayHolding(4, ["tete"]);
    ArrayAddAll(b, ["tartar", "turtur", "terter"]);
    assert b.Contents() == ["tete", "tartar", "turtur", "terter"];
    b.Resize(1);
    assert b.Contents() == ["terter"];
    shrunk := ArrayStatusOf(b);
    got := b.Get();
    b.Resize(1);
    afterSame := ArrayStatusOf(b);
    drained := b.Get();
  }

  /** `test_3`, third part: a resize to 0 drops everything, growing from
      0 gives an empty buffer, and `try_get` reports each element once and
      then leaves the caller's value alone. */
  method ArrayTryGetScenario() returns (afterZero: Status, afterGrow: Status,
                                     firstTry: bool, firstValue: string,
                                     tried: seq<bool>, tries: seq<string>, afterTries: Status,
                                     lastTry: bool, lastValue: string)
    ensures afterZero == Status(0, true, false) && afterGrow == Status(2, true, false)
    ensures !firstTry && firstValue == ""
    ensures tried == [true, true] && tries == ["teitei", "toatoa"]
    ensures afterTries == Status(2, true, false)
    ensures !lastTry && lastValue == ""
  {
    var b := ArrayHolding(1, ["tirtir"]);
    b.Resize(0);
    afterZero := ArrayStatusOf(b);
    b.Resize(2);
    afterGrow := ArrayStatusOf(b);
    firstTry, firstValue := b.TryGet("");
    ArrayAddAll(b, ["teatea", "teitei", "toatoa"]);
    assert b.Contents() == ["teitei", "toatoa"];
    var ok1, v1 := b.TryGet(firstValue);
    var ok2, v2 := b.TryGet(v1);
    tried, tries := [ok1, ok2], [v1, v2];
    afterTries := ArrayStatusOf(b);
    lastTry, lastValue := b.TryGet("");
  }

  /** `test_4`: a buffer built with capacity 0 rejects both `add`
      overloads and `get`; after `resize(5)` and `clear` it is empty with
      capacity 5, and eight adds keep the last five, which fill it. */
  method ArrayZeroSizedScenario() returns (atStart: Status, rejected: Result<()>,
                                        rejectedAgain: Result<()>, empty: Result<string>,
                                        afterClear: Status, wasFull: bool)
    ensures atStart == Status(0, true, false)
    ensures rejected == Failure(NoSpaceMessage) && rejectedAgain == Failure(NoSpaceMessage)
    ensures empty == Failure(EmptyMessage)
    ensures afterClear == Status(5, true, false) && wasFull
  {
    var b := new ArrayCircularBuffer<string>(0);
    atStart := ArrayStatusOf(b);
    rejected := b.Add("azertyuiop");
    var azertyuiop := "azertyuiop";
    rejectedAgain := b.Add(azertyuiop);
    empty := b.Get();
    b.Resize(5);
    b.Clear();
    afterClear := ArrayStatusOf(b);
    ArrayAddAll(b, ["titi", "toto", "tutu", "tata", "tete", "tartar", "turtur", "terter"]);
    wasFull := b.IsFull();
  }

  /** `test_4`, assignments: copy assignment into a default buffer hands
      over the five newest in order; move assignment then does the same
      and leaves the source with no capacity. */
  method ArrayAssignScenario() returns (copied: Status, fromCopy: seq<string>,
                                     movedFrom: Status, moved: Status, fromMoved: seq<string>)
    ensures copied == Status(5, false, true)
    ensures fromCopy == ["tata", "tete", "tartar", "turtur", "terter"]
    ensures movedFrom == Status(0, true, false) && moved == Status(5, false, true)
    ensures fromMoved == fromCopy
  {
    var b := ArrayHolding(5, ["tata", "tete", "tartar", "turtur", "terter"]);
    var target := new ArrayCircularBuffer<string>.Empty();
    target.CopyFrom(b);
    copied := ArrayStatusOf(target);
    fromCopy := ArrayGetMany(target, 5);
    assert b.Contents() == ["tata", "tete", "tartar", "turtur", "terter"];
    target.MoveFrom(b);
    movedFrom := ArrayStatusOf(b);
    moved := ArrayStatusOf(target);
    fromMoved := ArrayGetMany(target, 5);
  }

  // ---------------------------------------------------------------------
  // List backend
  // ---------------------------------------------------------------------

  /** The three queries a test makes at a checkpoint. */
  function ListStatusOf<T(0)>(b: ListCircularBuffer<T>): Status
    reads b, b.list, b.list.values
    requires b.Valid()
  {
    Status(b.BufferSize(), b.IsEmpty(), b.IsFull())
  }

  /** A chain `b.add(xs[0]).add(xs[1])...` on a buffer of capacity `> 0`:
      the newest `capacity` of the old contents followed by `xs`. */
  method ListAddAll<T(0)>(b: ListCircularBuffer<T>, xs: seq<T>)
    requires b.Valid() && 0 < b.list.size
    modifies b, b.list.values
    ensures b.Valid() && b.list.size == old(b.list.size) && b.list.values == old(b.list.values)
    ensures b.Contents() == Keep(old(b.Contents()) + xs, b.list.size)
  {
    ghost var c := b.Contents();
    assert c + xs[..0] == c;
    var i := 0;
    while i < |xs|
      invariant 0 <= i <= |xs| && b.Valid()
      invariant b.list.size == old(b.list.size) && b.list.values == old(b.list.values)
      invariant b.Contents() == Keep(c + xs[..i], b.list.size)
    {
      ListAddNext(b, c, xs, i);
      i := i + 1;
    }
    assert xs[..i] == xs;
  }

  /** One link of the chain: adds `xs[i]` after `c + xs[..i]`. */
  method ListAddNext<T(0)>(b: ListCircularBuffer<T>, ghost c: seq<T>, xs: seq<T>, i: nat)
    requires b.Valid() && 0 < b.list.size && i < |xs|
    requires b.Contents() == Keep(c + xs[..i], b.list.size)
    modifies b, b.list.values
    ensures b.Valid() && b.list.size == old(b.list.size) && b.list.values == old(b.list.values)
    ensures b.Contents() == Keep(c + xs[..i + 1], b.list.size)
  {
    assert c + xs[..i + 1] == (c + xs[..i]) + [xs[i]];
    PushKeep(c + xs[..i], b.list.size, xs[i]);
    var _ := b.Add(xs[i]);
  }

  /** A chain of adds on an empty buffer: it then holds `xs` when they fit. */
  method ListFill<T(0)>(b: ListCircularBuffer<T>, xs: seq<T>)
    requires b.Valid() && 0 < b.list.size && b.Contents() == [] && |xs| <= b.list.size
    modifies b, b.list.values
    ensures b.Valid() && b.list.size == old(b.list.size) && b.list.values == old(b.list.values)
    ensures b.Contents() == xs
  {
    ListAddAll(b, xs);
    assert [] + xs == xs;
  }

  /** `k` successive `b.get()` calls on a buffer holding at least `k`
      elements: the oldest `k`, in order. */
  method ListGetMany<T(0)>(b: ListCircularBuffer<T>, k: nat) returns (got: seq<T>)
    requires b.Valid() && k <= |b.Contents()|
    modifies b
    ensures b.Valid() && b.list.size == old(b.list.size) && b.list.values == old(b.list.values)
    ensures got == old(b.Contents())[..k] && b.Contents() == old(b.Contents())[k..]
  {
    ghost var c := b.Contents();
    got := [];
    while |got| < k
      invariant |got| <= k && b.Valid()
      invariant b.list.size == old(b.list.size) && b.list.values == old(b.list.values)
      invariant got == c[..|got|] && b.Contents() == c[|got|..]
    {
      var r := b.Get();
      assert c[..|got| + 1] == c[..|got|] + [r.value];
      got := got + [r.value];
    }
  }

  /** A fresh buffer holding `xs` in capacity `size`, for `|xs| <= size`,
      built by `size` construction and a chain of adds. */
  method ListHolding<T(0)>(size: nat, xs: seq<T>) returns (b: ListCircularBuffer<T>)
    requires 0 < size && |xs| <= size
    ensures b.Valid() && fresh(b) && fresh(b.list) && fresh(b.list.values) && b.list.size == size && b.Contents() == xs
  {
    b := new ListCircularBuffer<T>(size);
    ListFill(b, xs);
  }

  /** `test_1`, first part: a default buffer has no capacity, rejects
      both `add` overloads, reports empty on `get`, and `try_get` leaves
      the caller's value alone. */
  method ListNoCapacityScenario() returns (atStart: Status, rejected: Result<()>,
                                          rejectedAgain: Result<()>, empty: Result<int>,
                                          tried: bool, kept: int)
    ensures atStart == Status(0, true, false)
    ensures rejected == Failure(NoSpaceMessage) && rejectedAgain == Failure(NoSpaceMessage)
    ensures empty == Failure(EmptyMessage)
    ensures !tried && kept == 42
  {
    var b := new ListCircularBuffer<int>.Empty();
    atStart := ListStatusOf(b);
    rejected := b.Add(42);
    var i := 42;
    rejectedAgain := b.Add(i);
    empty := b.Get();
    tried, kept := b.TryGet(42);
  }

  /** `test_1`: a default buffer resized to 4, then sent 1 to 6. */
  method ListAfterSixAdds() returns (b: ListCircularBuffer<int>)
    ensures b.Valid() && fresh(b) && fresh(b.list) && fresh(b.list.values) && b.list.size == 4 && b.Contents() == [3, 4, 5, 6]
  {
    b := new ListCircularBuffer<int>.Empty();
    b.Resize(4);
    ListAddAll(b, [1, 2, 3, 4, 5, 6]);
    assert [] + [1, 2, 3, 4, 5, 6] == [1, 2, 3, 4, 5, 6];
  }

  /** `test_1`, second part: `resize(4)` gives an empty buffer of 4;
      after six adds it keeps the last four and is full, and `get`
      yields 3, 4, 5. */
  method ListOverwriteScenario() returns (atResize: Status, afterAdds: Status, got: seq<int>)
    ensures atResize == Status(4, true, false) && afterAdds == Status(4, false, true)
    ensures got == [3, 4, 5]
  {
    var b := new ListCircularBuffer<int>.Empty();
    b.Resize(4);
    atResize := ListStatusOf(b);
    ListAddAll(b, [1, 2, 3, 4, 5, 6]);
    assert [] + [1, 2, 3, 4, 5, 6] == [1, 2, 3, 4, 5, 6];
    assert b.Contents() == [3, 4, 5, 6];
    afterAdds := ListStatusOf(b);
    got := ListGetMany(b, 3);
  }

  /** `test_1`: after the three gets, a resize to 8 (observed) and adds
      of 7, 8, 9. */
  method ListAfterGrowth() returns (b: ListCircularBuffer<int>, atResize: Status)
    ensures b.Valid() && fresh(b) && fresh(b.list) && fresh(b.list.values) && b.list.size == 8 && b.Contents() == [6, 7, 8, 9]
    ensures atResize == Status(8, false, false)
  {
    b := ListAfterSixAdds();
    var _ := ListGetMany(b, 3);
    assert b.Contents() == [6];
    b.Resize(8);
    assert b.Contents() == [6];
    atResize := ListStatusOf(b);
    ListAddAll(b, [7, 8, 9]);
  }

  /** `test_1`, third part: growing to 8 keeps the remaining 6, three more
      adds do not fill the buffer, the next `get` yields 6, and `clear`
      empties it but keeps its capacity. */
  method ListGrowScenario() returns (atResize: Status, afterAdds: Status, got: Result<int>,
                                   afterClear: Status)
    ensures atResize == Status(8, false, false) && afterAdds == Status(8, false, false)
    ensures got == Success(6) && afterClear == Status(8, true, false)
  {
    var b;
    b, atResize := ListAfterGrowth();
    afterAdds := ListStatusOf(b);
    got := b.Get();
    b.Clear();
    afterClear := ListStatusOf(b);
  }

  /** `test_2`, first part: a copy starts with its original's contents
      and is independent of it: draining the copy leaves the original's
      elements in place. */
  method ListCopyScenario() returns (atStart: Status, afterAdds: Status, fromOriginal: seq<int>,
                                   copied: Status, fromCopy: seq<int>, restOfOriginal: seq<int>)
    ensures atStart == Status(9, true, false) && afterAdds == Status(9, false, false)
    ensures fromOriginal == [4, 9]
    ensures copied == Status(9, false, false) && fromCopy == [14, 18, 32]
    ensures restOfOriginal == [14, 18, 32, 54, 60]
  {
    var b := new ListCircularBuffer<int>(9);
    atStart := ListStatusOf(b);
    ListFill(b, [4, 9, 14, 18, 32, 54, 60]);
    afterAdds := ListStatusOf(b);
    fromOriginal := ListGetMany(b, 2);
    ghost var rest := b.Contents();
    assert rest == [14, 18, 32, 54, 60];
    var copy := new ListCircularBuffer<int>.Copy(b);
    copied := ListStatusOf(copy);
    fromCopy := ListGetMany(copy, 3);
    assert b.Contents() == rest;
    restOfOriginal := ListGetMany(b, 5);
  }

  /** `test_2`, second part: a move leaves the source with no capacity,
      so that `add` on it fails, while the target carries on where the
      source stopped. */
  method ListMoveScenario() returns (movedFrom: Status, rejected: Result<()>, moved: Status,
                                   fromMoved: seq<int>, drained: Result<int>)
    ensures movedFrom == Status(0, true, false) && rejected == Failure(NoSpaceMessage)
    ensures moved == Status(9, false, false) && fromMoved == [54, 60]
    ensures drained == Failure(EmptyMessage)
  {
    var b := ListHolding(9, [4, 9, 14, 18, 32, 54, 60]);
    var _ := ListGetMany(b, 5);
    assert b.Contents() == [54, 60];
    var target := new ListCircularBuffer<int>.Moved(b);
    movedFrom := ListStatusOf(b);
    rejected := b.Add(42);
    moved := ListStatusOf(target);
    fromMoved := ListGetMany(target, 2);
    drained := target.Get();
  }

  /** `test_3`, first part: shrinking from 42 to 4 keeps the newest four,
      which fill the buffer. */
  method ListShrinkScenario() returns (atStart: Status, shrunk: Status, got: seq<string>)
    ensures atStart == Status(42, true, false) && shrunk == Status(4, false, true)
    ensures got == ["toto", "tutu", "tata"]
  {
    var b := new ListCircularBuffer<string>(42);
    atStart := ListStatusOf(b);
    ListFill(b, ["titi", "toto", "tutu", "tata", "tete"]);
    b.Resize(4);
    assert b.Contents() == ["toto", "tutu", "tata", "tete"];
    shrunk := ListStatusOf(b);
    got := ListGetMany(b, 3);
  }

  /** `test_3`, second part: from four slots holding "tete", three more
      adds and a resize to 1 keep only the newest; a resize to the current
      size then changes nothing. */
  method ListShrinkToOneScenario() returns (shrunk: Status, got: Result<string>,
                                          afterSame: Status, drained: Result<string>)
    ensures shrunk == Status(1, false, true) && got == Success("terter")
    ensures afterSame == Status(1, true, false) && drained == Failure(EmptyMessage)
  {
    var b := ListHolding(4, ["tete"]);
    ListAddAll(b, ["tartar", "turtur", "terter"]);
    assert b.Contents() == ["tete", "tartar", "turtur", "terter"];
    b.Resize(1);
    assert b.Contents() == ["terter"];
    shrunk := ListStatusOf(b);
    got := b.Get();
    b.Resize(1);
    afterSame := ListStatusOf(b);
    drained := b.Get();
  }

  /** `test_3`, third part: a resize to 0 drops everything, growing from
      0 gives an empty buffer, and `try_get` reports each element once and
      then leaves the caller's value alone. */
  method ListTryGetScenario() returns (afterZero: Status, afterGrow: Status,
                                     firstTry: bool, firstValue: string,
                                     tried: seq<bool>, tries: seq<string>, afterTries: Status,
                                     lastTry: bool, lastValue: string)
    ensures afterZero == Status(0, true, false) && afterGrow == Status(2, true, false)
    ensures !firstTry && firstValue == ""
    ensures tried == [true, true] && tries == ["teitei", "toatoa"]
    ensures afterTries == Status(2, true, false)
    ensures !lastTry && lastValue == ""
  {
    var b := ListHolding(1, ["tirtir"]);
    b.Resize(0);
    afterZero := ListStatusOf(b);
    b.Resize(2);
    afterGrow := ListStatusOf(b);
    firstTry, firstValue := b.TryGet("");
    ListAddAll(b, ["teatea", "teitei", "toatoa"]);
    assert b.Contents() == ["teitei", "toatoa"];
    var ok1, v1 := b.TryGet(firstValue);
    var ok2, v2 := b.TryGet(v1);
    tried, tries := [ok1, ok2], [v1, v2];
    afterTries := ListStatusOf(b);
    lastTry, lastValue := b.TryGet("");
  }

  /** `test_4`: a buffer built with capacity 0 rejects both `add`
      overloads and `get`; after `resize(5)` and `clear` it is empty with
      capacity 5, and eight adds keep the last five, which fill it. */
  method ListZeroSizedScenario() returns (atStart: Status, rejected: Result<()>,
                                        rejectedAgain: Result<()>, empty: Result<string>,
                                        afterClear: Status, wasFull: bool)
    ensures atStart == Status(0, true, false)
    ensures rejected == Failure(NoSpaceMessage) && rejectedAgain == Failure(NoSpaceMessage)
    ensures empty == Failure(EmptyMessage)
    ensures afterClear == Status(5, true, false) && wasFull
  {
    var b := new ListCircularBuffer<string>(0);
    atStart := ListStatusOf(b);
    rejected := b.Add("azertyuiop");
    var azertyuiop := "azertyuiop";
    rejectedAgain := b.Add(azertyuiop);
    empty := b.Get();
    b.Resize(5);
    b.Clear();
    afterClear := ListStatusOf(b);
    ListAddAll(b, ["titi", "toto", "tutu", "tata", "tete", "tartar", "turtur", "terter"]);
    wasFull := b.IsFull();
  }

  /** `test_4`, assignments: copy assignment into a default buffer hands
      over the five newest in order; move assignment then does the same
      and leaves the source with no capacity. */
  method ListAssignScenario() returns (copied: Status, fromCopy: seq<string>,
                                     movedFrom: Status, moved: Status, fromMoved: seq<string>)
    ensures copied == Status(5, false, true)
    ensures fromCopy == ["tata", "tete", "tartar", "turtur", "terter"]
    ensures movedFrom == Status(0, true, false) && moved == Status(5, false, true)
    ensures fromMoved == fromCopy
  {
    var b := ListHolding(5, ["tata", "tete", "tartar", "turtur", "terter"]);
    var target := new ListCircularBuffer<string>.Empty();
    target.CopyFrom(b);
    copied := ListStatusOf(target);
    fromCopy := ListGetMany(target, 5);
    assert b.Contents() == ["tata", "tete", "tartar", "turtur", "terter"];
    target.MoveFrom(b);
    movedFrom := ListStatusOf(b);
    moved := ListStatusOf(target);
    fromMoved := ListGetMany(target, 5);
  }
}
