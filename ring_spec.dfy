/** The behaviour both circular-buffer backends share: the abstract FIFO
    machine (contents as a sequence, oldest first), and the geometry of a
    ring of `n` slots read from `start` for `Count` positions.  Both
    backends define their contents as `Window` of their slots, so the
    lemmas here are proved once for both. */
module RingSpec {

  /** Messages of the two `std::out_of_range` failures. */
  const NoSpaceMessage: string := "circular buffer doesn't have space memory to store"
  const EmptyMessage: string := "circular buffer is empty"

  /** A throwing operation: its value, or the message it throws. */
  datatype Result<R> = Success(value: R) | Failure(message: string)

  // ---------------------------------------------------------------------
  // The abstract machine
  // ---------------------------------------------------------------------

  /** Contents after adding `x` to contents `s` of a buffer with room for
      `cap` elements: `x` becomes the newest; when the buffer was full the
      oldest element is evicted. */
  function Push<T>(s: seq<T>, cap: nat, x: T): (r: seq<T>)
    requires 0 < cap && |s| <= cap
    ensures |r| <= cap
  {
    if |s| < cap then s + [x] else s[1..] + [x]
  }

  /** Contents after a resize to `m`: the newest `min(|s|, m)` elements. */
  function Keep<T>(s: seq<T>, m: nat): (r: seq<T>)
    ensures |r| <= m && |r| <= |s|
  {
    if |s| <= m then s else s[|s| - m..]
  }

  /** Adding every element of `xs`, oldest first, with `Push`. */
  function PushAll<T>(s: seq<T>, cap: nat, xs: seq<T>): (r: seq<T>)
    requires 0 < cap && |s| <= cap
    ensures |r| <= cap
    decreases |xs|
  {
    if xs == [] then s else PushAll(Push(s, cap, xs[0]), cap, xs[1..])
  }

  /** Keeping the newest `m` of `s` and then adding `x` keeps the newest
      `m` of `s + [x]`: one step of the drain-and-refill resize. */
  lemma PushKeep<T>(s: seq<T>, m: nat, x: T)
    requires 0 < m
    ensures Push(Keep(s, m), m, x) == Keep(s + [x], m)
  {
    var t := s + [x];
    if |s| < m {
      assert Keep(s, m) == s;
      assert Keep(t, m) == t;
    } else {
      assert Keep(s, m) == s[|s| - m..];
      assert Keep(t, m) == t[|t| - m..];
      assert s[|s| - m..][1..] + [x] == t[|t| - m..];
    }
  }

  /** A suffix of `u` that still holds the newest `min(|u|, m)` elements
      of `u` keeps the same newest `m` elements as `u`. */
  lemma KeepOfSuffix<T>(u: seq<T>, v: seq<T>, m: nat)
    requires |v| <= |u| && v == u[|u| - |v|..]
    requires |v| >= m || |v| == |u|
    ensures Keep(v, m) == Keep(u, m)
  {
    if |v| == |u| {
      assert v == u;
    } else {
      assert v[|v| - m..] == u[|u| - m..];
    }
  }

  /** Draining `xs` oldest first into a buffer with room for `cap`,
      starting from contents `s`, leaves the newest `cap` of `s + xs`. */
  lemma {:induction false} PushAllIsKeep<T>(s: seq<T>, cap: nat, xs: seq<T>)
    requires 0 < cap && |s| <= cap
    ensures PushAll(s, cap, xs) == Keep(s + xs, cap)
    decreases |xs|
  {
    if xs == [] {
      assert s + xs == s;
    } else {
      var s' := Push(s, cap, xs[0]);
      PushAllIsKeep(s', cap, xs[1..]);
      var u, v := s + xs, s' + xs[1..];
      if |s| < cap {
        assert v == u;
      } else {
        assert v == u[1..];
        KeepOfSuffix(u, v, cap);
      }
    }
  }

  /** Adding `x` keeps the newest `cap` of `s + [x]`: nothing is evicted
      while there is room, and a full buffer loses exactly its oldest
      element. */
  lemma PushIsKeep<T>(s: seq<T>, cap: nat, x: T)
    requires 0 < cap && |s| <= cap
    ensures Push(s, cap, x) == Keep(s + [x], cap)
  {
    PushKeep(s, cap, x);
  }

  /** A chain of adds is first in, first out: while everything fits,
      nothing is evicted; once `cap` or more values are added, the buffer
      holds exactly the newest `cap` of them, whatever it held before. */
  lemma PushAllOverwrites<T>(s: seq<T>, cap: nat, xs: seq<T>)
    requires 0 < cap && |s| <= cap
    ensures |s| + |xs| <= cap ==> PushAll(s, cap, xs) == s + xs
    ensures |xs| >= cap ==> PushAll(s, cap, xs) == xs[|xs| - cap..]
  {
    PushAllIsKeep(s, cap, xs);
    if |xs| >= cap {
      assert (s + xs)[|s + xs| - cap..] == xs[|xs| - cap..];
    }
  }

  /** Resize semantics: draining contents `s` into an empty buffer of
      capacity `m > 0` keeps everything when it fits (growing evicts
      nothing) and otherwise exactly the newest `m`, in order. */
  lemma DrainIntoEmptyIsKeep<T>(s: seq<T>, m: nat)
    requires 0 < m
    ensures PushAll([], m, s) == Keep(s, m)
    ensures |s| <= m ==> PushAll([], m, s) == s
    ensures |s| > m ==> PushAll([], m, s) == s[|s| - m..]
  {
    var none: seq<T> := [];
    assert none + s == s;
    PushAllIsKeep(none, m, s);
    if |s| <= m {
      assert Keep(s, m) == s;
    } else {
      assert Keep(s, m) == s[|s| - m..];
    }
  }

  // ---------------------------------------------------------------------
  // Ring geometry
  // ---------------------------------------------------------------------

  /** The slot after `i` in a ring of `n` slots. */
  function Succ(i: nat, n: nat): (j: nat)
    requires i < n
    ensures j < n
  {
    if i + 1 < n then i + 1 else 0
  }

  /** `Succ` is the source's `(i + 1) % n`. */
  lemma SuccIsMod(i: nat, n: nat)
    requires i < n
    ensures Succ(i, n) == (i + 1) % n
  {
    if i + 1 < n {
      ModUnique(i + 1, n, 0, i + 1);
    } else {
      ModUnique(i + 1, n, 1, 0);
    }
  }

  /** The slot `k` positions after `start`, for `k < n`. */
  function Offset(start: nat, k: nat, n: nat): (j: nat)
    requires start < n && k < n
    ensures j < n
  {
    if start + k < n then start + k else start + k - n
  }

  /** Cursor placement a buffer with `n` slots keeps: no storage means
      both cursors at the origin and never full; otherwise both cursors
      are slots, and `full` only where they meet. */
  predicate Placed(n: nat, start: nat, end: nat, full: bool)
  {
    if n == 0 then start == 0 && end == 0 && !full
    else start < n && end < n && (full ==> start == end)
  }

  /** Number of elements held: all slots when full, otherwise the forward
      distance from `start` to `end`. */
  function Count(n: nat, start: nat, end: nat, full: bool): (c: nat)
    requires Placed(n, start, end, full)
    ensures c <= n
    ensures n == 0 ==> c == 0
    ensures c == 0 <==> !full && start == end
    ensures c == n && 0 < n <==> full
  {
    if full then n
    else if start <= end then end - start
    else end + n - start
  }

  /** Without the `full` flag the count is `(end - start) mod n`, which is
      why `start == end` alone cannot tell full from empty. */
  lemma CountIsMod(n: nat, start: nat, end: nat, full: bool)
    requires 0 < n && Placed(n, start, end, full)
    ensures Count(n, start, end, full) == if full then n else (end - start) % n
    ensures (end - start) % n == 0 <==> start == end
  {
    if start <= end {
      ModUnique(end - start, n, 0, end - start);
    } else {
      ModUnique(end - start, n, -1, end + n - start);
    }
  }

  /** The contents a ring of `slots` holds: `Count` slots read forward
      from `start`, wrapping around. */
  function Window<T>(slots: seq<T>, start: nat, end: nat, full: bool): (w: seq<T>)
    requires Placed(|slots|, start, end, full)
    ensures |w| == Count(|slots|, start, end, full) <= |slots|
    ensures w == [] <==> !full && start == end
  {
    var c := Count(|slots|, start, end, full);
    seq(c, k requires 0 <= k < c => slots[Offset(start, k, |slots|)])
  }

  /** When not full, `end` is the slot just past the last element. */
  lemma EndAfterWindow(n: nat, start: nat, end: nat, full: bool)
    requires 0 < n && Placed(n, start, end, full) && !full
    ensures Count(n, start, end, full) < n
    ensures Offset(start, Count(n, start, end, full), n) == end
  {
  }

  /** `add` on the ring: write `x` at `end`, advance `end`, then become
      full when `end` meets `start`, or else, when already full, advance
      `start` past the overwritten oldest element.  The window after is
      `Push` of the window before. */
  lemma WindowAdd<T>(slots: seq<T>, start: nat, end: nat, full: bool, x: T)
    requires 0 < |slots| && Placed(|slots|, start, end, full)
    ensures var n := |slots|;
            var end' := Succ(end, n);
            var full' := end' == start || full;
            var start' := if end' != start && full then Succ(start, n) else start;
            && Placed(n, start', end', full')
            && Window(slots[end := x], start', end', full')
               == Push(Window(slots, start, end, full), n, x)
  {
    var n := |slots|;
    var w := Window(slots, start, end, full);
    var end' := Succ(end, n);
    var full' := end' == start || full;
    var start' := if end' != start && full then Succ(start, n) else start;
    var slots' := slots[end := x];
    var w' := Window(slots', start', end', full');
    if !full {
      var c := |w|;
      EndAfterWindow(n, start, end, full);
      assert end' == start <==> c + 1 == n;
      assert |w'| == c + 1;
      forall k | 0 <= k < c
        ensures w'[k] == w[k]
      {
        assert Offset(start, k, n) != end;
      }
      assert w'[c] == x;
      assert w' == w + [x];
    } else {
      assert |w| == n;
      if n == 1 {
        assert w' == [x];
      } else {
        assert start' == end' == Succ(start, n);
        assert |w'| == n;
        forall k | 0 <= k < n - 1
          ensures w'[k] == w[k + 1]
        {
          assert Offset(start', k, n) == Offset(start, k + 1, n) != end;
        }
        assert Offset(start', n - 1, n) == end;
        assert w'[n - 1] == x;
        assert w' == w[1..] + [x];
      }
    }
  }

  /** `get` on the ring: the oldest element is at `start`; advancing
      `start` and clearing `full` drops exactly that element. */
  lemma WindowGet<T>(slots: seq<T>, start: nat, end: nat, full: bool)
    requires Placed(|slots|, start, end, full)
    requires Window(slots, start, end, full) != []
    ensures 0 < |slots|
    ensures Window(slots, start, end, full)[0] == slots[start]
    ensures Placed(|slots|, Succ(start, |slots|), end, false)
    ensures Window(slots, Succ(start, |slots|), end, false)
            == Window(slots, start, end, full)[1..]
  {
    var n := |slots|;
    var w := Window(slots, start, end, full);
    var start' := Succ(start, n);
    var w' := Window(slots, start', end, false);
    assert |w'| == |w| - 1;
    forall k | 0 <= k < |w'|
      ensures w'[k] == w[k + 1]
    {
      assert Offset(start', k, n) == Offset(start, k + 1, n);
    }
  }

  // ---------------------------------------------------------------------
  // Modular arithmetic behind `% buffer_size`
  // ---------------------------------------------------------------------

  lemma MulAtLeast(n: nat, d: int)
    requires d >= 1
    ensures n * d >= n
  {
    assert n * d == n * (d - 1) + n;
  }

  /** Euclidean remainder is determined by any quotient/remainder split. */
  lemma ModUnique(x: int, n: nat, q: int, r: int)
    requires 0 < n && 0 <= r < n && x == n * q + r
    ensures x % n == r
  {
    var q', r' := x / n, x % n;
    assert n * q + r == n * q' + r';
    if q > q' {
      MulAtLeast(n, q - q');
    }
    if q < q' {
      MulAtLeast(n, q' - q);
    }
  }

  /** Stepping once from `a mod n` lands on `(a + 1) mod n`. */
  lemma SuccOfMod(a: nat, n: nat)
    requires 0 < n
    ensures Succ(a % n, n) == (a + 1) % n
  {
    var q := a / n;
    if a % n + 1 < n {
      ModUnique(a + 1, n, q, a % n + 1);
    } else {
      assert n * (q + 1) == n * q + n;
      ModUnique(a + 1, n, q + 1, 0);
    }
  }

  /** From slot `s0`, `j` steps (0 < j <= n) return to `s0` only after a
      whole turn. */
  lemma TurnReturns(s0: nat, j: nat, n: nat)
    requires s0 < n && 0 < j <= n
    ensures (s0 + j) % n == s0 <==> j == n
  {
    if s0 + j < n {
      ModUnique(s0 + j, n, 0, s0 + j);
    } else {
      ModUnique(s0 + j, n, 1, s0 + j - n);
    }
  }

  /** The slot reached from `i` by following `k` successor links. */
  function Advance(i: nat, k: nat, n: nat): (j: nat)
    requires i < n
    ensures j < n
    decreases k
  {
    if k == 0 then i else Succ(Advance(i, k - 1, n), n)
  }

  /** Following `k` links from `i` lands on `(i + k) mod n`. */
  lemma {:induction false} AdvanceIsMod(i: nat, k: nat, n: nat)
    requires i < n
    ensures Advance(i, k, n) == (i + k) % n
    decreases k
  {
    if k == 0 {
      ModUnique(i, n, 0, i);
    } else {
      AdvanceIsMod(i, k - 1, n);
      SuccOfMod(i + k - 1, n);
    }
  }

  /** Where the cursors of a buffer of `m > 0` slots stand after `k` adds
      into a buffer that was empty with both cursors at `s0`: `end` has
      moved `k` slots on, `full` holds from the `m`-th add on, and from
      then on `start` travels with `end`. */
  predicate RefilledAt(s0: nat, k: nat, m: nat, start: nat, end: nat, full: bool)
    requires s0 < m
  {
    && full == (k >= m)
    && end == Advance(s0, k, m)
    && start == (if k >= m then end else s0)
  }

  /** One more `add` (the update `WindowAdd` describes) moves the cursors
      from their place after `k` adds to their place after `k + 1`. */
  lemma RefillStep(s0: nat, k: nat, m: nat, start: nat, end: nat, full: bool)
    requires s0 < m && RefilledAt(s0, k, m, start, end, full)
    ensures end < m && start < m
    ensures var end' := Succ(end, m);
            var full' := end' == start || full;
            var start' := if end' != start && full then Succ(start, m) else start;
            RefilledAt(s0, k + 1, m, start', end', full')
  {
    if k < m {
      AdvanceIsMod(s0, k + 1, m);
      TurnReturns(s0, k + 1, m);
      assert Succ(end, m) == s0 <==> k + 1 == m;
    }
  }
}
