# circular_buffer, modelled in Dafny

The library offers a fixed-capacity FIFO ring buffer, `T` elements oldest
first, that overwrites its oldest element when an `add` finds it full. The
same public contract comes in two backends:

- `array_circular_buffer` keeps one block of `buffer_size` slots, integer
  cursors `_start` (oldest element) and `_end` (next write), and a `_full`
  flag that tells a full ring from an empty one when the cursors meet.
- `list_circular_buffer` keeps the same cursors as references into a ring
  of `size` preallocated nodes, built head → … → tail → head by
  `circular_singly_linked_list`.

The model is imperative, like the source.

- Each backend is a class whose methods update its fields in place, with
  `modifies` clauses. Array slots, and the node values of the list, are
  Dafny arrays written in place.
- The node ring is an arena. Node `i` is the `i`-th node allocated. Its
  value is `values[i]`, its successor's index is `next[i]`, and the
  cursors are node indices. A null reference is index 0 of an empty arena.
- The loops that build, copy and walk the ring, and the drain loop of
  `resize`, are `while` loops with invariants.

Both backends define their contents as the same window of their slots,
`RingSpec.Window`. Each mutating method states its effect on those contents
through one abstract machine:

- `add` is `Push`, which appends and evicts the oldest when full;
- `get` takes `[0]` and leaves `[1..]`;
- `resize(m)` is `Keep`, which keeps the newest `min(k, m)` elements.

So the lemmas of `RingSpec` hold for both backends, and both provably refine
the same FIFO machine. The four gtest tests of each backend are replayed as
scenario methods. Their postconditions state what the tests check: the
values `get` and `try_get` return, the failures and their messages, and
`buffer_size()`, `is_empty()` and `is_full()` at every checkpoint.

Files:

- `ring_spec.dfy` (`RingSpec`): the abstract machine, the ring geometry,
  and the modular arithmetic behind `% buffer_size`.
- `array_circular_buffer.dfy` (`ArrayBackend`).
- `list_circular_buffer.dfy` (`ListBackend`).
- `scenarios.dfy` (`Scenarios`).

## Model

| member | source | states |
|---|---|---|
| RingSpec.PushIsKeep | include/array_circular_buffer.hpp:242-255 | An add keeps the newest `cap` elements of the old contents followed by the new value. Nothing is evicted while there is room, and a full buffer loses exactly its oldest element. |
| RingSpec.PushAllOverwrites | include/array_circular_buffer.hpp:147-177 | A chain of adds is first in, first out. While everything fits, the contents are the old ones followed by all the added values. Once `cap` or more values are added, the buffer holds exactly the newest `cap` of them, whatever it held before. |
| RingSpec.PushKeep | include/array_circular_buffer.hpp:140-143 | One step of resize's drain loop keeps the invariant. Adding `x` to the newest `m` of `s` gives the newest `m` of `s + [x]`. |
| RingSpec.PushAllIsKeep | include/array_circular_buffer.hpp:140-143 | Draining `xs` oldest first through `add` into contents `s` leaves the newest `cap` elements of `s + xs`, in order. |
| RingSpec.DrainIntoEmptyIsKeep | include/list_circular_buffer.hpp:139-142 | Resize's drain into an empty buffer of capacity `m` keeps everything when it fits, so growing evicts nothing. Otherwise it keeps exactly the last `m` elements, in order. |
| RingSpec.Succ | include/list_circular_buffer.hpp:250 | The successor of a slot or node is again a slot or node of the ring. |
| RingSpec.SuccIsMod | include/array_circular_buffer.hpp:244-253 | The successor is the source's `(i + 1) % buffer_size`. |
| RingSpec.Count | include/array_circular_buffer.hpp:72-89 | The element count is 0 exactly when the buffer is not full and the cursors meet. It is the full capacity exactly when `_full` is set. It never exceeds the capacity, and it is 0 with no storage. |
| RingSpec.CountIsMod | include/array_circular_buffer.hpp:72-89 | Without the flag, the count is `(end - start) mod n`, which is 0 both when empty and when full. This is why `_full` is needed. |
| RingSpec.Window | include/array_circular_buffer.hpp:72-82 | The contents are the `Count` slots read forward from `start`, wrapping around. They are empty exactly when `is_empty` holds. |
| RingSpec.WindowAdd | include/array_circular_buffer.hpp:147-161 | Writing at `end`, advancing `end`, then setting `full` or advancing `start` keeps the cursors placed. The new contents are `Push` of the old contents. |
| RingSpec.WindowGet | include/array_circular_buffer.hpp:257-269 | The oldest element is the slot at `start`. Advancing `start` and clearing `full` removes exactly that element and keeps the cursors placed. |
| RingSpec.SuccOfMod | include/array_circular_buffer.hpp:137 | One step from `a mod n` lands on `(a + 1) mod n`. |
| RingSpec.TurnReturns | include/array_circular_buffer.hpp:138-143 | During the refill, `end` returns to the start cursor only after a whole turn of the new ring. |
| RingSpec.AdvanceIsMod | include/array_circular_buffer.hpp:137-143 | Following `k` successor links from slot `i` lands on `(i + k) mod n`. |
| RingSpec.RefillStep | include/array_circular_buffer.hpp:138-143 | After the `k`-th add of the refill, `end` is `k` slots past the first position. `full` holds from the `m`-th add on, and from then on `start` moves with `end`. |
| ArrayBackend.ArrayCircularBuffer.Empty | include/array_circular_buffer.hpp:13-15 | The default buffer has no storage, cursors 0, is not full and is empty. |
| ArrayBackend.ArrayCircularBuffer.constructor | include/array_circular_buffer.hpp:17-23 | The sized buffer has `buffer_size` fresh slots, cursors 0, and is empty. |
| ArrayBackend.ArrayCircularBuffer.Copy | include/array_circular_buffer.hpp:25-30 | The copy constructor gives fresh storage with the same size, slots, cursors and flag, so the contents are equal. |
| ArrayBackend.ArrayCircularBuffer.Moved | include/array_circular_buffer.hpp:32-37 | The move constructor takes over storage, cursors and flag. The source is left with size 0, cursors 0, not full. |
| ArrayBackend.ArrayCircularBuffer.IsEmpty | include/array_circular_buffer.hpp:72-82 | `is_empty` holds iff the contents are empty. A buffer of size 0 is always empty. |
| ArrayBackend.ArrayCircularBuffer.IsFull | include/array_circular_buffer.hpp:84-89 | `is_full` holds iff the size is non-zero and the contents fill it. A buffer of size 0 is never full. |
| ArrayBackend.ArrayCircularBuffer.Clear | include/array_circular_buffer.hpp:91-98 | The cursors go back to 0 and the flag is cleared. Size and slots are unchanged, and the contents become empty. |
| ArrayBackend.ArrayCircularBuffer.Resize | include/array_circular_buffer.hpp:100-145 | Resizing to the current size is a no-op. Resizing to 0 leaves no storage, cursors 0, not full. Otherwise the buffer gets fresh storage of `m` slots and the contents become the newest `min(k, m)` old elements, in order. The cursors stand where `k` adds from `old start mod m` put them. |
| ArrayBackend.ArrayCircularBuffer.Rebuild | include/array_circular_buffer.hpp:117-143 | The general branch of `resize`: move out, allocate `m` slots, put both cursors at `start mod m` and drain. It leaves `Keep(old contents, m)` in fresh storage of `m` slots. |
| ArrayBackend.ArrayCircularBuffer.DrainFrom | include/array_circular_buffer.hpp:140-143 | The `while (!acb_old.is_empty()) add(acb_old.get())` loop empties the old buffer. Starting from an empty buffer with both cursors at `s0`, it leaves `Keep` of the old contents, with the cursors at their refill positions. |
| ArrayBackend.ArrayCircularBuffer.AddOldestOf | include/array_circular_buffer.hpp:142 | One drain step moves the `k`-th oldest element across. The loop's invariant on both buffers' contents and on the cursors holds again after it. |
| ArrayBackend.ArrayCircularBuffer.Add | include/array_circular_buffer.hpp:147-177 | With size 0, `add` fails with "circular buffer doesn't have space memory to store" and changes nothing. Otherwise it writes the value at `end`, moves `end` to its successor, updates `full`/`start`, and the contents become `Push` of the old contents. |
| ArrayBackend.ArrayCircularBuffer.PostAdd | include/array_circular_buffer.hpp:242-255 | `_end %= size`. `full` is set when `end` meets `start`. Otherwise, if already full, `start` advances modulo the size. |
| ArrayBackend.ArrayCircularBuffer.Get | include/array_circular_buffer.hpp:179-189 | When empty, including size 0, `get` fails with "circular buffer is empty" and changes nothing. Otherwise it returns the oldest element and the contents lose it. |
| ArrayBackend.ArrayCircularBuffer.TryGet | include/array_circular_buffer.hpp:200-207 | `try_get` succeeds iff the buffer is non-empty. On failure the caller's value and the state are untouched. On success it returns the oldest element, `start` advances, `full` is cleared, and the contents lose that element, as with `get`. |
| ArrayBackend.ArrayCircularBuffer.TakeOldest | include/array_circular_buffer.hpp:257-269 | `_get` returns the slot at `start`, advances `start` modulo the size and clears `full`. The contents lose their first element. |
| ArrayBackend.ArrayCircularBuffer.CopyFrom | include/array_circular_buffer.hpp:218-231 | `acb_copy` gives fresh storage with every slot, both cursors and the flag copied, so the contents are equal. |
| ArrayBackend.ArrayCircularBuffer.MoveFrom | include/array_circular_buffer.hpp:233-240 | `acb_move` takes over the storage and state. The source ends at size 0, cursors 0, not full, and empty. |
| ListBackend.FollowIsMod | include/list_circular_buffer.hpp:131-134 | Walking `k` links from node `i` of a ring of `n` nodes reaches node `(i + k) mod n`. |
| ListBackend.CircularList.Empty | include/list_circular_buffer.hpp:233 | The default list has no nodes. |
| ListBackend.CircularList.constructor | include/list_circular_buffer.hpp:235-252 | The sized constructor builds exactly `size` nodes linked in allocation order with `tail.next == head`. Walking `size` links from the head returns to the head. |
| ListBackend.CircularList.CopyFrom | include/list_circular_buffer.hpp:287-313 | `csll_copy` gives `other.size` fresh nodes linked into a ring, holding `other`'s values in cycle order from the head. |
| ListBackend.CircularList.MoveFrom | include/list_circular_buffer.hpp:315-320 | `csll_move` takes over the nodes, head and tail. The source keeps its old `size` but has no nodes. |
| ListBackend.ListCircularBuffer.Empty | include/list_circular_buffer.hpp:14 | The default buffer has no nodes, null cursors, is not full and is empty. |
| ListBackend.ListCircularBuffer.constructor | include/list_circular_buffer.hpp:16-21 | The sized buffer has a ring of `size` nodes, both cursors on the head, and is empty. |
| ListBackend.ListCircularBuffer.Copy | include/list_circular_buffer.hpp:23-28 | The copy constructor gives a fresh ring with the same values, cursor positions and flag, so the contents are equal. |
| ListBackend.ListCircularBuffer.Moved | include/list_circular_buffer.hpp:30-35 | The move constructor takes over nodes, cursors and flag. The source is left with an empty ring, null cursors, not full. |
| ListBackend.ListCircularBuffer.IsEmpty | include/list_circular_buffer.hpp:70-80 | `is_empty` holds iff the contents are empty. A ring of 0 nodes is always empty. |
| ListBackend.ListCircularBuffer.IsFull | include/list_circular_buffer.hpp:82-87 | `is_full` holds iff the ring has nodes and the contents fill it. |
| ListBackend.ListCircularBuffer.Clear | include/list_circular_buffer.hpp:89-96 | Both cursors go back to the head and the flag is cleared. Size and nodes are unchanged, and the contents become empty. |
| ListBackend.ListCircularBuffer.Resize | include/list_circular_buffer.hpp:98-144 | Resizing to the current size is a no-op. Resizing to 0 gives the empty default. Otherwise the buffer gets a fresh ring of `m` nodes and the contents become the newest `min(k, m)` old elements, in order. The cursors stand where `k` adds from the old head-to-start distance, taken mod `m`, put them. |
| ListBackend.ListCircularBuffer.Rebuild | include/list_circular_buffer.hpp:117-142 | The general branch of `resize`: measure, move out, build a fresh ring, place the cursors and drain. It leaves `Keep(old contents, m)` on a fresh ring of `m` nodes. |
| ListBackend.ListCircularBuffer.StartDistance | include/list_circular_buffer.hpp:117-124 | The measuring walk from the head ends at `start` after exactly `start` links. |
| ListBackend.ListCircularBuffer.PlaceCursors | include/list_circular_buffer.hpp:129-137 | Walking `n` links on the fresh ring puts both cursors on node `n mod m`. The buffer is then empty. |
| ListBackend.ListCircularBuffer.DrainFrom | include/list_circular_buffer.hpp:139-142 | The drain loop empties the old buffer. Starting from an empty buffer with both cursors at `s0`, it leaves `Keep` of the old contents, with the cursors at their refill positions. |
| ListBackend.ListCircularBuffer.AddOldestOf | include/list_circular_buffer.hpp:141 | One drain step moves the `k`-th oldest element across. The loop's invariant on both buffers' contents and on the cursors holds again after it. |
| ListBackend.ListCircularBuffer.Add | include/list_circular_buffer.hpp:146-180 | With 0 nodes, `add` fails with "circular buffer doesn't have space memory to store" and changes nothing. Otherwise it writes into the `end` node, moves `end` to the next node, updates `full`/`start`, and the contents become `Push` of the old contents. |
| ListBackend.ListCircularBuffer.PostAdd | include/list_circular_buffer.hpp:385-395 | `full` is set when `end` meets `start`. Otherwise, if already full, `start` moves to the next node. |
| ListBackend.ListCircularBuffer.Get | include/list_circular_buffer.hpp:182-192 | When empty, `get` fails with "circular buffer is empty" and changes nothing. Otherwise it returns the oldest element and the contents lose it. |
| ListBackend.ListCircularBuffer.TryGet | include/list_circular_buffer.hpp:203-210 | `try_get` succeeds iff the buffer is non-empty. On failure the caller's value and the state are untouched. On success it returns the oldest element, `start` moves to the next node, `full` is cleared, and the contents lose that element, as with `get`. |
| ListBackend.ListCircularBuffer.TakeOldest | include/list_circular_buffer.hpp:397-409 | `_get` returns the `start` node's value, moves `start` to the next node and clears `full`. The contents lose their first element. |
| ListBackend.ListCircularBuffer.CopyFrom | include/list_circular_buffer.hpp:332-375 | `lcb_copy` copies the ring, then re-anchors `start` and `end` at the same positions by the lockstep walk and copies the flag. The contents are equal. |
| ListBackend.ListCircularBuffer.MoveFrom | include/list_circular_buffer.hpp:377-383 | `lcb_move` hands the nodes and cursors over. The source gets an empty ring, null cursors and `full == false`. |
| Scenarios.ArrayNoCapacityScenario | src/test_array_circular_buffer.cpp:7-54 | A default buffer reports size 0, empty, not full. Both `add` calls fail with "circular buffer doesn't have space memory to store" and `get` fails with "circular buffer is empty". `try_get` returns false and keeps the caller's 42. |
| Scenarios.ArrayOverwriteScenario | src/test_array_circular_buffer.cpp:57-70 | After `resize(4)` the buffer reports size 4, empty, not full. After adds 1 to 6 it reports size 4, not empty, full, and `get` yields 3, 4, 5. |
| Scenarios.ArrayGrowScenario | src/test_array_circular_buffer.cpp:73-91 | Growing to 8 reports size 8, not empty, not full, both right after the resize and after adding 7, 8, 9. The next `get` yields 6. After `clear` it reports size 8, empty, not full. |
| Scenarios.ArrayCopyScenario | src/test_array_circular_buffer.cpp:96-118 | A fresh buffer of 9 reports empty and not full. After seven adds it is not empty and not full, and `get` yields 4, 9. The copy reports size 9, not empty, not full, and yields 14, 18, 32. The original still holds 14, 18, 32, 54, 60. |
| Scenarios.ArrayMoveScenario | src/test_array_circular_buffer.cpp:121-154 | The moved-from buffer reports size 0, empty, not full, and rejects `add`. The target reports size 9, not empty, not full, yields 54, 60, and then `get` fails. |
| Scenarios.ArrayShrinkScenario | src/test_array_circular_buffer.cpp:159-181 | A fresh buffer of 42 reports empty and not full. After five adds and `resize(4)` it reports size 4, not empty, full, and `get` yields "toto", "tutu", "tata". |
| Scenarios.ArrayShrinkToOneScenario | src/test_array_circular_buffer.cpp:184-208 | After `resize(1)` it reports size 1, not empty, full, and `get` yields "terter". A second `resize(1)` changes nothing: it reports size 1, empty, not full, and `get` fails. |
| Scenarios.ArrayTryGetScenario | src/test_array_circular_buffer.cpp:211-245 | `resize(0)` reports size 0, empty, not full, and `resize(2)` then reports size 2, empty, not full. `try_get` fails and leaves "" in place. After three adds it succeeds twice, yielding "teitei" and "toatoa". The buffer then reports size 2, empty, not full, and `try_get` fails leaving "". |
| Scenarios.ArrayZeroSizedScenario | src/test_array_circular_buffer.cpp:250-316 | A buffer built with size 0 reports size 0, empty, not full. Both `add` calls and `get` fail with their messages. After `resize(5)` and `clear` it reports size 5, empty, not full, and eight adds fill it. |
| Scenarios.ArrayAssignScenario | src/test_array_circular_buffer.cpp:318-345 | Copy assignment gives a buffer reporting size 5, not empty, full, that yields "tata", "tete", "tartar", "turtur", "terter". After move assignment the source reports size 0, empty, not full. The target reports size 5, not empty, full and yields the same five. |
| Scenarios.ListNoCapacityScenario | src/test_list_circular_buffer.cpp:7-54 | A default buffer reports size 0, empty, not full. Both `add` calls fail with "circular buffer doesn't have space memory to store" and `get` fails with "circular buffer is empty". `try_get` returns false and keeps the caller's 42. |
| Scenarios.ListOverwriteScenario | src/test_list_circular_buffer.cpp:57-70 | After `resize(4)` the buffer reports size 4, empty, not full. After adds 1 to 6 it reports size 4, not empty, full, and `get` yields 3, 4, 5. |
| Scenarios.ListGrowScenario | src/test_list_circular_buffer.cpp:73-91 | Growing to 8 reports size 8, not empty, not full, both right after the resize and after adding 7, 8, 9. The next `get` yields 6. After `clear` it reports size 8, empty, not full. |
| Scenarios.ListCopyScenario | src/test_list_circular_buffer.cpp:96-118 | A fresh buffer of 9 reports empty and not full. After seven adds it is not empty and not full, and `get` yields 4, 9. The copy reports size 9, not empty, not full, and yields 14, 18, 32. The original still holds 14, 18, 32, 54, 60. |
| Scenarios.ListMoveScenario | src/test_list_circular_buffer.cpp:121-154 | The moved-from buffer reports size 0, empty, not full, and rejects `add`. The target reports size 9, not empty, not full, yields 54, 60, and then `get` fails. |
| Scenarios.ListShrinkScenario | src/test_list_circular_buffer.cpp:159-181 | A fresh buffer of 42 reports empty and not full. After five adds and `resize(4)` it reports size 4, not empty, full, and `get` yields "toto", "tutu", "tata". |
| Scenarios.ListShrinkToOneScenario | src/test_list_circular_buffer.cpp:184-208 | After `resize(1)` it reports size 1, not empty, full, and `get` yields "terter". A second `resize(1)` changes nothing: it reports size 1, empty, not full, and `get` fails. |
| Scenarios.ListTryGetScenario | src/test_list_circular_buffer.cpp:211-245 | `resize(0)` reports size 0, empty, not full, and `resize(2)` then reports size 2, empty, not full. `try_get` fails and leaves "" in place. After three adds it succeeds twice, yielding "teitei" and "toatoa". The buffer then reports size 2, empty, not full, and `try_get` fails leaving "". |
| Scenarios.ListZeroSizedScenario | src/test_list_circular_buffer.cpp:250-316 | A buffer built with size 0 reports size 0, empty, not full. Both `add` calls and `get` fail with their messages. After `resize(5)` and `clear` it reports size 5, empty, not full, and eight adds fill it. |
| Scenarios.ListAssignScenario | src/test_list_circular_buffer.cpp:318-345 | Copy assignment gives a buffer reporting size 5, not empty, full, that yields "tata", "tete", "tartar", "turtur", "terter". After move assignment the source reports size 0, empty, not full. The target reports size 5, not empty, full and yields the same five. |

## Left out

- Locking: the `std::recursive_mutex`, every `lock_guard`, and the lock order in the assignment operators are concurrency, not behaviour. They are not modelled.
- ArrayBackend.ArrayCircularBuffer.TryGet: models `try_get` with its lock held. The `try_to_lock` failure branch (include/array_circular_buffer.hpp:193-198), which returns false whatever the contents, is concurrency and is not modelled.
- ListBackend.ListCircularBuffer.TryGet: the same, for include/list_circular_buffer.hpp:196-201.
- The `const T&` and `T&&` overloads of `add` differ only in copying or moving the value, so each backend has one `Add`.
- Exceptions are `Result` values. A failure carries the message string that the `std::out_of_range` would carry.
- `shared_ptr` ownership and reference counting of nodes are replaced by the arena. This includes the `tail->next = head` cycle, which is never freed. Node identity is modelled as the node's index.
- Allocation: `make_unique`, value initialisation of fresh slots and nodes, and allocation failure are out of scope. Fresh slots hold Dafny's default value of `T`, and a null `_buffer` is an array of length 0.
- Integer widths: `_start`, `_end` and the loop counters are `uint32_t` while sizes are `size_t`. The model uses unbounded `nat`, so it does not capture wrap-around at 2^32. With sizes of 2^32 or more, the `uint32_t` loops of include/list_circular_buffer.hpp:243 and 303 would not terminate. The model assumes sizes below that bound.
- The realignment at include/array_circular_buffer.hpp:119-131 yields `n == _start` on both branches, so it is modelled as `n := start`.
- The self-assignment guards of the assignment operators are the `other != this` requirements of `CopyFrom` and `MoveFrom`. The copy and move constructors and the assignment operators share those bodies.
- `buffer_size()` is modelled as `BufferSize`, a plain field read without a row of its own.
- The gtest harness is not modelled. Its four tests are replayed as scenario methods. Where a test continues from an earlier state, the scenario either replays the earlier steps (`ArrayAfterSixAdds`, `ArrayAfterGrowth` and their `List` twins) or rebuilds a buffer with the same size and contents (`ArrayHolding`, `ListHolding`). The latter applies to the move part of `test_2`, the second and third parts of `test_3` and the assignments of `test_4`.
- ArrayBackend.ArrayCircularBuffer.TakeOldest: `_get` moves the value out of the `start` slot (include/array_circular_buffer.hpp:259), leaving a moved-from `T` there. The model reads the slot and leaves its value in place. No operation can observe the difference, because the slot is outside the contents until an `add` overwrites it. `Get` and `TryGet` inherit this.
- ListBackend.ListCircularBuffer.TakeOldest: the same for the `start` node's value (include/list_circular_buffer.hpp:399). `Get` and `TryGet` inherit this.
