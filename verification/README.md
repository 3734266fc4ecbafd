# Verified models of chenc

This project models four parts of the chenc library in Dafny and proves what
they promise. `dafny verify dfyconfig.toml` checks everything.

**`rw_lock`**, the writer-preferring reader/writer lock. `RwLock` is a state
machine whose steps are single atomic accesses, over any number of threads (up
to 2^16 - 1); time, backoff, spurious wakeups and the thread that `notify_one`
picks are left to a free choice; `wait` and `notify` follow section 31.6
([atomics.wait]) of ISO C++20. `RwLockSafety` and `RwLockWakeup` hold the
inductive invariant, `RwLockTheorems` what it means for whole runs,
`RwLockAnswers` when attempts succeed and what calls come to, and `RwLockObject`
carries the accesses out on an object with the lock's fields. `SharedMutex`,
`SharedMutexSafety`, `SharedMutexAnswers` and `SharedMutexObject` do the same
for `shared_mutex`.

**`atomic_queue`**, the many-producer many-consumer ring that stops the world to
grow. `Ring` is the slot arithmetic. `QueueMachine` is the interleaving machine,
with a recorded history of what was pushed at each position and a fault flag for
touching freed memory, constructing over an object or destroying none;
`QueueInvariant`, `QueueSteps` and `QueueGrowth` keep its invariant.
`QueueTheorems` draws the conclusions for runs in which every move has room,
`QueueLinearization` explains such runs by a sequential queue, `QueueCalls` says
what a whole call has done when it returns, `QueueAlone` what a call that is
left alone answers, `QueueReturns` that it returns, `QueueWaiting` is the wait
on `stat_`, and `QueueLimits` says of all runs of the code which of them go
wrong, with the runs that `QueueScenarios` builds. `AtomicQueue` is the queue as
a class over slot arrays, with its loops, for a thread that has it to itself.

**`array_uint`**, fixed-width integers of 64-bit limbs. The width is a run-time
natural. `Limbs` gives a limb sequence its value, `Bits` the bit operators;
`ArrayUint`, `ArrayShift` and `ArrayCompare` run the carry, borrow, shift and
comparison loops on arrays, where the result may be one of the operands.

**The UTF transcoder.** `UtfCode` is the decoder and the encoder of one
character (UTF-8 of RFC 3629, UTF-16 of RFC 2781, UTF-32), on 32-bit words with
the source's bit operations. `UtfString` is the string loop, with an encoding
known only by its decoder, encoder and eight-byte ASCII test; `UtfTheorems`,
`UtfRoundTrip` and `UtfBlocks` are its theory. `UtfFormats` shows that the three
encodings meet what that theory asks, `UtfConversions` states the results for
them, `UtfReports` what a run reports in every mode, `UtfDecoding` what the
decoder says of any units, well formed or not, `UtfMeaning` what a text means
without the decoder, and `UtfConvert` runs the conversion over input and output
arrays. `UtfBlockNeeds` counts what the block path leaves out of the need, and
`UtfLimits` says for which rooms and modes block path and full mode do what the
scalar loop and the converted text say.

Where the code and its comments differ the model follows the code: `add_to`
drops limbs that only one operand has, a queue made for one object has one slot
and loses an object, a resize request of one of several producers can go stale
and shrink the ring over its contents, `<=>` with a longer left side can read
past the right one, the pending bit of `shared_mutex` can be lost while its
writer spins, the guard of the ASCII block path asks for less room than the
block writes when units grow in width, the block path leaves the units it copies
out of the need that count and full mode report, and full output mode can leave
a gap. For each there is a lemma, or a method's contract, that says exactly when
it happens.

## Model

| member | source | states |
|---|---|---|
| RwLockTheorems.NoLostWakeup | include/chenc/thread/olock.hpp:188-435 | in every reachable state with a sleeper, another thread is awake and holds the lock, is in a slow path, or has its bump or notification still to make |
| RwLockTheorems.NeverStuck | include/chenc/thread/olock.hpp:188-435 | while any thread is inside an operation, some awake thread inside one has an enabled step that moves it |
| RwLockTheorems.NoDeadlock | include/chenc/thread/olock.hpp:188-435 | in every reachable state in which a thread waits in the slow path and nobody holds the lock or is giving it back, some thread of the slow path is awake, will not sleep before testing again, and would find the lock open |
| RwLockTheorems.ReadyTakes | include/chenc/thread/olock.hpp:206-271 | such a thread, left alone, takes the lock with at most four accesses |
| RwLockTheorems.SleepingWriterWatched | include/chenc/thread/olock.hpp:325-435 | in every reachable state with a writer asleep, the lock is held, a bump or a notify_one is coming, or an awake writer of the slow path will test the lock again |
| RwLockTheorems.SleepingReaderWatched | include/chenc/thread/olock.hpp:188-300 | in every reachable state with a reader asleep, a writer is in its way, or a bump or a notify_all is coming |
| RwLockTheorems.MutualExclusion | include/chenc/thread/olock.hpp:174-435 | a thread that holds for writing is the only holder |
| RwLockTheorems.ExactAccounting | include/chenc/thread/olock.hpp:174-435 | each active and prepared counter equals the number of threads in that role, and the low half of each wait word the number of registered waiters |
| RwLockTheorems.WriterPreference | include/chenc/thread/olock.hpp:174-232 | over any stretch with a writer announced no reader gets in, and the active reader count never rises |
| RwLockAnswers.TryTakesIff | include/chenc/thread/olock.hpp:174-323 | in every reachable state, the quick attempt, undisturbed, takes the lock exactly when no writer holds it or prepares to, and for a writer no reader either |
| RwLockAnswers.SlowTakesIff | include/chenc/thread/olock.hpp:206-435 | in every reachable state, the attempt of the slow path, undisturbed, takes the lock exactly when nobody holds it for writing and, for a reader, no writer prepares, for a writer, no reader holds it |
| RwLockAnswers.SleepsWhenClosed | include/chenc/thread/olock.hpp:237-262 | with somebody in the way, a waiter left alone that has waited enough registers once, sleeps on the word it registered in, and stays asleep until it is woken |
| RwLockAnswers.LockEndsHolding | include/chenc/thread/olock.hpp:188-435 | in every run the only way out of lock() is to hold the lock on its side |
| RwLockAnswers.TryIsQuick | include/chenc/thread/olock.hpp:174-323 | whatever the other threads do, try_lock() is over after two accesses, and each of them takes the lock on its side or changes nothing |
| RwLockAnswers.CallStarts | include/chenc/thread/olock.hpp:188-191 | a call begins with the quick attempt for its side, and lock() stays when it fails |
| RwLockAnswers.UnlockReturns | include/chenc/thread/olock.hpp:273-300 | an unlock() left alone has returned after at most five accesses |
| RwLockSafety.StepSafe | include/chenc/thread/olock.hpp:174-435 | every atomic access of every thread keeps exclusion, the exact counts and what the threads' local copies say |
| RwLockWakeup.StepWatched | include/chenc/thread/olock.hpp:188-435 | every atomic access keeps that each sleeper, on a current or a stale wait word, has someone to wake it |
| RwLockObject.Lock.Advance | include/chenc/thread/olock.hpp:174-435 | one access carried out on the lock's fields leaves the memory and the thread where the machine says |
| RwLockObject.Lock.TryLock | include/chenc/thread/olock.hpp:174-323 | undisturbed, try_lock takes the lock exactly when no writer is counted as active or prepared, and for a writer no reader, and otherwise changes nothing |
| RwLockObject.Lock.Unlock | include/chenc/thread/olock.hpp:273-435 | undisturbed, unlock releases, bumps the writers' word and wakes one writer if any waits; only if none does it bumps the readers' word and wakes all readers if any wait; on a lock not held it changes nothing and wakes nobody |
| RwLockObject.Execution.Turn | include/chenc/thread/olock.hpp:188-435 | an enabled turn of one thread on the shared object, notification included, is a step of the machine, so interleavings of such turns are its runs |
| SharedMutexSafety.ExclusionAndAccounting | include/chenc/thread/lock.hpp:124-274 | the write bit is set exactly while one writer holds, and then no reader does; the reader field and both waiter counts are exact |
| SharedMutexSafety.PendingIsJustified | include/chenc/thread/lock.hpp:131-206 | the pending bit is set only while some writer contends or holds, though unlock overwrites the whole word |
| SharedMutexSafety.ReadersNotShutOut | include/chenc/thread/lock.hpp:224-235 | once no writer contends or holds, the write bit and the pending bit are clear |
| SharedMutexSafety.UnlockKnowsItsSide | include/chenc/thread/lock.hpp:186-220 | unlock, which looks at the lock word only, takes the branch of the side that holds |
| SharedMutexSafety.PendingLostIff | include/chenc/thread/lock.hpp:186-206 | at every point of every run, an access drops the pending bit exactly when it is the store of an unlocking writer, and no writer was registered when that thread read their count before it |
| SharedMutexSafety.WriterCanBePassed | include/chenc/thread/lock.hpp:131-206 | a run in which a spinning writer has lost its pending bit and readers may pass it |
| SharedMutexAnswers.ReaderTakesIff | include/chenc/thread/lock.hpp:224-235 | in every reachable state, a reader's attempt, undisturbed, takes the lock exactly when no writer holds it and the pending bit is clear |
| SharedMutexAnswers.WriterTriesIff | include/chenc/thread/lock.hpp:124-129 | in every reachable state, a writer's first attempt takes the lock exactly when nobody holds it and the pending bit is clear |
| SharedMutexAnswers.WriterTakesIff | include/chenc/thread/lock.hpp:143-153 | in every reachable state, a waiting writer's attempt, undisturbed, takes the lock exactly when nobody holds it, whoever set the pending bit |
| SharedMutexAnswers.PendingKeepsReadersOut | include/chenc/thread/lock.hpp:224-235 | over any stretch of a run in which the pending bit stands, every reader inside at the end was inside at the beginning, and the reader count never rises |
| SharedMutexAnswers.WaitingWriterKeepsReadersOut | include/chenc/thread/lock.hpp:131-153 | from the access by which a writer sets the bit, until an unlocking writer's store overlooks it, the bit stands and no reader gets in |
| SharedMutexAnswers.LockEndsHolding | include/chenc/thread/lock.hpp:131-274 | in every run the only way out of lock() past its first attempt, and out of lock_shared(), is to hold the lock on its side |
| SharedMutexAnswers.TryIsQuick | include/chenc/thread/lock.hpp:124-235 | whatever the other threads do, try_lock() is over after one access and try_lock_shared() after two, and each of them takes the lock on its side or changes nothing |
| SharedMutexAnswers.CallStarts | include/chenc/thread/lock.hpp:131-143 | a call begins with an attempt for its side, and lock() and lock_shared() stay when it fails |
| SharedMutexAnswers.LoneWaiterHolds | include/chenc/thread/lock.hpp:131-274 | a waiter that nobody keeps out, left alone, holds the lock after at most five accesses, wherever in lock() it was |
| SharedMutexAnswers.UnlockReturns | include/chenc/thread/lock.hpp:186-220 | an unlock() left alone has returned after at most three accesses |
| SharedMutexObject.Mutex.Advance | include/chenc/thread/lock.hpp:124-274 | one access carried out on the mutex's fields leaves the memory and the thread where the machine says |
| SharedMutexObject.Execution.Turn | include/chenc/thread/lock.hpp:124-274 | a turn of one thread on the shared object is a step of the machine |
| QueueTheorems.Fifo | include/chenc/thread/atomic_queue.hpp:73-167 | over every interleaving, growth included, the pop that claimed a position returns the value of the push that claimed it |
| QueueTheorems.TakenOnce | include/chenc/thread/atomic_queue.hpp:142-157 | no two pops take the same position |
| QueueTheorems.NeverFaults | include/chenc/thread/atomic_queue.hpp:73-222 | in no reachable state of a run whose moves all fit has anything touched a freed array, constructed over an object, or read or destroyed one that is not there; and head <= tail <= head + capacity |
| QueueLinearization.StepOfRunRefines | include/chenc/thread/atomic_queue.hpp:97-157 | at every step of a run, growth included, the access appends the pushed value, removes the oldest value or leaves the contents alone, as its successful or missing CAS says |
| QueueLinearization.ContentsAreReplayed | include/chenc/thread/atomic_queue.hpp:97-157 | at every point of a run the contents are what its successful CAS accesses make of an empty sequential queue, and every dequeue gives the oldest value |
| QueueLinearization.PopIsItsEvent | include/chenc/thread/atomic_queue.hpp:142-157 | a pop that returns a value dequeued that value by its own access during its call |
| QueueLinearization.PushIsItsEvent | include/chenc/thread/atomic_queue.hpp:97-107 | a push that returns enqueued its value by its own access during its call |
| QueueCalls.CallDoesItsWork | include/chenc/thread/atomic_queue.hpp:73-167 | in every run, a call that has returned did its work once and nothing else, however often it went round: a push has enqueued its own value; a pop has dequeued the value it returns, or has left the queue alone, returns nothing, and at an access of its own found the queue empty or its oldest value not yet published |
| QueueAlone.LonePop | include/chenc/thread/atomic_queue.hpp:122-167 | from every reachable state with the gate open, a pop left alone answers: with the oldest value if it is published, and with nothing exactly if the queue is empty or the oldest value's producer is mid-write |
| QueueAlone.LonePush | include/chenc/thread/atomic_queue.hpp:73-119 | from every reachable state with the gate open, a push left alone appends its value and returns if the tail's slot is open, as in every ring that has not wrapped, and otherwise leaves to ask for twice the room |
| QueueReturns.LoneCallReturns | include/chenc/thread/atomic_queue.hpp:73-222 | from any point of a push or pop, growth included, with nobody else inside or resizing and no notification missing, the call left alone has returned after a number of accesses known beforehand |
| QueueTheorems.RunExtends | include/chenc/thread/atomic_queue.hpp:73-222 | along a run the history only grows, the head never falls and what was taken stays taken |
| QueueTheorems.GrowthKeepsTheQueue | include/chenc/thread/atomic_queue.hpp:177-222 | the resizer past its wait finds nobody inside and every queued position published; if tail - head is at most the new capacity, larger than the old one or not, the new array holds exactly the queued objects and head, tail and history are unchanged, and otherwise one object is constructed over another |
| Ring.MoveIsSafeIff | include/chenc/thread/atomic_queue.hpp:202-212 | the migration loop constructs over no object exactly when the queued objects fit the new array |
| QueueTheorems.QuiescentAccounting | include/chenc/thread/atomic_queue.hpp:58-70 | when all threads are idle, what was pushed is what was popped and what remains at [head, tail), and no other slot holds an object |
| QueueTheorems.EmptyIsJustified | include/chenc/thread/atomic_queue.hpp:135-162 | when a pop decides to return nothing its position is the head, and that position is unclaimed or its producer has not published |
| QueueTheorems.GrowsOnlyWhenWrapped | include/chenc/thread/atomic_queue.hpp:95-118 | a push asks for growth only if its position is still the tail, the tail's slot is not open and the ring has wrapped; a push or pop that tries again has lost its position to another |
| QueueGrowth.AloneMeansSettled | include/chenc/thread/atomic_queue.hpp:81-88 | past the wait for active_threads_ == 0 nobody is inside, every queued position is published and every dequeued one taken |
| QueueGrowth.MoveFaultsIff | include/chenc/thread/atomic_queue.hpp:183-212 | in any state of the invariant, the resizer's move goes wrong exactly when the queue does not fit the array it asked for |
| QueueGrowth.StepKeeps | include/chenc/thread/atomic_queue.hpp:73-222 | every access of every thread, except a move into too small an array, keeps the invariant of slots, locals and gate |
| QueueWaiting.SleeperIsNotified | include/chenc/thread/atomic_queue.hpp:75-79 | whenever a push or pop sleeps on stat_, it has been notified since, or an awake thread has won the resize or is about to notify |
| QueueWaiting.NobodyLeftAsleep | include/chenc/thread/atomic_queue.hpp:218-221 | once the gate is open and nobody is left to notify, every sleeper has its notification and its next access wakes it |
| QueueWaiting.ClosedGateSleeps | include/chenc/thread/atomic_queue.hpp:75-79 | while the queue is being resized a call that comes to its gate goes to sleep without touching the queue, and unless it wakes for no reason stays asleep exactly until it is notified |
| QueueLimits.FaultFreeIff | include/chenc/thread/atomic_queue.hpp:73-222 | over all interleavings, with resize requests however stale, nothing has gone wrong by some point exactly when every array the queue was moved into before it had room for the queue |
| QueueLimits.SingleProducerIsSafe | include/chenc/thread/atomic_queue.hpp:108-113 | with one producer every move fits, so every run of the code is one to which the other theorems apply |
| QueueLimits.TwoProducersFault | include/chenc/thread/atomic_queue.hpp:108-111 | every queue made for two or more objects has a run in which two producers make it construct over a live object, by a resize request that has gone stale |
| QueueLimits.EmptyMeansDrained | include/chenc/thread/atomic_queue.hpp:135-162 | with one producer that is not mid-write, a pop returns nothing only from an empty queue |
| QueueLimits.OneSlotFaults | include/chenc/thread/atomic_queue.hpp:47-56 | a queue made for at most one object has a run that constructs over a live object |
| QueueLimits.SafeIffTwoSlots | include/chenc/thread/atomic_queue.hpp:47-56 | with a single producer, no run of a new queue goes wrong exactly when it was made for at least two objects |
| QueueLimits.SafeIffOneProducer | include/chenc/thread/atomic_queue.hpp:73-222 | for any nonempty set of producers, no run of the code goes wrong exactly when the queue was made for at least two objects and only one thread pushes |
| AtomicQueue.Queue.constructor | include/chenc/thread/atomic_queue.hpp:47-56 | an empty queue of fresh slots with any capacity rounded up to a power of two, ready for use from capacity two on |
| AtomicQueue.Queue.Push | include/chenc/thread/atomic_queue.hpp:73-119 | appends the value; terminates, growing as often as it takes until the capacity exceeds the tail |
| AtomicQueue.Queue.TryPush | include/chenc/thread/atomic_queue.hpp:82-117 | one turn of the loop appends the value or changes nothing, and fails only where the position is at least the capacity |
| AtomicQueue.Queue.Pop | include/chenc/thread/atomic_queue.hpp:122-167 | removes and returns the oldest value, or nothing exactly when the queue is empty |
| AtomicQueue.Queue.Size | include/chenc/thread/atomic_queue.hpp:169-173 | the number of queued values |
| AtomicQueue.Queue.ResetCapa | include/chenc/thread/atomic_queue.hpp:177-222 | moves the contents into an array of any requested size and leaves the old one without objects; no object is constructed over another exactly when there is room, and then the queue is as before |
| AtomicQueue.Queue.MoveAll | include/chenc/thread/atomic_queue.hpp:198-212 | the migration loop computes the array that the interleaving machine uses and empties the old one, and notices exactly the faults of that move |
| AtomicQueue.Queue.Destroy | include/chenc/thread/atomic_queue.hpp:58-70 | destroys exactly the objects still queued, in order, and no raw slot |
| AtomicQueue.PushVerdict | include/chenc/thread/atomic_queue.hpp:97-113 | a sequence equal to the tail means a raw slot with room; a smaller one means the ring has wrapped; it is never larger |
| AtomicQueue.PopVerdict | include/chenc/thread/atomic_queue.hpp:142-162 | the head's slot is published with the oldest value exactly when the queue is not empty, and otherwise its sequence is behind |
| AtomicQueue.HoldsMoved | include/chenc/thread/atomic_queue.hpp:193-212 | moving into any ring with room keeps the queue and leaves the other slots open at their index |
| Ring.IndexIsMask | include/chenc/thread/atomic_queue.hpp:93 | for a power of two, masking a position gives its place in the ring |
| Ring.IndexInjective | include/chenc/thread/atomic_queue.hpp:93 | positions less than a capacity apart have different places |
| Bits.BitCeilSpec | include/chenc/thread/atomic_queue.hpp:48 | bit_ceil gives the least power of two that is not smaller |
| ArrayUint.AddTo | include/chenc/struct/detail/array_big_int.hpp:128-208 | the result is the sum of the limbs all three numbers have, carry included, modulo 2^bits, also in place |
| ArrayUint.AddExactIff | include/chenc/struct/detail/array_big_int.hpp:137-166 | that is a + b modulo 2^bits exactly when the limbs left out do not show in the result |
| ArrayUint.AddExact | include/chenc/struct/detail/array_big_int.hpp:128-208 | add_to is a + b modulo 2^bits for equal limb counts and for results no longer than the shorter operand |
| ArrayUint.AddCanLose | include/chenc/struct/detail/array_big_int.hpp:137-166 | 2^64 in two limbs plus 1 in one limb, into 128 bits, comes out as 1 and not 2^64 + 1 |
| ArrayUint.SubTo | include/chenc/struct/detail/array_big_int.hpp:249-321 | the result is a less the limbs of b in reach, borrowed through the rest of a and wrapped around, modulo 2^bits, also in place |
| ArrayUint.SubExactIff | include/chenc/struct/detail/array_big_int.hpp:256-321 | that is a - b modulo 2^bits exactly when the limbs of b left out do not show in the result |
| ArrayUint.SubExact | include/chenc/struct/detail/array_big_int.hpp:249-321 | sub_to is a - b modulo 2^bits when b has no more limbs than a or the result has none more than a |
| ArrayUint.SubCanLose | include/chenc/struct/detail/array_big_int.hpp:256-321 | 5 in one limb less 2^64 in two limbs, into 128 bits, comes out as 5 and not 2^128 - 2^64 + 5 |
| ArrayUint.Uint.Sanitize | include/chenc/struct/detail/array_big_int.hpp:30-33 | masking the top limb reduces the value modulo 2^bits |
| ArrayShift.LeftShiftTo | include/chenc/struct/detail/array_big_int.hpp:361-443 | a * 2^shift modulo 2^bits for all widths and shifts, on the forward, the backward and the in-place path |
| ArrayShift.RightShiftTo | include/chenc/struct/detail/array_big_int.hpp:460-505 | floor(a / 2^shift) modulo 2^bits of a sanitized a, for all widths and shifts, also in place |
| ArrayShift.LeftThenRight | include/chenc/struct/detail/array_big_int.hpp:361-505 | at equal width, left then right by s is a modulo 2^(bits - s) |
| ArrayShift.RightThenLeft | include/chenc/struct/detail/array_big_int.hpp:361-505 | at equal width, right then left by s is a less a modulo 2^s |
| ArrayCompare.EqualTo | include/chenc/struct/detail/array_big_int.hpp:80-99 | equality of values, across widths |
| ArrayCompare.Compare | include/chenc/struct/detail/array_big_int.hpp:101-122 | the order of the values, or the report of a read past the right side, which happens exactly for a longer left side whose extra limbs are all zero |
| ArrayCompare.CompareCanReadOutside | include/chenc/struct/detail/array_big_int.hpp:101-122 | two zero limbs compared with one zero limb are equal values, and the comparison reads past the right side |
| ArrayCompare.Assign | include/chenc/struct/detail/array_big_int.hpp:56-77 | the value modulo 2^bits, from any width |
| Bits.LowIsMod | include/chenc/struct/detail/array_big_int.hpp:22-33 | the bit-by-bit definitions used above are division and remainder by 2^k |
| Bits.ShlIsTimes | include/chenc/struct/detail/array_big_int.hpp:361-443 | and multiplication by 2^k |
| UtfCodeTheorems.StrictAcceptsExactly | include/chenc/convert/detail/char_to_utf32.hpp:22-262 | in each encoding, strict decoding reports a code with its length exactly when the code is a scalar value, no noncharacter, and the text starts with what the encoder writes for it |
| UtfCodeTheorems.DecodeOfEncode | include/chenc/convert/detail/utf32_to_char.hpp:23-154 | what the encoder writes for a legal code decodes strictly to that code, whatever follows |
| UtfCodeTheorems.EncodeOfDecode | include/chenc/convert/detail/char_to_utf32.hpp:22-262 | what strict decoding accepts is what the encoder writes for the decoded code |
| UtfCodeTheorems.Utf8MeetsRfc | include/chenc/convert/detail/char_to_utf32.hpp:30-172 | the strict UTF-8 decoder accepts n bytes exactly when they match the syntax of section 4 of RFC 3629 and do not spell a noncharacter |
| UtfCodeTheorems.ModesAgree | include/chenc/convert/detail/char_to_utf32.hpp:22-262 | in every encoding, the decoding mode never changes how many units a character takes, and a laxer mode gives the same code wherever a stricter one accepts |
| UtfCodeTheorems.CompatibleInRange | include/chenc/convert/detail/char_to_utf32.hpp:159-164 | in compatible mode no code above U+10FFFF comes out |
| UtfDecoding.DecodeMeans | include/chenc/convert/detail/char_to_utf32.hpp:22-262 | on any units, in every encoding and mode, the decoder takes as many units as the first one calls for, by its range, whatever follows, and names the fault: cut off, a unit out of place, or what the mode objects to in the code they spell |
| UtfDecoding.LaxDecodeOfEncode | include/chenc/convert/detail/utf32_to_char.hpp:23-154 | the modes that are not strict read back surrogates, noncharacters and, unchecked, codes beyond U+10FFFF too |
| UtfMeaning.CodesMean | include/chenc/convert/detail/utf_to_utf.hpp:103-144 | a conversion passes on what the text means unit by unit: the codes spelled, and for each fault nothing, a substitute, or the end |
| UtfMeaning.StrayUnit | include/chenc/convert/detail/char_to_utf32.hpp:169-172 | a stray unit before a text costs nothing but itself: skipped, the text's codes are as without it |
| UtfTheorems.NormalWrites | include/chenc/convert/detail/utf_to_utf.hpp:103-187 | in normal mode exactly the longest prefix of the passed-on codes whose encoding fits is written, and out_overflow is reported exactly when that is not all |
| UtfTheorems.CountIsNeed | include/chenc/convert/detail/utf_to_utf.hpp:145-183 | without the block path, count and full mode report the length of the whole conversion as the need, whatever the room |
| UtfTheorems.TwoPasses | include/chenc/convert/detail/utf_to_utf.hpp:40-188 | with the counted room or more, a run fills exactly that much with the encoding of all codes, and has the count's status, errors and input counters |
| UtfTheorems.OverflowIff | include/chenc/convert/detail/utf_to_utf.hpp:172-177 | a normal run overflows exactly when its room is less than the count |
| UtfTheorems.SingleAgreesIff | include/chenc/convert/detail/utf_to_utf.hpp:10-36 | for a text of one character, in every output mode, char_to_char and str_to_str end alike in output, status and errors, except exactly where an error is skipped, a truncated character is to be replaced, or full mode overflows |
| UtfTheorems.SingleCounts | include/chenc/convert/detail/utf_to_utf.hpp:10-36 | char_to_char counts the units that str_to_str reads and needs, whether they fit or not, unless it replaces a truncated character: then those of the substitute |
| UtfTheorems.SingleElsewhere | include/chenc/convert/detail/utf_to_utf.hpp:10-36 | where the two conversions part, char_to_char treats skip mode as stop mode, full mode as normal mode, and a truncated character as any other bad one |
| UtfReports.OverflowMeans | include/chenc/convert/detail/utf_to_utf.hpp:145-183 | in every output mode, a run reports out_overflow exactly when it has a buffer and the buffer is too small for the whole conversion |
| UtfReports.StatusMeans | include/chenc/convert/detail/utf_to_utf.hpp:103-187 | in every output and error mode, the status is error exactly when a character was fatal or a normal run overflowed, and ok exactly when the whole text is well formed and its conversion fits; otherwise partial |
| UtfReports.CountersMean | include/chenc/convert/detail/utf_to_utf.hpp:103-187 | the counters and the error set are those of the characters read: all, or as far as the first fatal one or the one that overflows a normal run |
| UtfRoundTrip.OkIff | include/chenc/convert/detail/utf_to_utf.hpp:103-187 | a run ends with status ok exactly when the whole input is well formed and its conversion fits |
| UtfRoundTrip.AcceptedRun | include/chenc/convert/detail/utf_to_utf.hpp:103-187 | such a run's whole report and output |
| UtfBlocks.ScalarLoop | include/chenc/convert/detail/utf_to_utf.hpp:103-187 | the scalar loop does what splitting the text and playing its characters does |
| UtfBlocks.BlockLoop | include/chenc/convert/detail/utf_to_utf.hpp:49-101 | in normal mode a run with the block path that stays in the buffer has the scalar run's output and report |
| UtfBlocks.NarrowingIsSafe | include/chenc/convert/detail/utf_to_utf.hpp:50 | when units do not get wider no block is written past the buffer |
| UtfBlocks.CountedRoomIsSafe | include/chenc/convert/detail/utf_to_utf.hpp:50 | with the counted room no block is written past the buffer |
| UtfFormats.WordTest | include/chenc/convert/detail/utf_to_utf.hpp:51-99 | one mask on the eight gathered bytes tests that every unit is ASCII, for each unit width |
| UtfFormats.StrictIsExact | include/chenc/convert/detail/char_to_utf32.hpp:22-262 | UTF-8, UTF-16 and UTF-32 meet the laws the driver's theory asks of a strict format |
| UtfConversions.StrictRoundTrip | include/chenc/convert/detail/utf_to_utf.hpp:40-188 | for every pair of encodings, a strict run with status ok is undone by the strict run back: same units, same character count, no error |
| UtfConversions.StrictOutput | include/chenc/convert/detail/utf_to_utf.hpp:103-187 | after any strict run, truncated or overflowed ones too, the output is made of units of its encoding and decodes without error to the first codes accepted or substituted, in order |
| UtfConversions.CountThenConvertAll | include/chenc/convert/detail/utf_to_utf.hpp:236-254 | counting with an empty buffer and converting into exactly that much, block path on, stays in bounds, fills the buffer and reports the same |
| UtfConversions.InputLengthIsEnough | include/chenc/convert/detail/utf_to_utf.hpp:49-101 | into the same or wider units, a buffer as long as the input is never overrun, if a substitute is one unit, and the run is the scalar one |
| UtfLimits.NeedWithBlocks | include/chenc/convert/detail/utf_to_utf.hpp:49-101 | with the block path on, a count or full run that stays in the buffer reports a need short by exactly the units copied in blocks; the input counters, status and errors, and in full mode the output, are the scalar run's |
| UtfLimits.BlocksAgreeIff | include/chenc/convert/detail/utf_to_utf.hpp:49-101 | the block path changes neither output nor report, for any input, exactly when the room is below eight bytes of output, or in normal mode into units no wider |
| UtfLimits.FullNeedCanBeShort | include/chenc/convert/detail/utf_to_utf.hpp:49-67 | eight letters from UTF-8 to UTF-8 in full mode with room for them are converted with a need of 0, where the scalar loop reports 8 |
| UtfLimits.SafeRoomIff | include/chenc/convert/detail/utf_to_utf.hpp:50 | in every output mode, a room is safe for every input exactly when units do not get wider or it is below eight bytes of output; in count mode, where only blocks use up room, what whole input blocks leave of it |
| UtfLimits.GaplessIff | include/chenc/convert/utf_opt.hpp:42-47 | full mode writes the front of the converted text, whatever the input, in every decoding mode and with or without the block path, exactly for UTF-32 output or an empty buffer |
| UtfConvert.CharToUtf32 | include/chenc/convert/detail/char_to_utf32.hpp:22-262 | the branches over the input buffer compute the decoder's result |
| UtfConvert.Utf32ToChar | include/chenc/convert/detail/utf32_to_char.hpp:23-154 | writes the encoding at the cursor and nothing else, or reports the overflow or the count and writes nothing |
| UtfConvert.Account | include/chenc/convert/detail/utf_to_utf.hpp:106-142 | the counters, status and errors after a decode, in each error mode |
| UtfConvert.CharToChar | include/chenc/convert/detail/utf_to_utf.hpp:10-36 | the conversion of one character between two buffers has the specified result and writes only its units |
| UtfConvert.CopyBlock | include/chenc/convert/detail/utf_to_utf.hpp:58-59 | copies the block unit by unit and leaves the rest of the buffer alone |
| UtfConvert.StrToStr | include/chenc/convert/detail/utf_to_utf.hpp:40-188 | for every text and room, the loop over both buffers has the report and the output of the stepwise specification and writes nothing behind its cursor; where the source would copy a block past the end it stops and says so |
| UtfConvert.CountThenFill | include/chenc/convert/detail/utf_to_utf.hpp:236-254 | the program's two calls return a buffer filled exactly with the encoding of every code passed on, and two agreeing reports |
| UtfConvert.RoomIsFine | include/chenc/convert/detail/utf_to_utf.hpp:49-101 | rooms that are never overrun: without the block path, into units no wider, below eight bytes of output, or at least the counted room |

## Left out

- Weak memory orderings, cache-line layout, clocks and backoff: every atomic access is one sequentially consistent step, and when a thread spins, waits or wakes is a free choice.
- The concurrent parts run on values: their machines do not show reads and writes that overlap inside one access. The objects beside them carry out the same accesses on fields.
- RwLockTheorems.NoLostWakeup: assumes fewer than 2^16 threads with one hold each, that only holders unlock, and that no wait word's version wraps (2^48 releases).
- QueueTheorems.Fifo: positions are unbounded, so neither the wrap of a 64-bit position nor the signed reading of `seq - pos` beyond 2^63 is modelled. A run here moves the queue only into arrays with room for it; after a move without room an object is gone, and `QueueLimits` says exactly when that happens.
- QueueTheorems.NeverFaults: for queues made for at least two objects, in runs whose moves fit; `FaultFreeIff` and `SafeIffOneProducer` say why.
- QueueTheorems.GrowthKeepsTheQueue: the migration is one step of the machine, which is sound because the resizer is alone; its loop is `MoveAll` of the class.
- QueueReturns.LoneCallReturns: for a call left alone; how long a call takes while others keep winning its races is not bounded, nor is it in the code.
- QueueWaiting.SleeperIsNotified: that the resizer gets the processor in the end is not stated; schedules need not be fair.
- AtomicQueue.Queue.Push: the class is the queue for one thread at a time; moving from a value and exceptions thrown by a constructor are not modelled.
- AtomicQueue.Queue.ResetCapa: freeing the old array is not modelled; it is left without objects.
- ArrayUint.AddTo: the second phase of `add_to` can never run, since both its bounds are the common length; the model goes from the first phase to the carry.
- ArrayCompare.Compare: what the read past the right side would find is not modelled.
- Postfix `++` and `--`, the constructors from built-in integers, multiplication and string output of `array_uint`.
- ArrayShift.LeftShiftTo: whether two buffers are adjacent in memory is a parameter, because arrays have no addresses here; the result does not depend on it.
- UtfConvert.StrToStr: what a block written past the end does to memory is not modelled.
- UtfBlocks.BlockLoop: normal mode only, because in the others the code does something else; `NeedWithBlocks` and `BlocksAgreeIff` say exactly what and when.
- UtfTheorems.CountIsNeed: the scalar loop only, because blocks leave units out of the need; `NeedWithBlocks` says how many.
- UtfRoundTrip.AcceptedRun: units are 32-bit words within their width, so signed 16-bit unit types are not modelled.
- The unchecked buffer modes of the transcoder, and the wrap of its 64-bit counters.
- SharedMutexSafety.PendingIsJustified: nothing is claimed about wakeups of `shared_mutex`, `mutex` or `spin_lock`; the signal words are not modelled.
- The virtual machine, `utf_endian`, `no_ailgn_int`, dates, the thread pool, the benchmarks and file input and output.
