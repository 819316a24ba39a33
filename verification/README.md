# Verified models

Dafny models of the algorithms in this repository that carry state or arithmetic, with proofs of
what they are for. `dafny verify dfyconfig.toml` checks them. Code that works in place is modelled
by classes and loops that are proved against a reference definition; the laws are proved about the
reference.

| file | models |
|---|---|
| `HelloPipeline.dfy` | the greeting pipeline of lagom/hello: entity, journal, topic, subscriber, read table |
| `LinkedMap.dfy` | the insertion-ordered Map of core-js: linked list, index, iterators, `forEach` |
| `ToFixed.dfy` | `Number.prototype.toFixed` of core-js on six base-10^7 limbs |
| `ArrayMoves.dfy` | `copyWithin` and `splice` of core-js, with holes |
| `CodePoints.dfy` | `fromCodePoint`, reading code points and the string iterator of core-js |
| `ZoneTasks.dfy` | task states, task counts and zone frames of zone.js |
| `MicrotaskQueue.dfy` | the microtask queue of zone.js |
| `ZonePromise.dfy` | the promise of zone.js |
| `Loading.dfy` | what chunk arrival, deferred entries and cached `require` of the webpack runtime do |
| `WebpackRuntime.dfy` | the webpack runtime itself, in place, and a page that loads |
| `RingBuffer.dfy` | the ring buffer of data-structure/ring-buffer |
| `Pricing.dfy` | the leave-one-out price iteration of algorithm/pricing |
| `Framing.dfy` | the packets of the Erlang ports: the clock port that writes them, the port that reads them |
| `Paging.dfy` | paged queries and update-else-insert of the battery history |
| `Common.dfy` | an option datatype and distinctness |

How the environment enters: Kafka and Lagom keep order per shard and partition and replay from the
last committed offset; callbacks are the finite lists of what they do; clocks, formatted times, read
sizes and write failures are parameters; prices are reals. The bundled JavaScript files have one
line each, so a row names the webpack module or the function it models.

Some properties hold only under a condition, which is proved to be exact:

- Zone frame and current task are restored exactly when no `finally` block of `runTask` throws. Two
  callbacks make it throw: of an event task that cancels itself and schedules itself anew, and of a
  one-shot task that runs itself. Callbacks that schedule no task whose callback is on the stack, and
  run no one-shot task whose callback is on it, never do.
- A page starts exactly the entries whose chunks have arrived exactly when no ready entry is left
  waiting; an entry that throws leaves ready ones behind it waiting. Where no module catches an
  exception of another and no chunk replaces a module, a page sees no exception exactly when, whenever
  some of the chunks have arrived, all that the ready entries reach is there and does not throw.
- The body of an entry that has been started has run exactly once if its module was not required
  before it came, and never otherwise.
- Of the rejections nobody waits for all are reported but those a `finally` promise passes on.
- Code points survive a round trip exactly when no high surrogate is followed by a low one.
- hello.c computes the packet length from signed characters and has a buffer of 65535 bytes, so a
  length reads back exactly when it is from 1 to 65533 and its low byte is below 128 or its high byte
  is 0xFF. All lengths clock.c writes do.
- When the whole input is delivered and nothing stops it, the clock port answers all requests exactly
  when no read runs over the end of one.
- The row bounds of a page are 32-bit products, so a page is right for every table exactly when page
  times size plus one is within 32 bits.

## Model

| member | source | states |
|---|---|---|
| HelloPipeline.RowsAreJournaled | lagom/hello/stream-impl/src/main/java/lagom/hello/stream/impl/StreamSubscriber.java:19-34 | Safety: in every interleaving of commands, snapshots, publishing, delivery, commits and crashes of producer and consumer, a row of the read table holds a message that was journaled for its own name. |
| HelloPipeline.StreamsAgreeWhenCaughtUp | lagom/hello/stream-impl/src/main/java/lagom/hello/stream/impl/StreamServiceImpl.java:28-40 | Convergence: in every run, once a name's shard has been published and its partition consumed, both stream endpoints give the same reply for it, for names never greeted too. |
| HelloPipeline.DirectReplyIsLastAsked | lagom/hello/hello-impl/src/main/java/lagom/hello/hello/impl/HelloEntity.java:56-78 | In every run the reply of the entity is the text of the last `useGreeting` for the name, or "Hello" when there was none, then ", ", the name and "!". |
| HelloPipeline.AutonomousReplyIsLastAsked | lagom/hello/stream-impl/src/main/java/lagom/hello/stream/impl/StreamServiceImpl.java:34-40 | Once caught up the reply from the read table is the same; and a row always holds a text that some `useGreeting` of the run asked for, for that name. |
| HelloPipeline.JournalIsWhatWasAsked | lagom/hello/hello-impl/src/main/java/lagom/hello/hello/impl/HelloEntity.java:56-61 | In every run a name has been journaled exactly the texts asked for it, in the order of asking; nothing else is journaled. |
| HelloPipeline.StepKeepsInv | lagom/hello/hello-impl/src/main/java/lagom/hello/hello/impl/HelloServiceImpl.java:60-87 | Every step, rollbacks to a committed offset included, keeps the invariant: records are journal entries in the partition of their key, the newest record of a name is at least as new as what the producer has passed, and a row is at least as new as what the consumer has passed. |
| HelloPipeline.CatchUpExists | lagom/hello/hello-impl/src/main/java/lagom/hello/hello/impl/HelloServiceImpl.java:60-87 | From every state the invariant allows, publishing and delivering alone lead to a caught-up state with the same journal, so convergence is reachable. |
| HelloPipeline.PublishKeepsInv | lagom/hello/hello-impl/src/main/java/lagom/hello/hello/impl/HelloServiceImpl.java:62-84 | Republishing from an older offset may repeat old events of a name after newer ones; the newest record never falls behind the producer's position. |
| HelloPipeline.ConsumerCrashKeepsInv | lagom/hello/stream-impl/src/main/java/lagom/hello/stream/impl/StreamSubscriber.java:19-34 | A consumer that goes back to its committed offset leaves rows that are still at least as new as its position. |
| HelloPipeline.CrashResumes | lagom/hello/hello-impl/src/main/java/lagom/hello/hello/impl/HelloServiceImpl.java:60-87 | A producer or consumer that crashes goes on from the last offset it has committed; nothing else changes. |
| HelloPipeline.RowIsLast | lagom/hello/hello-api/src/main/java/lagom/hello/hello/api/HelloService.java:53-61 | In one partition that has been published and consumed to the end, the row of a name holds the message of the name's last journal entry, and there is no row exactly when there is no entry. |
| HelloPipeline.ReplayIsLast | lagom/hello/hello-impl/src/main/java/lagom/hello/hello/impl/HelloEntity.java:66-69 | Replaying an entity's events gives the message of its last event, or the initial greeting when it has none. |
| HelloPipeline.RecoverIsReplay | lagom/hello/hello-impl/src/main/java/lagom/hello/hello/impl/HelloEntity.java:50-51 | Recovering from any sound snapshot gives the state a full replay gives. |
| HelloPipeline.SnapshotIsReplay | lagom/hello/hello-impl/src/main/java/lagom/hello/hello/impl/HelloEntity.java:50-51 | A snapshot is the state of a full replay of the events it stands for. |
| HelloPipeline.UpsertAllKeepsLast | lagom/hello/stream-impl/src/main/java/lagom/hello/stream/impl/StreamRepository.java:37-42 | After a whole log has been consumed each name mentioned has the message of its last event, and every other row is as it was. |
| HelloPipeline.StreamRepository.Consume | lagom/hello/stream-impl/src/main/java/lagom/hello/stream/impl/StreamSubscriber.java:23-34 | The one-at-a-time flow writes the events in order, and every row still holds what was last written for its name. |
| HelloPipeline.StreamRepository.UpdateMessage | lagom/hello/stream-impl/src/main/java/lagom/hello/stream/impl/StreamRepository.java:37-42 | After an upsert the name's row reads back as the message; no other row has appeared, gone or changed. |
| HelloPipeline.StreamRepository.GetMessage | lagom/hello/stream-impl/src/main/java/lagom/hello/stream/impl/StreamRepository.java:44-48 | What is read for a name is the message of the last write for that name in the whole history of writes, and nothing when there was none. |
| MapData.LiveIteration | spring/rest/my-app/src/main/resources/static/polyfills-es5.d96a4483801ea6ce9979.js:1 | `nIH4`, against section 23.1.3.5 of ECMA-262 10th edition: with any changes between its steps, an iterator yields each record at most once, in insertion order, and has yielded every record still live below its position; what it has yielded is never taken back. |
| MapData.ReadsBackLastSet | spring/rest/my-app/src/main/resources/static/polyfills-es5.d96a4483801ea6ce9979.js:1 | `nIH4`: after any operations every key has the value last set for it, unless it has been removed or the map cleared since, and no other. |
| MapData.PutReadsBack | spring/rest/my-app/src/main/resources/static/polyfills-es5.d96a4483801ea6ce9979.js:1 | `nIH4` set: the key has the value and no other one; a key that was there keeps its place, a new one comes after all others; other records are what and where they were. |
| MapData.RemoveForgets | spring/rest/my-app/src/main/resources/static/polyfills-es5.d96a4483801ea6ce9979.js:1 | `nIH4` delete: the key has no value, and nothing else has changed. |
| MapData.StepYields | spring/rest/my-app/src/main/resources/static/polyfills-es5.d96a4483801ea6ce9979.js:1 | `nIH4` next: a step yields key and value of the first live record at or after the position, and stops only when there is none. |
| MapData.LiveCountIsCardinality | spring/rest/my-app/src/main/resources/static/polyfills-es5.d96a4483801ea6ce9979.js:1 | `nIH4` size: the size kept by every operation is the number of live records. |
| MapData.HappenFaithful | spring/rest/my-app/src/main/resources/static/polyfills-es5.d96a4483801ea6ce9979.js:1 | `nIH4`: one step or one change keeps this, and a step yields only a record that is live. |
| MapData.ExhaustionIsComplete | spring/rest/my-app/src/main/resources/static/polyfills-es5.d96a4483801ea6ce9979.js:1 | `nIH4`: at the step that exhausts an iterator every live record has been yielded. |
| MapData.DoneStaysDone | spring/rest/my-app/src/main/resources/static/polyfills-es5.d96a4483801ea6ce9979.js:1 | `nIH4`: an exhausted iterator yields nothing more, whatever is added later. |
| MapData.ForEachIsIteration | spring/rest/my-app/src/main/resources/static/polyfills-es5.d96a4483801ea6ce9979.js:1 | `nIH4`: `forEach` with a callback that changes the map visits exactly what an iterator would yield, to its end, and leaves the same records. |
| MapData.ApplyKeepsDistinctKeys | spring/rest/my-app/src/main/resources/static/polyfills-es5.d96a4483801ea6ce9979.js:1 | `nIH4`: no operation leaves two live records with the same key. |
| Links.UnlinkOk | spring/rest/my-app/src/main/resources/static/polyfills-es5.d96a4483801ea6ce9979.js:1 | `nIH4`: taking an entry out of the chain keeps the shape: live neighbours point at each other, and the `previous` of every entry, removed ones included, leads over removed entries only to an earlier live one. |
| Links.AppendOk | spring/rest/my-app/src/main/resources/static/polyfills-es5.d96a4483801ea6ce9979.js:1 | `nIH4`: appending keeps the shape. |
| Links.BackSkipsRemoved | spring/rest/my-app/src/main/resources/static/polyfills-es5.d96a4483801ea6ce9979.js:1 | `nIH4`: walking back from any entry ever created ends at its nearest live predecessor, skipping only removed ones. |
| Links.SuccessorIsNextLive | spring/rest/my-app/src/main/resources/static/polyfills-es5.d96a4483801ea6ce9979.js:1 | `nIH4`: the entry after that predecessor is the next live record of the reference list. |
| LinkedMap.State.Put | spring/rest/my-app/src/main/resources/static/polyfills-es5.d96a4483801ea6ce9979.js:1 | `nIH4` set: index, ends, links and size represent the reference list with the record overwritten in place or appended; the key reads back as the value, all other records as before. |
| LinkedMap.State.Remove | spring/rest/my-app/src/main/resources/static/polyfills-es5.d96a4483801ea6ce9979.js:1 | `nIH4` delete: they represent the list with that record emptied; the result tells whether the key had a value; it has none afterwards, and all other records are as before. |
| LinkedMap.State.Clear | spring/rest/my-app/src/main/resources/static/polyfills-es5.d96a4483801ea6ce9979.js:1 | `nIH4` clear: they represent the list with every record emptied, so no key has a value, although the entries are still reachable from iterators. |
| LinkedMap.State.GetEntry | spring/rest/my-app/src/main/resources/static/polyfills-es5.d96a4483801ea6ce9979.js:1 | `nIH4`: looking up by index key gives the entry a linear scan of the list finds, for indexed and unindexed keys. |
| LinkedMap.State.Scan | spring/rest/my-app/src/main/resources/static/polyfills-es5.d96a4483801ea6ce9979.js:1 | `nIH4`: the walk over the links finds the first live record with the key, or none. |
| LinkedMap.State.Has | spring/rest/my-app/src/main/resources/static/polyfills-es5.d96a4483801ea6ce9979.js:1 | `nIH4` has: true exactly when some live record has the key. |
| LinkedMap.State.Get | spring/rest/my-app/src/main/resources/static/polyfills-es5.d96a4483801ea6ce9979.js:1 | `nIH4` get: the value of the live record with the key, if any. |
| LinkedMap.State.Successor | spring/rest/my-app/src/main/resources/static/polyfills-es5.d96a4483801ea6ce9979.js:1 | `nIH4`: from an entry that may have been removed meanwhile, the step back over `previous` and on over `next` reaches the next live record after its position. |
| LinkedMap.State.ForEach | spring/rest/my-app/src/main/resources/static/polyfills-es5.d96a4483801ea6ce9979.js:1 | `nIH4` forEach: the pairs visited and the records left are those of the reference traversal, for a callback that sets, deletes and clears. |
| LinkedMap.Iterator.Next | spring/rest/my-app/src/main/resources/static/polyfills-es5.d96a4483801ea6ce9979.js:1 | `nIH4` next: the linked iterator advances as the reference cursor does and returns its record, and drops its target for good at the end. |
| LinkedMap.Traverse | spring/rest/my-app/src/main/resources/static/polyfills-es5.d96a4483801ea6ce9979.js:1 | `nIH4`: a whole traversal with changes between the steps yields the pairs of the reference run. |
| ToFixed.Format | spring/rest/my-app/src/main/resources/static/polyfills-es5.d96a4483801ea6ce9979.js:1 | `8xKV`, section 20.1.3.3 of ECMA-262 10th edition: RangeError exactly for digits outside 0 to 20; otherwise the text is a sign, exactly for negative numbers, and a numeral without superfluous zeros, with exactly the digits asked for, that denotes the integer closest to the number times 10^digits, the larger one on a tie. |
| ToFixed.HalfUpIsClosest | spring/rest/my-app/src/main/resources/static/polyfills-es5.d96a4483801ea6ce9979.js:1 | `8xKV`: adding one and halving after the division by 2^(e-1) rounds n * 10^digits / 2^e to the nearest integer, ties up. |
| ToFixed.RoundedDigits | spring/rest/my-app/src/main/resources/static/polyfills-es5.d96a4483801ea6ce9979.js:1 | `8xKV`: scaling, shifting and rounding in the six limbs gives the numeral of the rounded quotient for every mantissa below 2^53, shift and digits up to 20. |
| ToFixed.NoCarryLost | spring/rest/my-app/src/main/resources/static/polyfills-es5.d96a4483801ea6ce9979.js:1 | `8xKV`: multiplying limbs loses no carry when the product fits them. |
| ToFixed.ScaledFits | spring/rest/my-app/src/main/resources/static/polyfills-es5.d96a4483801ea6ce9979.js:1 | `8xKV`: every scaled mantissa, and one more, fits six limbs of base 10^7. |
| ToFixed.TimesValue | spring/rest/my-app/src/main/resources/static/polyfills-es5.d96a4483801ea6ce9979.js:1 | `8xKV`: the limbs and the carry out of the top are t times the value plus the addend. |
| ToFixed.OverValue | spring/rest/my-app/src/main/resources/static/polyfills-es5.d96a4483801ea6ce9979.js:1 | `8xKV`: dividing limbs from the top gives quotient and remainder of the value, with every limb in range. |
| ToFixed.Multiply | spring/rest/my-app/src/main/resources/static/polyfills-es5.d96a4483801ea6ce9979.js:1 | `8xKV` function `d`: the loop in place computes limb multiplication with carries, modulo the six limbs. |
| ToFixed.CarryBound | spring/rest/my-app/src/main/resources/static/polyfills-es5.d96a4483801ea6ce9979.js:1 | `8xKV` function `d`: every sum of a carry and a product in that loop is below 2^53, so it is exact in a double, and the next carry is in range again. |
| ToFixed.Divide | spring/rest/my-app/src/main/resources/static/polyfills-es5.d96a4483801ea6ce9979.js:1 | `8xKV` function `g`: the loop in place leaves the quotient, rounded down. |
| ToFixed.Show | spring/rest/my-app/src/main/resources/static/polyfills-es5.d96a4483801ea6ce9979.js:1 | `8xKV` function `y`: the printed limbs are a numeral without leading zeros that parses back to their value. |
| ToFixed.QuotientOfQuotient | spring/rest/my-app/src/main/resources/static/polyfills-es5.d96a4483801ea6ce9979.js:1 | `8xKV`: dividing in pieces of 2^23 is dividing by the whole power of two. |
| ToFixed.PlacePointIsFixed | spring/rest/my-app/src/main/resources/static/polyfills-es5.d96a4483801ea6ce9979.js:1 | `8xKV`: placing the point, with zeros in front where needed, keeps the denoted integer at the scale asked for. |
| ToFixed.SmallRoundsToZero | spring/rest/my-app/src/main/resources/static/polyfills-es5.d96a4483801ea6ce9979.js:1 | `8xKV`: for a magnitude of at most 10^-21 zero is the closest integer at every scale, so skipping the arithmetic is right. |
| Power.FastPowIsPow | spring/rest/my-app/src/main/resources/static/polyfills-es5.d96a4483801ea6ce9979.js:1 | `8xKV` function `f`: square-and-multiply with an accumulator is the accumulator times the power. |
| Numerals.DecimalIsNumeral | spring/rest/my-app/src/main/resources/static/polyfills-es5.d96a4483801ea6ce9979.js:1 | `8xKV`: the decimal text of a limb has no leading zeros and parses back to it. |
| Numerals.AppendPadded | spring/rest/my-app/src/main/resources/static/polyfills-es5.d96a4483801ea6ce9979.js:1 | `8xKV` function `y`: a limb padded to seven digits appends base-10^7 place value. |
| ArrayMoves.ArrayLike.CopyWithin | spring/rest/my-app/src/main/resources/static/polyfills-es5.d96a4483801ea6ce9979.js:1 | `4GtL`, section 22.1.3.3 of ECMA-262 10th edition: the span has the position each argument stands for, from the front or from the end, and as many cells as lie before its end and fit; for every overlap and direction the cells, holes included, are what copying from a snapshot of the array gives, and no other cell changes. |
| ArrayMoves.Resolve | spring/rest/my-app/src/main/resources/static/polyfills-es5.d96a4483801ea6ce9979.js:1 | `4GtL`: for all arguments, negative and out of range ones too, the resolved span reads and writes inside the array. |
| ArrayMoves.ResolvesTo | spring/rest/my-app/src/main/resources/static/polyfills-es5.d96a4483801ea6ce9979.js:1 | `4GtL`, `7Oj1`: the resolved span is the one span that begins at the positions the arguments stand for and has as many cells as lie before the end and fit. |
| ArrayMoves.CountedFromTheEnd | spring/rest/my-app/src/main/resources/static/polyfills-es5.d96a4483801ea6ce9979.js:1 | `7Oj1`: a negative target, start or end does what the position it stands for does; a target and a start inside the array are those positions. |
| ArrayMoves.CopyWithinIsSlices | spring/rest/my-app/src/main/resources/static/polyfills-es5.d96a4483801ea6ce9979.js:1 | `4GtL`: on an array without holes one slice is overwritten by another, whatever their overlap. |
| ArrayMoves.ArrayLike.Splice | spring/rest/my-app/src/main/resources/static/polyfills-es5.d96a4483801ea6ce9979.js:1 | `sQrk`: for no, one or more arguments the start and the number of removed cells are those the arguments ask for, and the returned slice, the new length and every cell are as section 22.1.3.28 asks, holes included; both errors come before any change. |
| ArrayMoves.AsksExactly | spring/rest/my-app/src/main/resources/static/polyfills-es5.d96a4483801ea6ce9979.js:1 | `sQrk`: start and number of removed cells are the only ones the arguments ask for: all the rest without a number, none for a negative one, never more than there are. |
| ArrayMoves.SpliceFromTheEnd | spring/rest/my-app/src/main/resources/static/polyfills-es5.d96a4483801ea6ce9979.js:1 | `sQrk`: a negative start does what the position it stands for does. |
| ArrayMoves.MoveClearFill | spring/rest/my-app/src/main/resources/static/polyfills-es5.d96a4483801ea6ce9979.js:1 | `sQrk`: shifting the rest, clearing what is past the new end and filling in the items together are a splice, for fewer, as many or more items than were removed. |
| ArrayMoves.SpliceIsSlices | spring/rest/my-app/src/main/resources/static/polyfills-es5.d96a4483801ea6ce9979.js:1 | `sQrk`: without holes the array becomes prefix, items and suffix, and the slice between them is returned. |
| ArrayMoves.SpliceUndone | spring/rest/my-app/src/main/resources/static/polyfills-es5.d96a4483801ea6ce9979.js:1 | `sQrk`: splicing the returned slice back in over the inserted items restores the array exactly when the slice has no hole. |
| ArrayMoves.ArrayLike.MoveUp | spring/rest/my-app/src/main/resources/static/polyfills-es5.d96a4483801ea6ce9979.js:1 | `sQrk`: moving away from the front, last cell first, takes every cell from where it was before. |
| ArrayMoves.ArrayLike.MoveDown | spring/rest/my-app/src/main/resources/static/polyfills-es5.d96a4483801ea6ce9979.js:1 | `sQrk`: moving towards the front, first cell first, takes every cell from where it was before. |
| CodePoints.RoundTrip | spring/rest/my-app/src/main/resources/static/polyfills-es5.d96a4483801ea6ce9979.js:1 | `r8F+`, `G7bs`, `tkWj`: code points survive encoding and reading back exactly when no high surrogate is directly followed by a low one. |
| CodePoints.ScalarRoundTrip | spring/rest/my-app/src/main/resources/static/polyfills-es5.d96a4483801ea6ce9979.js:1 | Sections 2.1 and 2.2 of RFC 2781: every sequence of Unicode scalar values comes back. |
| CodePoints.EncodeOneIsUtf16 | spring/rest/my-app/src/main/resources/static/polyfills-es5.d96a4483801ea6ce9979.js:1 | `r8F+`: section 2.1 of RFC 2781: the two units hold the upper and lower ten bits of what exceeds U+FFFF. |
| CodePoints.DecodeEncode | spring/rest/my-app/src/main/resources/static/polyfills-es5.d96a4483801ea6ce9979.js:1 | `r8F+`, `G7bs`, `tkWj`: every string, lone surrogates included, is recovered from the code points read from it. |
| CodePoints.DecodeJoinsPairs | spring/rest/my-app/src/main/resources/static/polyfills-es5.d96a4483801ea6ce9979.js:1 | `G7bs`: reading never leaves the two halves of a surrogate pair apart. |
| CodePoints.SplitPairIsJoined | spring/rest/my-app/src/main/resources/static/polyfills-es5.d96a4483801ea6ce9979.js:1 | `r8F+`: the pair U+D83D, U+DE00 does not survive; it comes back as U+1F600. |
| CodePoints.PiecesAreTheString | spring/rest/my-app/src/main/resources/static/polyfills-es5.d96a4483801ea6ce9979.js:1 | `tkWj`: the characters an iterator yields make up the string again. |
| CodePoints.FromCodePoint | spring/rest/my-app/src/main/resources/static/polyfills-es5.d96a4483801ea6ce9979.js:1 | `r8F+`: all arguments acceptable gives the encoding of all of them; otherwise RangeError for the first that is not an integer from 0 to 0x10FFFF. |
| CodePoints.Spread | spring/rest/my-app/src/main/resources/static/polyfills-es5.d96a4483801ea6ce9979.js:1 | `tkWj`: calling the iterator until it is done yields exactly the characters of the string, and ends. |
| CodePoints.StringIterator.Next | spring/rest/my-app/src/main/resources/static/polyfills-es5.d96a4483801ea6ce9979.js:1 | `tkWj` next: the first character of what is left, and the iterator stands after it; nothing when nothing is left. |
| CodePoints.CharAt | spring/rest/my-app/src/main/resources/static/polyfills-es5.d96a4483801ea6ce9979.js:1 | `G7bs` charAt: one or two units at the position, inside the string. |
| TaskCountsMeaning.CountIsPending | spring/rest/my-app/src/main/resources/static/polyfills-es2015.c1826dad343641152515.js:1 | `_updateTaskCount`: a delegate's count of a type is the number of scheduled or running tasks announced to it that have not given their count back, plus those a failed cancellation left behind. |
| TaskCountsMeaning.LastNoticeIsCurrent | spring/rest/my-app/src/main/resources/static/polyfills-es2015.c1826dad343641152515.js:1 | `_updateTaskCount`: the last hasTask notification tells whether anything of the type is counted. |
| TaskCounts.BumpAlternates | spring/rest/my-app/src/main/resources/static/polyfills-es2015.c1826dad343641152515.js:1 | `_updateTaskCount`: hasTask notifications alternate between non-empty and empty, starting with non-empty. |
| TaskCounts.TakeCounts | spring/rest/my-app/src/main/resources/static/polyfills-es2015.c1826dad343641152515.js:1 | `scheduleTask`: a task that takes its counts keeps every count of every delegate exact. |
| TaskCounts.ReturnCounts | spring/rest/my-app/src/main/resources/static/polyfills-es2015.c1826dad343641152515.js:1 | `_updateTaskCount`: a task that returns its counts keeps every count exact, and none falls below zero. |
| ZoneTasks.Runtime.UpdateCounts | spring/rest/my-app/src/main/resources/static/polyfills-es2015.c1826dad343641152515.js:1 | `_updateTaskCount`: exactly the delegates told of the task change, each by one; the error "More tasks executed then were scheduled." cannot be reached. |
| ZoneTasks.Runtime.ScheduleTask | spring/rest/my-app/src/main/resources/static/polyfills-es2015.c1826dad343641152515.js:1 | `scheduleTask`: which requests are refused, the task after each outcome of the hooks, who holds a count; the accounting holds afterwards, for any task. |
| ZoneTasks.Runtime.CancelTask | spring/rest/my-app/src/main/resources/static/polyfills-es2015.c1826dad343641152515.js:1 | `cancelTask`: only scheduled or running tasks of the zone are cancelled; a failed cancellation leaves the task unknown and keeps its count; one of a task that has given its count back throws and leaves it halfway; the accounting holds afterwards. |
| ZoneTasks.Runtime.InvokeTask | spring/rest/my-app/src/main/resources/static/polyfills-es2015.c1826dad343641152515.js:1 | `runTask`: for every callback, nested, throwing and re-entering ones included, the accounting holds; after an outermost run a one-shot task holds no count, whatever its callback did, and any other task is scheduled again and counted once, also when the callback cancelled it and scheduled it anew, or was cancelled and holds none. |
| ZoneTasks.Runtime.Perform | spring/rest/my-app/src/main/resources/static/polyfills-es2015.c1826dad343641152515.js:1 | `run`, `runGuarded`, `runTask`: over every finite nesting the accounting holds and unknown tasks stay as they are; tasks and exception are those of the machine; zone frame and current task are those before exactly when no `finally` block of a run has thrown. |
| ZoneTasks.EffectIsExecuted | spring/rest/my-app/src/main/resources/static/polyfills-es2015.c1826dad343641152515.js:1 | The nested account of a callback, of every depth, agrees with a machine that goes through its instructions one by one, passes over operations while an exception is on its way, and stops it only at a handler. |
| ZoneTasks.WhoThrows | spring/rest/my-app/src/main/resources/static/polyfills-es2015.c1826dad343641152515.js:1 | `run` lets out every exception of its callback and of the operations in it, `runGuarded` those the error hook has not handled, a caught operation none; apart from that they do what the callback does. |
| ZoneTasks.TaskThrows | spring/rest/my-app/src/main/resources/static/polyfills-es2015.c1826dad343641152515.js:1 | `runTask` lets out an exception of the callback that the error hook has not handled, and one of its own `finally` block. |
| ZoneTasks.NothingAfterException | spring/rest/my-app/src/main/resources/static/polyfills-es2015.c1826dad343641152515.js:1 | Operations run one after the other; none after the first that throws has any effect. |
| ZoneTasks.RestoredExactly | spring/rest/my-app/src/main/resources/static/polyfills-es2015.c1826dad343641152515.js:1 | Each block that throws leaves one zone frame too many for good, and only without any are frame and current task back. |
| ZoneTasks.RescheduledEventTask | spring/rest/my-app/src/main/resources/static/polyfills-es2015.c1826dad343641152515.js:1 | `runTask`: the input on which they are not: an event task whose callback cancels it and schedules it again; the final transition throws and the frame stays. |
| ZoneTasks.ReenteredTimer | spring/rest/my-app/src/main/resources/static/polyfills-es2015.c1826dad343641152515.js:1 | `runTask`: another one: a one-shot task whose callback runs it; the inner run gives the count back, so the outer one throws, the frame stays and the task is left running. |
| ZoneTasks.CalmRestores | spring/rest/my-app/src/main/resources/static/polyfills-es2015.c1826dad343641152515.js:1 | Callbacks that schedule no task whose callback is on the stack, and run no one-shot task whose callback is on it, always restore both. |
| MicrotaskQueue.Queue.Drain | spring/rest/my-app/src/main/resources/static/polyfills-es2015.c1826dad343641152515.js:1 | Function `_`: outside a drain the queue ends empty and every microtask ever enqueued has been started once, in order of enqueuing; inside a drain nothing happens. |
| MicrotaskQueue.Queue.RunBatch | spring/rest/my-app/src/main/resources/static/polyfills-es2015.c1826dad343641152515.js:1 | Function `_`: a batch runs in order, also past throwing microtasks; what it enqueues waits for the next batch. |
| MicrotaskQueue.Queue.Schedule | spring/rest/my-app/src/main/resources/static/polyfills-es2015.c1826dad343641152515.js:1 | Function `g`: the microtask joins the end of the queue, and something is always due to drain it. |
| MicrotaskQueue.Queue.InvokeOutermost | spring/rest/my-app/src/main/resources/static/polyfills-es2015.c1826dad343641152515.js:1 | `invokeTask`: when the outermost invocation returns, also by an exception, every microtask has been run. |
| MicrotaskQueue.Queue.InvokeNested | spring/rest/my-app/src/main/resources/static/polyfills-es2015.c1826dad343641152515.js:1 | `invokeTask`: below another invocation or inside a drain nothing is started and the depth is restored. |
| MicrotaskQueue.Queue.NativeDrain | spring/rest/my-app/src/main/resources/static/polyfills-es2015.c1826dad343641152515.js:1 | `g` and `_`: the native drain that was requested runs everything. |
| MicrotaskQueue.EnqueuedStep | spring/rest/my-app/src/main/resources/static/polyfills-es2015.c1826dad343641152515.js:1 | Function `_`: every batch leaves less work than it had, so draining ends although microtasks enqueue more. |
| MicrotaskQueue.IdsContinue | spring/rest/my-app/src/main/resources/static/polyfills-es2015.c1826dad343641152515.js:1 | Functions `g` and `_`: started, in the batch and queued together are always all microtasks enqueued so far, each once, in order. |
| MicrotaskQueue.SpawnsIsExecuted | spring/rest/my-app/src/main/resources/static/polyfills-es2015.c1826dad343641152515.js:1 | What a callback enqueues, through any nesting of invocations, is what a machine enqueues that goes through its acts one by one and passes over them while an exception is on its way. |
| MicrotaskQueue.WhoThrows | spring/rest/my-app/src/main/resources/static/polyfills-es2015.c1826dad343641152515.js:1 | `invokeTask`: an invocation enqueues what its callback does, and lets an exception out exactly when the callback or an invocation in it throws and nobody catches it. |
| MicrotaskQueue.NothingAfterException | spring/rest/my-app/src/main/resources/static/polyfills-es2015.c1826dad343641152515.js:1 | Acts follow one another; none after the first that throws enqueues anything. |
| ZonePromise.Promises.Run | spring/rest/my-app/src/main/resources/static/polyfills-es2015.c1826dad343641152515.js:1 | In every run of `then`, resolve, reject and guarded callbacks a promise settles at most once and keeps its value, its only later state change being rejected-without-catch to rejected; every reaction registered has been scheduled exactly once, in order, when its promise is settled, and not before; every promise rejected without catch is listed until it is reported or handled, and reported at most once. |
| ZonePromise.Promises.Settle | spring/rest/my-app/src/main/resources/static/polyfills-es2015.c1826dad343641152515.js:1 | Function `P`: the promise takes state and value, rejected without catch exactly for a rejection nobody waits for; a resolved `finally` promise takes exactly what it stored; all waiting reactions are scheduled in the order of their registration, and the promise joins the list of uncaught rejections exactly when it is rejected itself and nothing waits for it. |
| PromiseTable.ListedExactly | spring/rest/my-app/src/main/resources/static/polyfills-es2015.c1826dad343641152515.js:1 | Function `P`: of the promises that end rejected with nothing waiting, all are listed as uncaught except a `finally` promise that passes a rejection on. |
| PromiseTable.PassedOnIsUnlisted | spring/rest/my-app/src/main/resources/static/polyfills-es2015.c1826dad343641152515.js:1 | Function `P`: the rejection that is never reported: a `finally` promise that passes it on to nobody. |
| ZonePromise.Promises.Resolve | spring/rest/my-app/src/main/resources/static/polyfills-es2015.c1826dad343641152515.js:1 | Function `P`: it throws exactly when the resolution is circular: with itself, with a promise rejected with it, or with an object whose `then`, or whose getter, throws something circular before it calls back. Otherwise it leaves a settled promise alone, takes a plain value, adopts the state of a settled promise, waits for an unresolved one, or does what the first act of a foreign `then` makes it do; it changes nothing else and schedules the waiting reactions in order. |
| ZonePromise.Promises.ResolveCatching | spring/rest/my-app/src/main/resources/static/polyfills-es2015.c1826dad343641152515.js:1 | Function `Z`: a circular resolution of an unresolved promise rejects it with the type error and schedules its reactions; any other does what `P` does. |
| ZonePromise.CaughtMeans | spring/rest/my-app/src/main/resources/static/polyfills-es2015.c1826dad343641152515.js:1 | Functions `P` and `Z`: what a value comes to, through objects whose `then` throws or calls back first, decides: a plain value or a rejection is taken as it is, a settled promise hands over its value and counts as handled, an unresolved one is waited for, and what is circular becomes the type error. |
| ZonePromise.Promises.Then | spring/rest/my-app/src/main/resources/static/polyfills-es2015.c1826dad343641152515.js:1 | `then`: on an unresolved promise the reaction waits; on a settled one it is scheduled at once, and an uncaught rejection becomes handled and leaves the list. |
| ZonePromise.Promises.Handled | spring/rest/my-app/src/main/resources/static/polyfills-es2015.c1826dad343641152515.js:1 | Function `j`: only the state of a rejection without catch changes. |
| ZonePromise.Promises.RemoveUncaught | spring/rest/my-app/src/main/resources/static/polyfills-es2015.c1826dad343641152515.js:1 | Function `j`: although its loop skips an index after each removal, exactly this promise leaves the list. |
| ZonePromise.Promises.CallOnce | spring/rest/my-app/src/main/resources/static/polyfills-es2015.c1826dad343641152515.js:1 | Guarded callbacks: the first call of any callback under a guard resolves or rejects the promise as `Z` does; all later ones change nothing. |
| PromiseTable.UpdateConsistent | spring/rest/my-app/src/main/resources/static/polyfills-es2015.c1826dad343641152515.js:1 | `P`, `C`, `j`: changing the record of one promise and scheduling its reactions keeps every promise's reactions accounted for. |
| PromiseTable.JobsOfMany | spring/rest/my-app/src/main/resources/static/polyfills-es2015.c1826dad343641152515.js:1 | Function `P`: scheduling a list of reactions adds them, in order, to the jobs of that promise and of no other. |
| WebpackRuntime.LoadPage | spring/rest/my-app/src/main/resources/static/runtime-es2015.b948044840398824f16e.js:1 | For every split into chunks before and after the start, whatever throws: only ready entries are started, none more often than deferred, none is lost, no module body runs twice, and the body of a started entry has run exactly once unless its module was required before it came, in which case it never has. Without an exception each chunk is recorded once and the entries started are exactly those all of whose chunks have arrived. There is no exception, and no module is required too early, while all that the ready entries reach has arrived and none of it throws; where nothing is caught and no module replaced, only then. |
| Loading.VisitIsSafe | spring/rest/my-app/src/main/resources/static/runtime-es2015.b948044840398824f16e.js:1 | What survives every exception, for the whole page: only ready entries are started, none more often than deferred, none is lost, and each module cached has run its body once or was absent when it was first required. |
| Loading.SmoothExactly | spring/rest/my-app/src/main/resources/static/runtime-es2015.b948044840398824f16e.js:1 | Whether an exception gets out does not depend on which chunks came before the start, and without one neither does the page. |
| Loading.ProvidedIsSmooth | spring/rest/my-app/src/main/resources/static/runtime-es2015.b948044840398824f16e.js:1 | If, whenever some of the chunks have arrived, all that the ready entries reach has arrived and none of it throws, there is no exception and no module is required too early. |
| Loading.SmoothIsProvided | spring/rest/my-app/src/main/resources/static/runtime-es2015.b948044840398824f16e.js:1 | Where nothing is caught and no module replaced, there is no exception only then. |
| Loading.EveryOrderWorks | spring/rest/my-app/src/main/resources/static/runtime-es2015.b948044840398824f16e.js:1 | When each entry lists the chunks that bring what it reaches, every order of arrival and every split into chunks before and after the start goes without an exception, starts exactly the entries whose chunks have arrived, and runs the body of each exactly once. |
| Loading.BodyRunsExactly | spring/rest/my-app/src/main/resources/static/runtime-es2015.b948044840398824f16e.js:1 | Function `t`: the body of a started entry has run exactly once if its module was not required before it came, and never otherwise, whatever throws. |
| Loading.StartedButNotRun | spring/rest/my-app/src/main/resources/static/runtime-es2015.b948044840398824f16e.js:1 | The input on which it has not: an entry that another one requires, and catches, before its chunk arrives. |
| Loading.MissedExactly | spring/rest/my-app/src/main/resources/static/runtime-es2015.b948044840398824f16e.js:1 | Function `l`: the modules that fail because they are absent are exactly those required at a time when no chunk had brought them. |
| Loading.StartedExactlyWhenQuiet | spring/rest/my-app/src/main/resources/static/runtime-es2015.b948044840398824f16e.js:1 | The entries started are exactly those whose chunks have arrived, with multiplicity, if and only if no ready entry is left waiting. |
| Loading.EntryLeftWaiting | spring/rest/my-app/src/main/resources/static/runtime-es2015.b948044840398824f16e.js:1 | Function `t`: the input on which one is: an entry that throws keeps a ready entry behind it from starting. |
| Loading.StartupBrokenOff | spring/rest/my-app/src/main/resources/static/runtime-es2015.b948044840398824f16e.js:1 | Startup loop: an entry that throws there leaves the early chunks behind it for good, and no later chunk is recorded. |
| Chunks.OrderIndependent | spring/rest/my-app/src/main/resources/static/runtime-es2015.b948044840398824f16e.js:1 | Which entries must have been started, for given chunks, does not depend on their order; that the loader starts these in every order is `Loading.EveryOrderWorks`. |
| Loading.LoadIsSound | spring/rest/my-app/src/main/resources/static/runtime-es2015.b948044840398824f16e.js:1 | Function `l`: for every module graph, cyclic ones and throwing bodies included, loading ends, runs the body of each newly cached module once unless the module is absent, and has cached all a finished module requires. |
| Loading.StatementsInOrder | spring/rest/my-app/src/main/resources/static/runtime-es2015.b948044840398824f16e.js:1 | Statements of a body follow one another, and none after the first exception that is not caught has any effect. |
| Loading.OneStatement | spring/rest/my-app/src/main/resources/static/runtime-es2015.b948044840398824f16e.js:1 | Requiring alone is loading, its exception caught or not; a thrown exception gets out. |
| Loading.LoadMarks | spring/rest/my-app/src/main/resources/static/runtime-es2015.b948044840398824f16e.js:1 | Function `l`: a module is marked as loaded exactly if it has loaded without an exception. |
| Loading.LoadSucceeds | spring/rest/my-app/src/main/resources/static/runtime-es2015.b948044840398824f16e.js:1 | Function `l`: a module loads without an exception, whatever has been cached before, when all it reaches is in the table and none of it throws, cycles included. |
| Loading.LoadSucceedsExactly | spring/rest/my-app/src/main/resources/static/runtime-es2015.b948044840398824f16e.js:1 | Function `l`: where nothing is caught, a first load succeeds exactly for these modules. |
| Loading.CheckKeeps | spring/rest/my-app/src/main/resources/static/runtime-es2015.b948044840398824f16e.js:1 | Function `t`: after a check without exception nothing that waits is ready, so removing during the loop skips no entry. |
| Loading.ArriveStartsInOrder | spring/rest/my-app/src/main/resources/static/runtime-es2015.b948044840398824f16e.js:1 | Functions `r` and `t`: without an exception the ready entries start in the order in which they were deferred, those waiting before those the chunk brings, and the others keep theirs. |
| WebpackRuntime.Runtime.Load | spring/rest/my-app/src/main/resources/static/runtime-es2015.b948044840398824f16e.js:1 | Function `l`: the cache that is updated in place ends as the step by step reference says. |
| WebpackRuntime.Runtime.CheckDeferred | spring/rest/my-app/src/main/resources/static/runtime-es2015.b948044840398824f16e.js:1 | Function `t`: so does the list that is spliced while it is walked. |
| WebpackRuntime.Runtime.Arrive | spring/rest/my-app/src/main/resources/static/runtime-es2015.b948044840398824f16e.js:1 | Function `r`: a chunk is taken in, and recorded once when recording has begun. |
| WebpackRuntime.Runtime.Start | spring/rest/my-app/src/main/resources/static/runtime-es2015.b948044840398824f16e.js:1 | Startup loop: the chunks that came early are taken in, up to the first that throws, and not recorded again; later ones are recorded exactly when none has thrown. |
| Chunks.AccountsStart | spring/rest/my-app/src/main/resources/static/runtime-es2015.b948044840398824f16e.js:1 | Function `t`: starting an entry moves it from waiting to started; none is lost or doubled. |
| RingBuffer.RingBuffer.Write | data-structure/ring-buffer/ring-buffer.hpp:34-45 | For every capacity, zero included: the first min(requested, free) elements join the end of the FIFO, in order, and the count says how many. |
| RingBuffer.RingBuffer.Read | data-structure/ring-buffer/ring-buffer.hpp:21-32 | For every capacity: the first min(requested, count) elements, oldest first, go to the caller and leave the FIFO; the rest of the caller's buffer is untouched; all that was ever read and what is still held are all that was ever accepted. |
| RingBuffer.RingBuffer.constructor | data-structure/ring-buffer/ring-buffer.hpp:12-18 | An empty FIFO of the given capacity. |
| RingBuffer.WindowBack | data-structure/ring-buffer/ring-buffer.hpp:38-41 | Writing the cell at the write position, around the end of the array, appends to the window. |
| RingBuffer.WindowIsSlice | data-structure/ring-buffer/ring-buffer.hpp:25-28 | The window the FIFO lives in is the wrapped slice of the array from the read position. |
| Pricing.DeviationAfter | algorithm/pricing/pricing.c:81-94 | For every list of n >= 2 prices and every number of rounds k: the sum is conserved and each price's deviation from the mean is its initial one times (-1/(n-1))^k. |
| Pricing.DeviationShrinks | algorithm/pricing/pricing.c:81-94 | With three prices or more every round at least halves each distance from the mean. |
| Pricing.TwoPricesSwap | algorithm/pricing/pricing.c:81-94 | With two prices the rounds only swap them, so there the deviations do not shrink. |
| Pricing.RoundKeepsSum | algorithm/pricing/pricing.c:87-92 | One round conserves the sum. |
| Pricing.Iterate | algorithm/pricing/pricing.c:81-94 | The double-buffered loop leaves, in the list chosen by the parity of the count, what that many rounds on the first list give. |
| Pricing.CalcPriceFromList | algorithm/pricing/pricing.c:41-51 | The loop that skips one index computes the average of the other prices. |
| PacketDecoder.FramesReadBack | erlang/port/hello/hello.c:78-131 | Any concatenation of frames reads back as its payloads exactly when every length does: a length from 1 to 65533, which the buffer has room for, whose low byte is below 128 or whose high byte is 0xFF. |
| ClockPort.RepliesReadBack | win32/clock/erlang/src/clock.c:169-192 | The decoder reads back exactly the payloads the clock port has written, in order, and ends ready for the next frame. |
| ClockPort.TimeReadsBack | win32/clock/erlang/src/clock.c:151-178 | A time reply has 8 bytes that read back, most significant first, as the number of whole seconds, milli-, micro- or nanoseconds of the clock asked for, or 0 for an unknown unit. |
| ClockPort.AnswersIt | win32/clock/erlang/src/clock.c:71-178 | A reply is the UTC time or the local time as text for ids 2 and 3, and such a time of the steady clock for id 1 and of the wall clock for any other. |
| ClockPort.AnsweredInOrder | win32/clock/erlang/src/clock.c:209-258 | However the requests are split into reads that respect their ends, those answered are the first ones in order; when all has been read and nothing stopped the port, all of them. |
| ClockPort.AllAnsweredExactly | win32/clock/erlang/src/clock.c:209-258 | For waits that deliver the whole input and do not stop the port, all requests are answered exactly when no read runs over the end of a request. |
| ClockPort.OverrunAnswersNothing | win32/clock/erlang/src/clock.c:219-232 | Once a read has run over the end of a request nothing is answered any more. |
| ClockPort.StopsExactly | win32/clock/erlang/src/clock.c:209-276 | The port stops exactly at a signal, a failed read, the end of the input, a message whose length is not 4 or a reply that cannot be written, without answering. |
| ClockPort.Clock.WaitStdIO | win32/clock/erlang/src/clock.c:198-276 | The loop over the waits, with the buffer it fills in place, ends in the state of the session's step by step run; its output is the frames of the payloads of all requests answered. |
| ClockPort.Clock.HandleRequest | win32/clock/erlang/src/clock.c:57-195 | One request writes the frame of a payload that answers it, for clock, formatted-time and unknown request ids and units, or nothing when the write fails. |
| PacketDecoder.Port.Feed | erlang/port/hello/hello.c:101-131 | One byte moves the variables of the state machine as the decoder's step does, up to the first byte written past the end of the buffer. |
| PacketDecoder.Port.FeedAll | erlang/port/hello/hello.c:93-137 | A whole stream does. |
| PacketDecoder.ReadOne | erlang/port/hello/hello.c:101-131 | A frame whose length reads back yields its payload. |
| PacketDecoder.MisreadOne | erlang/port/hello/hello.c:105-109 | A frame whose length does not read back yields no packet, or one of another length: the sign of the low byte has overwritten the high one. |
| PacketDecoder.AnnouncedIsLength | erlang/port/hello/hello.c:106 | The length computed from signed characters is the length written exactly when the low byte is below 128 or the high byte is 0xFF; otherwise it is larger. |
| PacketDecoder.AnnouncedBytes | erlang/port/hello/hello.c:106 | Shifting one signed character and or-ing the other, cut to 16 bits: the two bytes side by side, unless the low character is negative and its sign bits cover the high one. |
| Paging.PageIsIdealExactly | sqlserver/transposed/insert-transposed/insert-transposed-dao/src/main/java/com/github/xtwxy/insert/transposed/dao/AiHistoryMinuteDAO.java:156-171 | A page is right for every list of rows, items and `hasMore`, exactly when page times size plus one is within 32 bits. |
| Paging.HasMoreIsNextPage | sqlserver/transposed/insert-transposed/insert-transposed-dao/src/main/java/com/github/xtwxy/insert/transposed/dao/AiHistoryMinuteDAO.java:160-171 | `hasMore` is true exactly when the next page is not empty. |
| Paging.NoMoreIsAll | sqlserver/transposed/insert-transposed/insert-transposed-dao/src/main/java/com/github/xtwxy/insert/transposed/dao/AiHistoryMinuteDAO.java:160-171 | `hasMore` is false exactly when the pages up to this one are all the rows. |
| Paging.PagesPartition | sqlserver/transposed/insert-transposed/insert-transposed-dao/src/main/java/com/github/xtwxy/insert/transposed/dao/AiHistoryMinuteDAO.java:137-172 | In whatever order the selected rows are numbered, the pages up to the first without more hold exactly the selected rows, with multiplicity. |
| Paging.OnOnePage | sqlserver/transposed/insert-transposed/insert-transposed-dao/src/main/java/com/github/xtwxy/insert/transposed/dao/AiHistoryMinuteDAO.java:156-164 | Every row is in the slice that is the items of one page, and in that of no other: pages are disjoint. |
| Paging.PagesArePrefix | sqlserver/transposed/insert-transposed/insert-transposed-dao/src/main/java/com/github/xtwxy/insert/transposed/dao/AiHistoryMinuteDAO.java:156-170 | The first k pages are the first k * size rows, each once and in order. |
| Paging.AiHistoryMinuteDAO.Select | sqlserver/transposed/insert-transposed/insert-transposed-dao/src/main/java/com/github/xtwxy/insert/transposed/dao/AiHistoryMinuteDAO.java:137-180 | A page query is refused exactly when some order field is unknown; otherwise it answers with its page; without page number, page size or order all matching rows are returned and `hasMore` is false. |
| Paging.MatchingExactly | sqlserver/transposed/insert-transposed/insert-transposed-dao/src/main/java/com/github/xtwxy/insert/transposed/dao/AiHistoryMinuteDAO.java:137-180 | The rows found are those that match, each as often as it is in the table. |
| Paging.MatchingInOrder | sqlserver/transposed/insert-transposed/insert-transposed-dao/src/main/java/com/github/xtwxy/insert/transposed/dao/AiHistoryMinuteDAO.java:137-180 | They come in the order of the table. |
| Paging.AiHistoryMinuteDAO.Create | sqlserver/transposed/insert-transposed/insert-transposed-dao/src/main/java/com/github/xtwxy/insert/transposed/dao/AiHistoryMinuteDAO.java:112-119 | Update-else-insert: the rows with this record time, at least one, all become the given row, rows of every other record time are as they were, and the count says how many were affected. |
| Paging.CreateKeepsKeys | sqlserver/transposed/insert-transposed/insert-transposed-dao/src/main/java/com/github/xtwxy/insert/transposed/dao/AiHistoryMinuteDAO.java:112-119 | Creating keeps record times distinct, so exactly the row last created for a time is found for it. |

## Left out

- Lagom and Kafka themselves, session set-up, table creation and the timestamps inside greetings: only their ordering and replay contract is modelled. The parallelism of `mapAsync(8, ...)` keeps order and is not modelled.
- LinkedMap.State.Scan: keys of frozen objects are found by a walk over equal keys, not by the loose equality of the source.
- Map: the clash of an index key of a primitive with that of another type and the normalisation of -0 are not modelled; the iterator kinds differ only in what part of the pair they return.
- Map: `clear` is called between iterator steps or in callbacks, not by another thread; Set and the weak collections repeat the Map.
- ToFixed.Format: takes mantissa and shift as integers; how they are derived in floating point, and that the double quotient in `g` floors correctly, are not modelled.
- ArrayMoves.ArrayLike.Splice: models an array-like object, whose length does not follow its indices by itself; for an array the final assignment of the length has the same effect. Inherited index properties, species constructors and getters are not modelled.
- CodePoints.FromCodePoint: the conversion of arguments to numbers is not modelled.
- ZoneTasks.Runtime.InvokeTask: scheduling hooks do not return another task; the one-shot task's cancel function and the bodies of the error and hasTask hooks are not modelled.
- MicrotaskQueue.Queue.Drain: the drain-done hook enqueues nothing; a native drain fires when no invocation is on the stack.
- ZonePromise.Promises.RunThenable: a foreign `then` calls back at once, or later through the guard that every later callback goes through; it does nothing else to promises.
- ZonePromise.Promises.Perform: a `finally` promise is settled only by its reaction; what the handlers of `then` compute is a parameter of the settling operation. `Promise.all` and `Promise.race` are built from these operations and are not modelled.
- WebpackRuntime.LoadPage: loading chunks over the network and its pending promises, the export helpers, and module bodies that push chunks while they run are not modelled.
- ring_buffer: its copy constructor and its accessors.
- pricing.c: printing, and rounding errors of double.
- PacketDecoder.Port.Feed: what a byte written past the end of the buffer does is unknown; the model completes no packet after it.
- ClockPort.Clock.HandleRequest: a write fails as a whole or not at all; the conversion of file time and performance counter to nanoseconds is not modelled.
- Paging.AiHistoryMinuteDAO.Select: the text of the SQL, the type converters and the where clause are one predicate on rows; rows without paging come in table order.
- The rest of zone.js and core-js (event, timer and request patching, feature detection), which depends on the browser.
- The Spring, SOAP, JMS, Oracle and win32 demonstrations, spreadsheet export, login code and small samples, which are input and output or add only easy members.
