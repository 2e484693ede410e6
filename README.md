# big-streams core in Dafny

A model of the core of `big-streams`, a re-implementation of Node.js streams in
TypeScript. Three parts of it are modelled, each as imperative Dafny over the
state the TypeScript classes update in place:

- **`BufferList`** (module `LinkedBuffer`): the chunk queue, a singly linked list
  of `BufferNode`s with `head`, `tail` and a `length` counter. It supports
  `push`, `unshift`, `shift`, `clear`, `first`, `concat` and `consume`. Chunks are
  byte sequences (module `Chunks`). The byte view of the list is `Flatten`.
  What is left after a partial consumption is `DropBytes`. The list keeps its
  own quirks, exactly as written:
  - `shift` increments `length`;
  - a multi-node `consume` lowers `length` by the number of nodes it used up
    whole (not the node it trims and leaves as head);
  - `concat` leaves the list in place;
  - `tail` can be left pointing at a node that is no longer on the chain.

  For these reasons `Valid()` constrains only the chain reached from `head`,
  and `TailIsLast()` names the regime in which `tail` is its last node.
- **`EventEmitter`** (module `Emitter`): a map from event names to the
  callbacks registered for them, in registration order. It supports
  `addListener`/`on`, `removeListener`/`off`, `removeAllListeners`, `once`,
  `emit` and `listenerCount`. Listener functions are identities, and calling
  one is recorded. A `once` registration is a `Wrapper` that carries the
  listener it wraps. `Fire` is the store after an emit has run a list of
  callbacks.
- **`Writeable`** (module `WriteStream`): the writable stream. Every operation
  is first a pure step function over a `Snapshot`, which holds:
  - the 16-field state record;
  - a log of synchronous actions (chunks handed to `_write`, events emitted,
    callbacks called);
  - the queue of work deferred with `process.nextTick`.

  The class `Writeable` has the same fields. Each method is proved to produce
  exactly the snapshot of its step function, and to keep the stream invariant
  `Inv`:
  - `length` counts the write in flight, the queued writes and every refused
    write;
  - at most one write is in flight;
  - `finish` is emitted at most once, and only after `destroy`;
  - `closed` and `destroyed` are set together.

  The class methods are the imperative face of those step functions. Each
  method does in place, field by field, what its step function says about
  the snapshot. The properties of the stream (invariant, `finish`, `drain`,
  ordering, refusals) are proved once, about the step functions, and reach
  the methods through their postconditions.

  The sink's completion (`onWriteEnd`) is a separate call. It is made by
  whoever plays the sink.

The options the stream reads are constant, as in the source:
- `autoDestroy` and `emitClose` are always true, since `x || true` is true.
- `objectMode` and `decodeStrings` are always false.
- `highWaterMark` and `defaultEncoding` fall back to 16 KiB and `utf8` when they
  are absent or falsy.

A `_construct` defined on the class delays construction. One passed in the
options is installed only after the constructor's `typeof this._construct`
test. It never runs unless the class also defines its own `_construct`. In
that case the test succeeds, and the instance property then shadows the class
method, so the deferred construct calls the function from the options.
Which function runs is outside the model; only the deferral and the callback
are in it. The construct callback calls `finishMaybe` but not `clearBuffer`,
so writes queued before construction stay queued. Writes refused after `end`
or `destroy` still add their size to `length`, so such a stream never emits
`finish`. With an error, `destroy` defers an `error` event
twice: once itself and once through the default `_destroy`. `clearBuffer`
destructures `buffered.shift()!` without checking it, so `uncork` with nothing
queued throws. Each of these behaviours is modelled as written and stated as a
lemma or a scenario.

## Model

| member | source | states |
|---|---|---|
| LinkedBuffer.BufferList.constructor | src/BufferList.ts:16-20 | a new list is empty, with no head or tail and `length` 0 |
| LinkedBuffer.BufferList.Push | src/BufferList.ts:22-31 | `length` grows by one and the new node is the tail; with `length` 0 or no tail the chain becomes the new chunk alone; a tail on the chain gets the new chunk after it (and whatever followed it is cut off); a stale tail swallows the node; when the tail is the last node and `length` is zero only on an empty chain, the contents gain the chunk at the end |
| LinkedBuffer.BufferList.Unshift | src/BufferList.ts:33-38 | the chunk is put before the old contents, `length` grows by one, and the tail becomes the new node only when `length` was 0 |
| LinkedBuffer.BufferList.Shift | src/BufferList.ts:40-48 | with `length` 0 or no chunk, `undefined` and no change; otherwise the first chunk is returned and removed (everything is dropped when `length` was 1), and `length` goes up by one |
| LinkedBuffer.BufferList.Clear | src/BufferList.ts:50-54 | the list becomes empty with `length` 0 |
| LinkedBuffer.BufferList.First | src/BufferList.ts:56-58 | the first chunk, or `undefined` exactly when the chain is empty |
| LinkedBuffer.BufferList.Concat | src/BufferList.ts:60-71 | with `length` 0 an empty buffer; otherwise a buffer of `nBytes >>> 0` bytes that starts with every byte of the list in order, or a RangeError when they do not fit |
| LinkedBuffer.SetBytes | src/BufferList.ts:66 | `Uint8Array.prototype.set`: the source lands at the offset, and nothing else changes; when it does not fit, nothing is copied and the call fails |
| LinkedBuffer.BufferList.Consume | src/BufferList.ts:73-118 | each branch: no head gives `undefined`; exactly the head chunk behaves as `shift`; less than the head chunk gives its prefix and keeps the rest at the head; more gives the first `nBytes` bytes of the list, and what is returned followed by what is left is the whole list; asking for more than the list holds leaves it in place and lowers `length` by the node count |
| LinkedBuffer.BufferList.ConsumeAcross | src/BufferList.ts:84-117 | the multi-node walk: returns the first `nBytes` bytes, and the list keeps exactly `DropBytes` of its contents; `length` drops by the nodes removed |
| LinkedBuffer.GatherBytes | src/BufferList.ts:84-113 | the fresh `nBytes` buffer holds the list's first `nBytes` bytes, and the walk stops at the node whose remainder is what stays; on a short list, every byte is at the front and every node was walked |
| LinkedBuffer.CopyWholeNodes | src/BufferList.ts:89-94 | the loop over the nodes used up whole: the bytes copied so far are exactly the chunks walked, and the walk stops at the first node holding the bytes still owed |
| LinkedBuffer.CopyNode | src/BufferList.ts:90-93 | one turn of that loop: a whole chunk is appended to the bytes copied, and the bytes owed drop by its size |
| LinkedBuffer.BufferList.DropThrough | src/BufferList.ts:95-115 | the node where the walk stops is dropped when used up exactly, otherwise trimmed and made head; `length` drops by the nodes removed; the tail is cleared only when nothing is left |
| LinkedBuffer.BufferList.AdvancePast | src/BufferList.ts:95-103 | the node after the used-up one becomes the head, or the list loses head and tail |
| LinkedBuffer.BufferList.TrimNode | src/BufferList.ts:104-108 | the node keeps only its bytes after the consumed ones and becomes the head |
| Chunks.DropBytes | src/BufferList.ts:89-113 | the chunks left after the first `n` bytes: a suffix of the list whose first chunk may be shortened from the front |
| Chunks.DropBytesFlatten | src/BufferList.ts:73-118 | the bytes left after consuming `n` are exactly the list's bytes from `n` on |
| Chunks.ConsumeRoundTrip | src/BufferList.ts:73-118 | the bytes consumed followed by the bytes left give back every byte of the list |
| Emitter.LastMatch | src/EventEmitter.ts:26-32 | the backwards scan of `removeListener`: the position of a matching entry after which nothing matches, or none exactly when nothing matches |
| Emitter.LastMatchIs | src/EventEmitter.ts:26-32 | a matching entry with no match after it is the one the scan finds |
| Emitter.AddRemoveRoundTrip | src/EventEmitter.ts:15-37 | adding a listener and then removing it restores the store, including deleting an event it created |
| Emitter.RemovedCount | src/EventEmitter.ts:22-37 | a removal takes one entry off the event exactly when one matches the listener or wraps it, and no other event changes |
| Emitter.RemoveAbsent | src/EventEmitter.ts:22-37 | removing a listener that nothing matches leaves the store unchanged |
| Emitter.RemovedWellFormed | src/EventEmitter.ts:22-37 | removal keeps every stored list non-empty (an emptied event is deleted) and its `once` wrappers distinct |
| Emitter.FireSelfRemovalPrefix | src/EventEmitter.ts:56-85 | with each wrapper removing itself, after the first `p` callbacks have run, the `once` wrappers among them are gone and the `on` listeners stay, in order |
| Emitter.FireSelfRemoval | src/EventEmitter.ts:56-85 | with each wrapper removing itself, an emit leaves exactly the event's `on` listeners, in order, and deletes the event when none is left |
| Emitter.OnceRemovesLaterRegistration | src/EventEmitter.ts:63-66 | as written, `once(e, f); on(e, f); emit(e)` leaves the `once` wrapper registered and removes the `on` registration; with self-removal, the `on` registration stays |
| Emitter.RemoveOneCall | src/EventEmitter.ts:26-30 | when some entry calls the listener, `removeListener` takes exactly one entry away, and with it exactly one call of that listener |
| Emitter.FireAsWrittenPrefix | src/EventEmitter.ts:63-85 | as written, after the first `p` callbacks of an emit have run, each wrapper among them has found an entry calling its listener and taken exactly one such entry away |
| Emitter.FireAsWritten | src/EventEmitter.ts:63-85 | as written, an emit leaves as many entries as the event had `on` registrations, and they call exactly the `on` listeners, counted with multiplicity, though a wrapper can stay where an `on` registration of its listener went |
| Emitter.EventEmitter.constructor | src/EventEmitter.ts:11-13 | a new emitter has no events |
| Emitter.EventEmitter.AddListener | src/EventEmitter.ts:15-20 | the callback goes at the end of the event's list, creating it if absent; the count grows by one |
| Emitter.EventEmitter.On | src/EventEmitter.ts:39-41 | as `addListener` with the listener itself |
| Emitter.EventEmitter.RemoveListener | src/EventEmitter.ts:22-37 | the last entry that is the listener or wraps it is spliced out, and the event is deleted when its list empties; the store stays well formed |
| Emitter.EventEmitter.Off | src/EventEmitter.ts:43-45 | as `removeListener` |
| Emitter.EventEmitter.RemoveAllListeners | src/EventEmitter.ts:47-54 | no name, or the empty name, clears every event; another name deletes that event only, and its count becomes 0 |
| Emitter.EventEmitter.Once | src/EventEmitter.ts:56-70 | a fresh wrapper around the listener goes at the end of the event's list |
| Emitter.EventEmitter.Emit | src/EventEmitter.ts:72-85 | returns whether the event had listeners; calls, in order, every callback registered when the emit began; each wrapper first removes the last registration matching its listener, so the store becomes `Fire` of the callbacks; the event is then left with as many entries as it had `on` registrations, calling those listeners |
| Emitter.EventEmitter.EmitSelfRemoving | src/EventEmitter.ts:56-85 | the emit with the wrapper removing itself: the same calls, and afterwards only the `on` listeners remain |
| Emitter.EventEmitter.ListenerCount | src/EventEmitter.ts:87-91 | the length of the event's list, 0 exactly when the event is absent |
| EmitterScenarios.NewEmitterCount | src/tests/emitter.test.ts:5-9 | a new emitter counts 0 listeners |
| EmitterScenarios.OnceTwiceThenEmit | src/tests/emitter.test.ts:11-24 | two `once` listeners count 2, one emit calls both, and the count drops to 0 |
| EmitterScenarios.TwoOnceFire | src/tests/emitter.test.ts:11-24 | firing two wrappers of different listeners deletes the event |
| EmitterScenarios.CountsPerEvent | src/tests/emitter.test.ts:26-40 | counts are per event: 2, 0, 1, 0 |
| WriteStream.Initial | src/Writeable.ts:42-89 | a new stream has a nonzero high-water mark and a non-empty default encoding, and it is constructed exactly when no `_construct` is queued |
| WriteStream.InitialInv | src/Writeable.ts:42-66 | a new stream satisfies the stream invariant |
| WriteStream.ResolveWrite | src/Writeable.ts:93-117 | the argument checks of `write`: an invalid encoding throws first, then a null chunk; a string or Buffer is accepted (a Buffer with encoding `buffer`, a string with the given or default encoding); any other chunk throws; a function in the encoding position is the callback |
| WriteStream.DestroyFront | src/Writeable.ts:260-268 | `destroy` before `close`: destroyed is set, the callback is called with the error, and a new error is recorded and deferred as an `error` event |
| WriteStream.DestroyEffect | src/Writeable.ts:260-296 | the whole of `destroy`: destroyed and closed are set, the callback is called at once, and the deferred work is an `error` for a new error, one `close`, then a second `error` for whatever error is recorded |
| WriteStream.DestroyErrorTwice | src/Writeable.ts:260-283 | destroying with an error defers `error`, `close`, `error` |
| WriteStream.DestroyKeepsInv | src/Writeable.ts:260-272 | `destroy` keeps the stream invariant |
| WriteStream.FinishMaybeEffect | src/Writeable.ts:239-258 | when `finish` is due, the stream is marked finished, destroyed and closed, `finish` is emitted after the destroy, and one `close` is deferred; otherwise nothing changes |
| WriteStream.FinishMaybeKeepsInv | src/Writeable.ts:239-258 | `finishMaybe` keeps the stream invariant |
| WriteStream.ClearKeepsInv | src/Writeable.ts:189-202 | dispatching the oldest queued write moves its size from the queue to the write in flight |
| WriteStream.UncorkKeepsInv | src/Writeable.ts:181-187 | `uncork` keeps the stream invariant |
| WriteStream.WriteKeepsInv | src/Writeable.ts:91-142 | `write` keeps the stream invariant, counting a refused write's size as refused bytes |
| WriteStream.AcceptKeepsInv | src/Writeable.ts:119-141 | a counted write is refused, queued or dispatched, and `length` still accounts for every byte |
| WriteStream.AcceptRefusedInv | src/Writeable.ts:119-130 | a refused write's size stays in `length`, owed to the refused bytes |
| WriteStream.AcceptQueuedInv | src/Writeable.ts:132-133 | a write held back while another is in flight, while corked or before construction joins the queue, and its size is the queue's |
| WriteStream.AcceptDispatchedInv | src/Writeable.ts:134-139 | a write sent to the sink becomes the one write in flight, and its size is the in-flight size |
| WriteStream.CompleteKeepsInv | src/Writeable.ts:148-155 | the completion bookkeeping finishes the write in flight, if any |
| WriteStream.DrainMaybeKeepsInv | src/Writeable.ts:162-170 | emitting `drain` keeps the stream invariant |
| WriteStream.CallIfFunctionKeepsInv | src/Writeable.ts:171 | calling the write's callback keeps the stream invariant |
| WriteStream.OnWriteEndKeepsInv | src/Writeable.ts:148-175 | a completion keeps the stream invariant and completes the write in flight |
| WriteStream.EndCloseKeepsInv | src/Writeable.ts:227-236 | the last part of `end` keeps the stream invariant |
| WriteStream.EndWriteKeepsInv | src/Writeable.ts:221 | the write `end` makes keeps the stream invariant |
| WriteStream.EndUncorkKeepsInv | src/Writeable.ts:222-225 | the uncork in `end` keeps the stream invariant |
| WriteStream.EndKeepsInv | src/Writeable.ts:210-237 | `end` keeps the stream invariant, counting a refused chunk as refused bytes |
| WriteStream.OnConstructedKeepsInv | src/Writeable.ts:71-77 | the construct callback keeps the stream invariant |
| WriteStream.FinishAtMostOnce | src/Writeable.ts:239-258 | `finish` is emitted at most once, and only on a stream that is ending, destroyed and closed |
| WriteStream.RejectedBytesBlockFinish | src/Writeable.ts:119-130 | once a refused write has counted bytes, `finish` is never due |
| WriteStream.FailedWriteEnd | src/Writeable.ts:148-159 | a completion with an error records it and rethrows it: no `drain`, no callback, no `finish`, nothing deferred |
| WriteStream.DrainRule | src/Writeable.ts:148-175 | a successful completion emits `drain` once exactly when a write reported the stream full, nothing is left counted, and the stream is neither ending nor destroyed |
| WriteStream.ClearAfterDestroy | src/Writeable.ts:189-194 | after `destroy`, the queue is never dispatched |
| WriteStream.WriteRefused | src/Writeable.ts:119-130 | on a stream that is ending, destroyed or errored, a write whose arguments pass returns false. Nothing is dispatched or queued, and `length` still grows by the chunk. The recorded error becomes the destroy error if destroyed, else the end error if ending, else stays as it was. A function callback is deferred with that error |
| WriteStream.ConstructDoesNotFlush | src/Writeable.ts:71-77 | the construct callback marks the stream constructed but dispatches none of the writes queued meanwhile |
| WriteStream.EndUncorks | src/Writeable.ts:222-225 | an `end` that does not throw leaves the stream uncorked |
| WriteStream.UncorkEmptyQueue | src/Writeable.ts:181-194 | the last `uncork` with nothing queued or in flight on a live, constructed stream throws |
| WriteStream.WriteWhenIdle | src/Writeable.ts:91-142 | a write to an idle, uncorked, constructed stream goes straight to the sink: the whole new state, the dispatch, and the result `length < highWaterMark` |
| WriteStream.CorkHoldsWrites | src/Writeable.ts:132-133 | on a corked stream an accepted write joins the end of the queue and nothing reaches the sink |
| WriteStream.ClearSendsOldest | src/Writeable.ts:189-202 | draining the queue dispatches its oldest write first, so writes reach the sink in order |
| WriteStream.EndWhileWriting | src/Writeable.ts:210-237 | `end` with no chunk while a write is in flight marks the stream ending and ended and changes nothing else |
| WriteStream.LastCompletionFinishes | src/Writeable.ts:148-175 | the completion of the last write of an ending stream calls its callback, emits `finish`, and closes the stream |
| WriteStream.WriteEndComplete | src/tests/write.test.ts:21-40 | write a string, `end`, then the sink completes: the chunk is dispatched, `finish` follows, and `close` is deferred |
| WriteStream.Writeable.constructor | src/Writeable.ts:42-89 | the new stream is the initial snapshot and satisfies the invariant |
| WriteStream.Writeable.Write | src/Writeable.ts:91-142 | the new state, log, deferred work and result are those of the write step; the invariant is kept, with refused bytes accumulating |
| WriteStream.Writeable.CheckWrite | src/Writeable.ts:93-117 | the imperative argument checks agree with `ResolveWrite` |
| WriteStream.Writeable.AcceptWrite | src/Writeable.ts:119-141 | counting, then refusal with a deferred error callback, queueing, or dispatch, as the accept step says |
| WriteStream.Writeable.Count | src/Writeable.ts:119-124 | `length` grows by the chunk; `drain` becomes due at the high-water mark; ending or destroyed records the write error; returns `length < highWaterMark` |
| WriteStream.Writeable.OnWriteEnd | src/Writeable.ts:148-175 | the completion step, with the invariant kept; a completion while a write is in flight completes it |
| WriteStream.Writeable.AfterSuccess | src/Writeable.ts:161-174 | the successful branch: clear the queue if non-empty, maybe `drain`, call the callback, maybe finish |
| WriteStream.Writeable.DrainIfDue | src/Writeable.ts:162-170 | emits `drain` and clears the flag exactly when it is due |
| WriteStream.Writeable.Cork | src/Writeable.ts:177-179 | `corked` grows by one and nothing else changes |
| WriteStream.Writeable.Uncork | src/Writeable.ts:181-187 | one level of cork is undone, and when nothing is in flight the queue is cleared, which throws on an empty queue |
| WriteStream.Writeable.ClearBuffer | src/Writeable.ts:189-194 | the clear step: nothing while corked, destroyed or unconstructed; a throw on an empty queue; otherwise the oldest write is dispatched |
| WriteStream.Writeable.DoWrite | src/Writeable.ts:196-202 | the write goes in flight with its callback and size, and is handed to the sink |
| WriteStream.Writeable.SetDefaultEncoding | src/Writeable.ts:204-208 | an unknown encoding throws and changes nothing; a known one becomes the default |
| WriteStream.Writeable.End | src/Writeable.ts:210-237 | the end step, with the invariant kept |
| WriteStream.Writeable.ShiftEndArguments | src/Writeable.ts:212-219 | a function as the chunk or the encoding becomes the callback, and the arguments before it are cleared |
| WriteStream.Writeable.EndWriteChunk | src/Writeable.ts:221 | a truthy chunk is written without a callback |
| WriteStream.Writeable.EndUncorkClose | src/Writeable.ts:222-236 | every cork is undone at once, a throw from the queue propagates, then the stream is closed for writing |
| WriteStream.Writeable.EndCloseSteps | src/Writeable.ts:227-236 | on a destroyed stream, the error is recorded and the callback deferred; otherwise ending, maybe finish, ended |
| WriteStream.Writeable.FinishMaybe | src/Writeable.ts:239-258 | the finish step |
| WriteStream.Writeable.Destroy | src/Writeable.ts:260-272 | the destroy step; the invariant is kept when it held |
| WriteStream.Writeable.DoDestroy | src/Writeable.ts:274-276 | calls the default `_destroy` with the recorded error |
| WriteStream.Writeable.DestroyHook | src/Writeable.ts:278-283 | with an error, records it and defers an `error` event |
| WriteStream.Writeable.Close | src/Writeable.ts:285-290 | marks the stream closed and defers `close` |
| WriteStream.Writeable.OnError | src/Writeable.ts:292-296 | defers an `error` event with the recorded error |
| WriteStream.Writeable.OnConstructed | src/Writeable.ts:71-77 | the construct callback: constructed, an error recorded, maybe finish; the invariant is kept |
| WriteStreamScenarios.DestroyWithError | src/Writeable.ts:260-296 | `destroy(err, cb)` calls `cb(err)` at once and defers `error`, `close`, `error` |
| WriteStreamScenarios.CorkUncork | src/Writeable.ts:177-194 | `cork(); uncork()` on a new stream throws from the empty queue |
| WriteStreamScenarios.WriteAfterFinish | src/Writeable.ts:119-130 | after `end` has finished a new stream, a write returns false, its callback gets the destroyed error on a later tick, and its size stays counted |
| WriteStreamScenarios.ConstructLeavesQueue | src/Writeable.ts:68-79 | a write made while `_construct` is pending stays queued after the construct callback |
| WriteStreamScenarios.BadEncoding | src/Writeable.ts:97-101 | an unknown encoding throws before anything is counted |

## Left out

- Readable, Duplex and Transform streams, and the example streams built on them, are not part of this model.
- Buffers are byte-sequence values: the aliasing that `subarray` creates between a returned slice and the node it came from is not modelled.
- LinkedBuffer.BufferList.Consume: `nBytes` is a natural number; negative and fractional counts (which `subarray` and `allocUnsafe` would treat their own way) are not modelled.
- LinkedBuffer.BufferList.Concat: `nBytes` is an integer; fractional values, and the allocation limit of `Buffer.allocUnsafe`, are not modelled.
- The bytes of a buffer from `Buffer.allocUnsafe` that nothing is copied to are left unspecified.
- Listener and callback functions are identities: calling one is recorded, and what it does is not run. A listener that re-enters the emitter or the stream during an emit or a callback is not modelled.
- Emitter.EventEmitter.AddListener: requires that a `once` wrapper passed in is not already stored. Callers cannot reach a wrapper, since wrappers never leave the emitter, so this excludes no real call.
- A user function that carries its own `listener` property, which `removeListener` would also match, is not modelled.
- `emit` arguments are not modelled; events carry no values.
- `process.nextTick` only appends to a queue of deferred work. The event loop that later runs that work is not modelled.
- `_write` is the sink: a dispatched chunk is recorded, and its completion is a separate call of `OnWriteEnd`. The default `_write`, which throws, is not modelled, and neither is a sink that completes synchronously inside `_write`.
- Subclass overrides of `_destroy` and `doDestroy` are not modelled. `DestroyHook` and `DoDestroy` are the defaults at src/Writeable.ts:274-283. A subclass that overrides `_destroy`, such as a file-writing stream that closes its descriptor there, runs its own code at that point instead, so what such an override does (and whether it records or re-emits the error) is outside the model.
- Custom `write`, `destroy` and `construct` hooks passed in the options are not modelled. The first two would replace `_write` and `doDestroy`. The third is called only when the class defines its own `_construct`, and then in its place. `_construct` itself runs outside the model; its callback is `OnConstructed`.
- `objectMode` and `decodeStrings` are constant false, so `Buffer.from` re-encoding of strings is never reached.
- The size of a string chunk is its number of characters here; JavaScript counts UTF-16 code units.
- Error objects are identities (`WriteAfterEnd`, `WriteAfterDestroyed`, `External`): their messages and stacks are not modelled.
- A `highWaterMark` of `NaN` is not modelled.
- `Buffer.isEncoding` is a parameter of the stream. The scenarios use the list of Node's encodings.
- The `this` that `write`, `destroy` and `setDefautlEncoding` return is not modelled.

## Findings

| source | as written | input that shows it | evidently intended | confidence | as-written member | corrected member |
|---|---|---|---|---|---|---|
| src/EventEmitter.ts:63-66 | the `once` wrapper calls `removeListener(eventName, listener)`, which removes the LAST entry that is the listener or wraps it; this need not be the wrapper itself | `once('e', f); on('e', f); emit('e')`: the wrapper removes the `on` registration, stays registered itself, and fires again on the next emit | the wrapper unregisters itself, so one emit leaves exactly the `on` listeners | high; not executed | Emitter.OnceRemovesLaterRegistration | Emitter.EventEmitter.EmitSelfRemoving |
