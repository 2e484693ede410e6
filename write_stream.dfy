/** The writable stream: a state record updated in place, a FIFO queue of
    writes waiting for the single in-flight write, and the deferred and
    synchronous side effects it produces. The sink hook `_write` is recorded as
    a dispatched chunk; its completion arrives as a separate call of
    `OnWriteEnd`. `process.nextTick` appends to a queue of deferred work and
    `emit` appends to a log of synchronous actions. */
module WriteStream {
  import opened Common
  import opened Chunks

  /** The identity of a caller-supplied callback function. */
  type CallbackId = nat

  /** A JavaScript argument as far as the stream inspects it: its type and,
      for values the stream only tests, whether it is truthy. */
  datatype Value = Undefined | Null | Str(s: string) | Buf(bytes: seq<Byte>) | Func(id: CallbackId) | Other(truthy: bool)

  predicate Truthy(v: Value)
  {
    match v
    case Undefined => false
    case Null => false
    case Str(s) => s != ""
    case Buf(_) => true
    case Func(_) => true
    case Other(t) => t
  }

  /** A chunk the stream accepted: a string or a Buffer. */
  datatype Payload = Text(text: string) | Bytes(bytes: seq<Byte>)

  /** `chunk.length`: characters of a string, bytes of a Buffer. */
  function Size(p: Payload): nat
  {
    if p.Text? then |p.text| else |p.bytes|
  }

  /** A write waiting in the queue. */
  datatype Pending = Pending(chunk: Payload, encoding: string, callback: Value)

  /** The total size of the queued chunks. */
  function Queued(q: seq<Pending>): nat
  {
    if q == [] then 0 else Size(q[0].chunk) + Queued(q[1..])
  }

  lemma {:induction false} QueuedAppend(q: seq<Pending>, p: Pending)
    ensures Queued(q + [p]) == Queued(q) + Size(p.chunk)
  {
    if q != [] {
      assert (q + [p])[1..] == q[1..] + [p];
      QueuedAppend(q[1..], p);
    }
  }

  datatype Error = WriteAfterEnd | WriteAfterDestroyed | External(id: nat)

  /** What a call throws. */
  datatype Throw = InvalidEncoding | NullChunk | InvalidChunkType | EmptyQueue | Rethrown(err: Error)

  datatype Event = Drain | Finish

  /** Something done synchronously: a chunk handed to `_write`, an event
      emitted, a callback called. */
  datatype Action = Dispatched(chunk: Payload, encoding: string) | Emitted(event: Event) | Called(callback: CallbackId, err: Option<Error>)

  /** Work deferred to the next tick. */
  datatype Tick = RunConstruct | CallWithError(callback: CallbackId, err: Error) | EmitClose | EmitError(err: Error)

  datatype WriteState = WriteState(
    length: int,
    buffered: seq<Pending>,
    isWriting: bool,
    writeCallback: Value,
    writeLength: nat,
    needDrain: bool,
    corked: nat,
    errored: Option<Error>,
    closed: bool,
    destroyed: bool,
    ending: bool,
    ended: bool,
    finished: bool,
    constructed: bool,
    highWaterMark: int,
    defaultEncoding: string)

  /** The options the stream reads; an absent options object is
      `Options(None, None)`. */
  datatype Options = Options(highWaterMark: Option<int>, defaultEncoding: Option<string>)

  /** The stream's state with the synchronous log and the deferred queue. */
  datatype Snapshot = Snapshot(state: WriteState, log: seq<Action>, ticks: seq<Tick>)

  /** How many chunks were handed to `_write`. */
  function Dispatches(log: seq<Action>): nat
  {
    if log == [] then 0
    else Dispatches(log[..|log| - 1]) + (if log[|log| - 1].Dispatched? then 1 else 0)
  }

  lemma DispatchesAppend(log: seq<Action>, a: Action)
    ensures Dispatches(log + [a]) == Dispatches(log) + (if a.Dispatched? then 1 else 0)
  {
    assert (log + [a])[..|log|] == log;
  }

  /** How many times `event` was emitted. */
  function Emits(log: seq<Action>, event: Event): nat
  {
    multiset(log)[Emitted(event)]
  }

  // ---------------------------------------------------------------------
  // The operations as functions of the snapshot before them.

  /** The snapshot of a new stream. Only a `_construct` defined on the class
      delays construction; one passed in the options is installed after the
      test and starts nothing. */
  function Initial(options: Options, classConstruct: bool): (w: Snapshot)
    ensures w.state.highWaterMark != 0 && w.state.defaultEncoding != ""
    ensures w.state.constructed <==> w.ticks == []
  {
    var hwm := if options.highWaterMark.Some? && options.highWaterMark.value != 0 then options.highWaterMark.value else 16 * 1024;
    var enc := if options.defaultEncoding.Some? && options.defaultEncoding.value != "" then options.defaultEncoding.value else "utf8";
    Snapshot(
      WriteState(0, [], false, Null, 0, false, 0, None, false, false, false, false, false, !classConstruct, hwm, enc),
      [],
      if classConstruct then [RunConstruct] else [])
  }

  /** An encoding argument `write` refuses: a truthy value that is not a
      function and neither `'buffer'` nor a known encoding. */
  predicate EncodingRefused(encoding: Value, isEncoding: string -> bool)
  {
    !encoding.Func? && Truthy(encoding) && !(encoding.Str? && (encoding.s == "buffer" || isEncoding(encoding.s)))
  }

  /** The argument checks of `write`: the queued form of the write, or what
      it throws. */
  function ResolveWrite(chunk: Value, encoding: Value, callback: Value, defaultEncoding: string, isEncoding: string -> bool): (r: Result<Pending, Throw>)
    ensures r == Err(InvalidEncoding) <==> EncodingRefused(encoding, isEncoding)
    ensures r == Err(NullChunk) <==> !EncodingRefused(encoding, isEncoding) && chunk.Null?
    ensures r.Ok? <==> !EncodingRefused(encoding, isEncoding) && (chunk.Str? || chunk.Buf?)
    ensures r.Ok? ==> r.value.callback == if encoding.Func? then encoding else callback
    ensures r.Ok? && chunk.Buf? ==> r.value == Pending(Bytes(chunk.bytes), "buffer", r.value.callback)
    ensures r.Ok? && chunk.Str? ==> r.value.chunk == Text(chunk.s)
    ensures r.Ok? && chunk.Str? ==> r.value.encoding == (if Truthy(encoding) && !encoding.Func? then encoding.s else defaultEncoding)
  {
    var cb := if encoding.Func? then encoding else callback;
    if EncodingRefused(encoding, isEncoding) then Err(InvalidEncoding)
    else
      var enc := if encoding.Func? || !Truthy(encoding) then defaultEncoding else encoding.s;
      match chunk
      case Null => Err(NullChunk)
      case Str(s) => Ok(Pending(Text(s), enc, cb))
      case Buf(b) => Ok(Pending(Bytes(b), "buffer", cb))
      case _ => Err(InvalidChunkType)
  }

  /** A write is refused, after its size is counted, once the stream is
      ending, destroyed or errored. */
  predicate Rejects(s: WriteState)
  {
    s.ending || s.destroyed || s.errored.Some?
  }

  /** Hands `p` to the sink: the one write in flight. */
  function DoWriteStep(w: Snapshot, p: Pending): Snapshot
  {
    w.(state := w.state.(isWriting := true, writeCallback := p.callback, writeLength := Size(p.chunk)),
       log := w.log + [Dispatched(p.chunk, p.encoding)])
  }

  /** The state once a write of `size` is counted: `length` grows, `drain`
      becomes due at the high-water mark, and a stream that is ending or
      destroyed records why the write is refused. */
  function Counted(s: WriteState, size: nat): WriteState
  {
    var grown := s.length + size;
    var drain := s.needDrain || !(grown < s.highWaterMark);
    var err := if s.destroyed then Some(WriteAfterDestroyed) else if s.ending then Some(WriteAfterEnd) else s.errored;
    s.(length := grown, needDrain := drain, errored := err)
  }

  /** `write` once its arguments are checked. */
  function Accept(w: Snapshot, p: Pending): (Snapshot, Result<bool, Throw>)
  {
    var s := w.state;
    var s1 := Counted(s, Size(p.chunk));
    var out := s1.length < s.highWaterMark;
    if s1.errored.Some? then
      (w.(state := s1, ticks := if p.callback.Func? then w.ticks + [CallWithError(p.callback.id, s1.errored.value)] else w.ticks), Ok(false))
    else if s.isWriting || s.corked > 0 || !s.constructed then
      (w.(state := s1.(buffered := s.buffered + [p])), Ok(out))
    else
      (DoWriteStep(w.(state := s1), p), Ok(out))
  }

  function WriteStep(w: Snapshot, chunk: Value, encoding: Value, callback: Value, isEncoding: string -> bool): (Snapshot, Result<bool, Throw>)
  {
    match ResolveWrite(chunk, encoding, callback, w.state.defaultEncoding, isEncoding)
    case Err(e) => (w, Err(e))
    case Ok(p) => Accept(w, p)
  }

  /** The bytes a write adds to `length` without ever writing them. */
  function RejectedBytes(w: Snapshot, chunk: Value, encoding: Value, callback: Value, isEncoding: string -> bool): nat
  {
    match ResolveWrite(chunk, encoding, callback, w.state.defaultEncoding, isEncoding)
    case Err(_) => 0
    case Ok(p) => if Rejects(w.state) then Size(p.chunk) else 0
  }

  /** Dispatches the oldest queued write, unless corked, destroyed or not
      constructed; taking from an empty queue throws. */
  function ClearStep(w: Snapshot): (Snapshot, Outcome<Throw>)
  {
    var s := w.state;
    if s.corked > 0 || s.destroyed || !s.constructed then (w, Pass)
    else if s.buffered == [] then (w, Fail(EmptyQueue))
    else (DoWriteStep(w.(state := s.(buffered := s.buffered[1..])), s.buffered[0]), Pass)
  }

  function CorkStep(w: Snapshot): Snapshot
  {
    w.(state := w.state.(corked := w.state.corked + 1))
  }

  function UncorkStep(w: Snapshot): (Snapshot, Outcome<Throw>)
  {
    if w.state.corked == 0 then (w, Pass)
    else
      var w1 := w.(state := w.state.(corked := w.state.corked - 1));
      if w1.state.isWriting then (w1, Pass) else ClearStep(w1)
  }

  /** Defers an `error` event carrying `e`. */
  function OnErrorStep(w: Snapshot, e: Error): Snapshot
  {
    w.(ticks := w.ticks + [EmitError(e)])
  }

  function CloseStep(w: Snapshot): Snapshot
  {
    w.(state := w.state.(closed := true), ticks := w.ticks + [EmitClose])
  }

  /** The default `_destroy`, reached through the default `doDestroy`. */
  function DestroyHookStep(w: Snapshot, err: Option<Error>): Snapshot
  {
    if err.Some? then OnErrorStep(w.(state := w.state.(errored := err)), err.value) else w
  }

  function DestroyStep(w: Snapshot, err: Option<Error>, callback: Value): Snapshot
  {
    var w4 := CloseStep(DestroyFront(w, err, callback));
    DestroyHookStep(w4, w4.state.errored)
  }

  /** The condition under which `finish` is due. */
  predicate NeedFinish(s: WriteState)
  {
    s.ending && s.constructed && s.length == 0 && s.errored.None? && !s.finished && !s.isWriting
  }

  function FinishMaybeStep(w: Snapshot): Snapshot
  {
    if NeedFinish(w.state) then
      var w1 := DestroyStep(w.(state := w.state.(finished := true)), None, Undefined);
      w1.(log := w1.log + [Emitted(Finish)])
    else w
  }

  /** Whether a completion that found nothing to wait for emits `drain`. */
  predicate DrainDue(s: WriteState)
  {
    s.needDrain && s.length == 0 && !s.ending && !s.destroyed
  }

  /** The bookkeeping a completion starts with: nothing in flight. */
  function Complete(w: Snapshot): Snapshot
  {
    var s := w.state;
    w.(state := s.(isWriting := false, writeCallback := Null, length := s.length - s.writeLength, writeLength := 0))
  }

  function ClearIfQueued(w: Snapshot): Snapshot
  {
    if w.state.buffered != [] then ClearStep(w).0 else w
  }

  function DrainMaybe(w: Snapshot): Snapshot
  {
    if DrainDue(w.state) then w.(state := w.state.(needDrain := false), log := w.log + [Emitted(Drain)]) else w
  }

  /** Calls `callback` with no arguments when it is a function. */
  function CallIfFunction(w: Snapshot, callback: Value): Snapshot
  {
    if callback.Func? then w.(log := w.log + [Called(callback.id, None)]) else w
  }

  function OnWriteEndStep(w: Snapshot, err: Option<Error>): (Snapshot, Outcome<Throw>)
  {
    var w1 := Complete(w);
    if err.Some? then (w1.(state := w1.state.(errored := err)), Fail(Rethrown(err.value)))
    else (Succeeded(w1, w.state.writeCallback), Pass)
  }

  /** A completion without error, once nothing is in flight: the next queued
      write goes out, `drain` may be due, the write's callback runs, and the
      stream may finish. */
  function Succeeded(w: Snapshot, callback: Value): Snapshot
  {
    FinishMaybeStep(CallIfFunction(DrainMaybe(ClearIfQueued(w)), callback))
  }

  /** The chunk, encoding and callback `end` works with: a function in the
      chunk or the encoding position is the callback. */
  function EndArgs(chunk: Value, encoding: Value, callback: Value): (Value, Value, Value)
  {
    if chunk.Func? then (Null, Null, chunk)
    else if encoding.Func? then (chunk, Null, encoding)
    else (chunk, encoding, callback)
  }

  /** `end` writes its chunk only when the chunk is truthy. */
  function EndWrite(w: Snapshot, chunk: Value, encoding: Value, isEncoding: string -> bool): (Snapshot, Result<bool, Throw>)
  {
    if Truthy(chunk) then WriteStep(w, chunk, encoding, Undefined, isEncoding) else (w, Ok(true))
  }

  /** `end` undoes every `cork` at once. */
  function EndUncork(w: Snapshot): (Snapshot, Outcome<Throw>)
  {
    if w.state.corked > 0 then UncorkStep(w.(state := w.state.(corked := 1))) else (w, Pass)
  }

  /** The last part of `end`: refused on a destroyed stream, otherwise the
      stream is ending, may finish, and has ended. */
  function EndClose(w: Snapshot, callback: Value): Snapshot
  {
    if w.state.destroyed then
      var w1 := w.(state := w.state.(errored := Some(WriteAfterDestroyed)));
      if callback.Func? then w1.(ticks := w1.ticks + [CallWithError(callback.id, WriteAfterDestroyed)]) else w1
    else
      var w1 := FinishMaybeStep(w.(state := w.state.(ending := true)));
      w1.(state := w1.state.(ended := true))
  }

  function EndStep(w: Snapshot, chunk: Value, encoding: Value, callback: Value, isEncoding: string -> bool): (Snapshot, Outcome<Throw>)
  {
    var args := EndArgs(chunk, encoding, callback);
    var written := EndWrite(w, args.0, args.1, isEncoding);
    if written.1.Err? then (written.0, Fail(written.1.error))
    else EndAfterWrite(written.0, args.2)
  }

  /** `end` once its chunk is written. */
  function EndAfterWrite(w: Snapshot, callback: Value): (Snapshot, Outcome<Throw>)
  {
    var uncorked := EndUncork(w);
    if uncorked.1.Fail? then uncorked
    else (EndClose(uncorked.0, callback), Pass)
  }

  function EndRejectedBytes(w: Snapshot, chunk: Value, encoding: Value, callback: Value, isEncoding: string -> bool): nat
  {
    var args := EndArgs(chunk, encoding, callback);
    if Truthy(args.0) then RejectedBytes(w, args.0, args.1, Undefined, isEncoding) else 0
  }

  /** The callback `_construct` is given. */
  function OnConstructedStep(w: Snapshot, err: Option<Error>): Snapshot
  {
    FinishMaybeStep(w.(state := w.state.(constructed := true, errored := if err.Some? then err else w.state.errored)))
  }

  // ---------------------------------------------------------------------
  // The invariant and what the operations promise.

  /** The stream invariant, with the bytes refused so far and the writes
      completed so far: `length` counts the write in flight, the queue and
      every refused write; at most one write is in flight; `finish` was
      emitted once exactly when `finished` is set, and only after `destroy`;
      `closed` and `destroyed` are set together. */
  ghost predicate Inv(w: Snapshot, rejected: nat, completed: nat)
  {
    var s := w.state;
    && s.length == s.writeLength + Queued(s.buffered) + rejected
    && (!s.isWriting ==> s.writeLength == 0 && s.writeCallback == Null)
    && Dispatches(w.log) == completed + (if s.isWriting then 1 else 0)
    && Emits(w.log, Finish) == (if s.finished then 1 else 0)
    && (s.finished ==> s.ending && s.destroyed)
    && s.closed == s.destroyed
    && (s.ended ==> s.ending)
  }

  lemma InitialInv(options: Options, classConstruct: bool)
    ensures Inv(Initial(options, classConstruct), 0, 0)
  {
  }

  /** `destroy` sets `destroyed` and `closed`, calls the callback at once,
      and defers: an `error` for a new error, one `close`, and a second
      `error` from the default `_destroy` for whatever error is recorded. */
  lemma DestroyEffect(w: Snapshot, err: Option<Error>, callback: Value)
    ensures var errored := if err.Some? then err else w.state.errored;
      && DestroyStep(w, err, callback).state == w.state.(destroyed := true, closed := true, errored := errored)
      && DestroyStep(w, err, callback).log == w.log + (if callback.Func? then [Called(callback.id, err)] else [])
      && DestroyStep(w, err, callback).ticks ==
           w.ticks + (if err.Some? then [EmitError(err.value)] else []) + [EmitClose]
                   + (if errored.Some? then [EmitError(errored.value)] else [])
  {
    var errored := if err.Some? then err else w.state.errored;
    var w3 := DestroyFront(w, err, callback);
    assert w3.state == w.state.(destroyed := true, errored := errored);
    var w4 := CloseStep(w3);
    assert w4.state == w.state.(destroyed := true, closed := true, errored := errored);
    assert DestroyStep(w, err, callback) == DestroyHookStep(w4, errored);
  }

  /** The part of `destroy` before `close`. */
  function DestroyFront(w: Snapshot, err: Option<Error>, callback: Value): (r: Snapshot)
    ensures r.state == w.state.(destroyed := true, errored := if err.Some? then err else w.state.errored)
    ensures r.log == w.log + (if callback.Func? then [Called(callback.id, err)] else [])
    ensures r.ticks == w.ticks + (if err.Some? then [EmitError(err.value)] else [])
  {
    var w1 := w.(state := w.state.(destroyed := true));
    var w2 := if callback.Func? then w1.(log := w1.log + [Called(callback.id, err)]) else w1;
    if err.Some? then OnErrorStep(w2.(state := w2.state.(errored := err)), err.value) else w2
  }

  /** With an error and the default hooks, the error is surfaced twice,
      around the one `close`. */
  lemma DestroyErrorTwice(w: Snapshot, e: Error)
    ensures DestroyStep(w, Some(e), Undefined).ticks == w.ticks + [EmitError(e), EmitClose, EmitError(e)]
  {
    DestroyEffect(w, Some(e), Undefined);
  }

  lemma DestroyKeepsInv(w: Snapshot, err: Option<Error>, callback: Value, rejected: nat, completed: nat)
    requires Inv(w, rejected, completed)
    ensures Inv(DestroyStep(w, err, callback), rejected, completed)
  {
    DestroyEffect(w, err, callback);
    if callback.Func? {
      DispatchesAppend(w.log, Called(callback.id, err));
    }
  }

  /** When due, `finish` is emitted once, after `destroy` has run: the
      stream is destroyed and closed, one `close` is deferred and nothing
      else is. Otherwise nothing changes. */
  lemma FinishMaybeEffect(w: Snapshot)
    ensures NeedFinish(w.state) ==>
      && FinishMaybeStep(w).state == w.state.(finished := true, destroyed := true, closed := true)
      && FinishMaybeStep(w).log == w.log + [Emitted(Finish)]
      && FinishMaybeStep(w).ticks == w.ticks + [EmitClose]
    ensures !NeedFinish(w.state) ==> FinishMaybeStep(w) == w
  {
    if NeedFinish(w.state) {
      DestroyEffect(w.(state := w.state.(finished := true)), None, Undefined);
    }
  }

  lemma FinishMaybeKeepsInv(w: Snapshot, rejected: nat, completed: nat)
    requires Inv(w, rejected, completed)
    ensures Inv(FinishMaybeStep(w), rejected, completed)
  {
    FinishMaybeEffect(w);
    if NeedFinish(w.state) {
      DispatchesAppend(w.log, Emitted(Finish));
    }
  }

  /** Dispatching the oldest queued write moves its size from the queue to
      the write in flight. */
  lemma ClearKeepsInv(w: Snapshot, rejected: nat, completed: nat)
    requires Inv(w, rejected, completed) && !w.state.isWriting
    ensures Inv(ClearStep(w).0, rejected, completed)
  {
    var s := w.state;
    if !(s.corked > 0 || s.destroyed || !s.constructed) && s.buffered != [] {
      DispatchesAppend(w.log, Dispatched(s.buffered[0].chunk, s.buffered[0].encoding));
    }
  }

  lemma UncorkKeepsInv(w: Snapshot, rejected: nat, completed: nat)
    requires Inv(w, rejected, completed)
    ensures Inv(UncorkStep(w).0, rejected, completed)
  {
    if w.state.corked > 0 && !w.state.isWriting {
      ClearKeepsInv(w.(state := w.state.(corked := w.state.corked - 1)), rejected, completed);
    }
  }

  lemma WriteKeepsInv(w: Snapshot, chunk: Value, encoding: Value, callback: Value, isEncoding: string -> bool, rejected: nat, completed: nat)
    requires Inv(w, rejected, completed)
    ensures Inv(WriteStep(w, chunk, encoding, callback, isEncoding).0, rejected + RejectedBytes(w, chunk, encoding, callback, isEncoding), completed)
  {
    match ResolveWrite(chunk, encoding, callback, w.state.defaultEncoding, isEncoding)
    case Err(_) =>
    case Ok(p) => AcceptKeepsInv(w, p, rejected, completed);
  }

  /** A refused write is owed to `rejected`; an accepted one is queued or in
      flight. */
  lemma AcceptKeepsInv(w: Snapshot, p: Pending, rejected: nat, completed: nat)
    requires Inv(w, rejected, completed)
    ensures Inv(Accept(w, p).0, rejected + (if Rejects(w.state) then Size(p.chunk) else 0), completed)
  {
    var s := w.state;
    if Rejects(s) {
      AcceptRefusedInv(w, p, rejected, completed);
    } else if s.isWriting || s.corked > 0 || !s.constructed {
      AcceptQueuedInv(w, p, rejected, completed);
    } else {
      AcceptDispatchedInv(w, p, rejected, completed);
    }
  }

  /** A refused write: its size stays counted, as a refused one. */
  lemma AcceptRefusedInv(w: Snapshot, p: Pending, rejected: nat, completed: nat)
    requires Inv(w, rejected, completed) && Rejects(w.state)
    ensures Inv(Accept(w, p).0, rejected + Size(p.chunk), completed)
  {
    var s1 := Counted(w.state, Size(p.chunk));
    assert s1.errored.Some?;
    assert Accept(w, p).0.state == s1 && Accept(w, p).0.log == w.log;
  }

  /** A write held back: it joins the queue. */
  lemma AcceptQueuedInv(w: Snapshot, p: Pending, rejected: nat, completed: nat)
    requires Inv(w, rejected, completed) && !Rejects(w.state)
    requires w.state.isWriting || w.state.corked > 0 || !w.state.constructed
    ensures Inv(Accept(w, p).0, rejected, completed)
  {
    var s1 := Counted(w.state, Size(p.chunk));
    assert s1.errored == w.state.errored;
    QueuedAppend(w.state.buffered, p);
    assert Accept(w, p).0 == w.(state := s1.(buffered := w.state.buffered + [p]));
  }

  /** A write sent to the sink: it is the write in flight. */
  lemma AcceptDispatchedInv(w: Snapshot, p: Pending, rejected: nat, completed: nat)
    requires Inv(w, rejected, completed) && !Rejects(w.state)
    requires !w.state.isWriting && w.state.corked == 0 && w.state.constructed
    ensures Inv(Accept(w, p).0, rejected, completed)
  {
    var s1 := Counted(w.state, Size(p.chunk));
    assert s1.errored == w.state.errored;
    DispatchesAppend(w.log, Dispatched(p.chunk, p.encoding));
    assert Accept(w, p).0 == DoWriteStep(w.(state := s1), p);
    assert multiset(w.log + [Dispatched(p.chunk, p.encoding)])[Emitted(Finish)] == multiset(w.log)[Emitted(Finish)];
  }

  /** A completion counts only when a write was in flight; a stray one
      changes nothing the invariant speaks of. */
  lemma CompleteKeepsInv(w: Snapshot, rejected: nat, completed: nat)
    requires Inv(w, rejected, completed)
    ensures Inv(Complete(w), rejected, completed + (if w.state.isWriting then 1 else 0))
  {
  }

  lemma DrainMaybeKeepsInv(w: Snapshot, rejected: nat, completed: nat)
    requires Inv(w, rejected, completed)
    ensures Inv(DrainMaybe(w), rejected, completed)
  {
    DispatchesAppend(w.log, Emitted(Drain));
  }

  lemma CallIfFunctionKeepsInv(w: Snapshot, callback: Value, rejected: nat, completed: nat)
    requires Inv(w, rejected, completed)
    ensures Inv(CallIfFunction(w, callback), rejected, completed)
  {
    if callback.Func? {
      DispatchesAppend(w.log, Called(callback.id, None));
    }
  }

  lemma OnWriteEndKeepsInv(w: Snapshot, err: Option<Error>, rejected: nat, completed: nat)
    requires Inv(w, rejected, completed)
    ensures Inv(OnWriteEndStep(w, err).0, rejected, completed + (if w.state.isWriting then 1 else 0))
  {
    var c := completed + (if w.state.isWriting then 1 else 0);
    var w1 := Complete(w);
    CompleteKeepsInv(w, rejected, completed);
    if err.None? {
      var w2 := ClearIfQueued(w1);
      ClearKeepsInv(w1, rejected, c);
      var w3 := DrainMaybe(w2);
      DrainMaybeKeepsInv(w2, rejected, c);
      var w4 := CallIfFunction(w3, w.state.writeCallback);
      CallIfFunctionKeepsInv(w3, w.state.writeCallback, rejected, c);
      FinishMaybeKeepsInv(w4, rejected, c);
    }
  }

  lemma EndCloseKeepsInv(w: Snapshot, callback: Value, rejected: nat, completed: nat)
    requires Inv(w, rejected, completed)
    ensures Inv(EndClose(w, callback), rejected, completed)
  {
    if !w.state.destroyed {
      FinishMaybeKeepsInv(w.(state := w.state.(ending := true)), rejected, completed);
    }
  }

  lemma EndWriteKeepsInv(w: Snapshot, chunk: Value, encoding: Value, isEncoding: string -> bool, rejected: nat, completed: nat)
    requires Inv(w, rejected, completed)
    ensures Inv(EndWrite(w, chunk, encoding, isEncoding).0,
                rejected + (if Truthy(chunk) then RejectedBytes(w, chunk, encoding, Undefined, isEncoding) else 0), completed)
  {
    if Truthy(chunk) {
      WriteKeepsInv(w, chunk, encoding, Undefined, isEncoding, rejected, completed);
    }
  }

  lemma EndUncorkKeepsInv(w: Snapshot, rejected: nat, completed: nat)
    requires Inv(w, rejected, completed)
    ensures Inv(EndUncork(w).0, rejected, completed)
  {
    if w.state.corked > 0 {
      UncorkKeepsInv(w.(state := w.state.(corked := 1)), rejected, completed);
    }
  }

  lemma EndKeepsInv(w: Snapshot, chunk: Value, encoding: Value, callback: Value, isEncoding: string -> bool, rejected: nat, completed: nat)
    requires Inv(w, rejected, completed)
    ensures Inv(EndStep(w, chunk, encoding, callback, isEncoding).0, rejected + EndRejectedBytes(w, chunk, encoding, callback, isEncoding), completed)
  {
    var args := EndArgs(chunk, encoding, callback);
    var r := rejected + EndRejectedBytes(w, chunk, encoding, callback, isEncoding);
    EndWriteKeepsInv(w, args.0, args.1, isEncoding, rejected, completed);
    var written := EndWrite(w, args.0, args.1, isEncoding);
    assert Inv(written.0, r, completed);
    if written.1.Err? {
      assert EndStep(w, chunk, encoding, callback, isEncoding).0 == written.0;
    } else {
      EndUncorkKeepsInv(written.0, r, completed);
      var uncorked := EndUncork(written.0);
      if uncorked.1.Fail? {
        assert EndStep(w, chunk, encoding, callback, isEncoding).0 == uncorked.0;
      } else {
        EndCloseKeepsInv(uncorked.0, args.2, r, completed);
        assert EndStep(w, chunk, encoding, callback, isEncoding).0 == EndClose(uncorked.0, args.2);
      }
    }
  }

  lemma OnConstructedKeepsInv(w: Snapshot, err: Option<Error>, rejected: nat, completed: nat)
    requires Inv(w, rejected, completed)
    ensures Inv(OnConstructedStep(w, err), rejected, completed)
  {
    FinishMaybeKeepsInv(w.(state := w.state.(constructed := true, errored := if err.Some? then err else w.state.errored)), rejected, completed);
  }

  /** `finish` is emitted at most once, and only once the stream is
      destroyed and closed. */
  lemma FinishAtMostOnce(w: Snapshot, rejected: nat, completed: nat)
    requires Inv(w, rejected, completed)
    ensures Emits(w.log, Finish) <= 1
    ensures Emits(w.log, Finish) == 1 ==> w.state.destroyed && w.state.closed && w.state.ending
  {
  }

  /** A refused write of a non-empty chunk keeps `length` positive for good,
      so `finish` never becomes due. */
  lemma RejectedBytesBlockFinish(w: Snapshot, rejected: nat, completed: nat)
    requires Inv(w, rejected, completed) && rejected > 0
    ensures !NeedFinish(w.state)
  {
  }

  /** A completion with an error records it and throws it: no `drain`, no
      callback, no `finish`, nothing deferred. */
  lemma FailedWriteEnd(w: Snapshot, e: Error)
    ensures OnWriteEndStep(w, Some(e)).1 == Fail(Rethrown(e))
    ensures OnWriteEndStep(w, Some(e)).0.log == w.log && OnWriteEndStep(w, Some(e)).0.ticks == w.ticks
    ensures OnWriteEndStep(w, Some(e)).0.state.errored == Some(e) && !OnWriteEndStep(w, Some(e)).0.state.isWriting
  {
  }

  /** A successful completion emits `drain` once exactly when a write had
      reported the stream full and nothing is left in flight or queued
      before it ends or is destroyed. */
  lemma DrainRule(w: Snapshot)
    ensures Emits(OnWriteEndStep(w, None).0.log, Drain)
         == Emits(w.log, Drain) + (if DrainDue(w.state.(length := w.state.length - w.state.writeLength)) then 1 else 0)
  {
    var w1 := Complete(w);
    var w2 := ClearIfQueued(w1);
    assert Emits(w2.log, Drain) == Emits(w.log, Drain);
    assert DrainDue(w2.state) == DrainDue(w.state.(length := w.state.length - w.state.writeLength));
    var w3 := DrainMaybe(w2);
    var w4 := CallIfFunction(w3, w.state.writeCallback);
    assert Emits(w4.log, Drain) == Emits(w3.log, Drain);
    FinishMaybeEffect(w4);
  }

  /** After `destroy`, the queue is never drained into the sink again. */
  lemma ClearAfterDestroy(w: Snapshot)
    requires w.state.destroyed
    ensures ClearStep(w) == (w, Pass)
  {
  }

  /** A write to a stream that is ending, destroyed or errored is refused
      once its size is counted: `write` returns false, nothing is dispatched
      or queued, the refusal is recorded (the destroy error over the end
      error over the error already recorded), and a callback hears of it on
      a later tick. */
  lemma WriteRefused(w: Snapshot, chunk: Value, encoding: Value, callback: Value, isEncoding: string -> bool)
    requires Rejects(w.state)
    requires ResolveWrite(chunk, encoding, callback, w.state.defaultEncoding, isEncoding).Ok?
    ensures var p := ResolveWrite(chunk, encoding, callback, w.state.defaultEncoding, isEncoding).value;
      var errored := if w.state.destroyed then Some(WriteAfterDestroyed)
                     else if w.state.ending then Some(WriteAfterEnd) else w.state.errored;
      var r := WriteStep(w, chunk, encoding, callback, isEncoding);
      && errored.Some?
      && r.1 == Ok(false)
      && r.0.log == w.log
      && r.0.state.buffered == w.state.buffered
      && r.0.state.length == w.state.length + Size(p.chunk)
      && r.0.state.errored == errored
      && r.0.ticks == w.ticks + (if p.callback.Func? then [CallWithError(p.callback.id, errored.value)] else [])
  {
  }

  /** The `_construct` callback marks the stream constructed but does not
      dispatch the writes queued meanwhile. */
  lemma ConstructDoesNotFlush(w: Snapshot, err: Option<Error>)
    ensures OnConstructedStep(w, err).state.buffered == w.state.buffered
    ensures Dispatches(OnConstructedStep(w, err).log) == Dispatches(w.log)
    ensures OnConstructedStep(w, err).state.constructed
  {
    var w1 := w.(state := w.state.(constructed := true, errored := if err.Some? then err else w.state.errored));
    FinishMaybeEffect(w1);
    if NeedFinish(w1.state) {
      DispatchesAppend(w.log, Emitted(Finish));
    }
  }

  /** `end` that does not throw leaves the stream uncorked. */
  lemma EndUncorks(w: Snapshot, chunk: Value, encoding: Value, callback: Value, isEncoding: string -> bool)
    ensures EndStep(w, chunk, encoding, callback, isEncoding).1.Pass? ==>
      EndStep(w, chunk, encoding, callback, isEncoding).0.state.corked == 0
  {
  }

  /** Uncorking with nothing queued, nothing in flight, and the stream
      constructed and not destroyed, throws from the empty queue. */
  lemma UncorkEmptyQueue(w: Snapshot)
    requires w.state.corked == 1 && !w.state.isWriting && !w.state.destroyed && w.state.constructed && w.state.buffered == []
    ensures UncorkStep(w) == (w.(state := w.state.(corked := 0)), Fail(EmptyQueue))
  {
  }

  /** A write on a stream that is idle, uncorked, constructed and not
      refusing goes straight to the sink, and nothing is queued. */
  lemma WriteWhenIdle(w: Snapshot, chunk: Value, encoding: Value, callback: Value, isEncoding: string -> bool)
    requires !w.state.isWriting && w.state.corked == 0 && w.state.constructed && !Rejects(w.state)
    requires ResolveWrite(chunk, encoding, callback, w.state.defaultEncoding, isEncoding).Ok?
    ensures var p := ResolveWrite(chunk, encoding, callback, w.state.defaultEncoding, isEncoding).value;
      var grown := w.state.length + Size(p.chunk);
      WriteStep(w, chunk, encoding, callback, isEncoding)
        == (w.(state := w.state.(length := grown, needDrain := w.state.needDrain || !(grown < w.state.highWaterMark),
                                 isWriting := true, writeCallback := p.callback, writeLength := Size(p.chunk)),
               log := w.log + [Dispatched(p.chunk, p.encoding)]),
            Ok(grown < w.state.highWaterMark))
  {
  }

  /** A corked stream holds an accepted write back: it joins the end of the
      queue and nothing goes to the sink. */
  lemma CorkHoldsWrites(w: Snapshot, chunk: Value, encoding: Value, callback: Value, isEncoding: string -> bool)
    requires w.state.corked > 0 && !Rejects(w.state)
    requires ResolveWrite(chunk, encoding, callback, w.state.defaultEncoding, isEncoding).Ok?
    ensures WriteStep(w, chunk, encoding, callback, isEncoding).0.log == w.log
    ensures WriteStep(w, chunk, encoding, callback, isEncoding).0.state.buffered
         == w.state.buffered + [ResolveWrite(chunk, encoding, callback, w.state.defaultEncoding, isEncoding).value]
  {
  }

  /** Draining the queue sends its oldest write, so writes reach the sink in
      the order they were made. */
  lemma ClearSendsOldest(w: Snapshot)
    requires w.state.corked == 0 && !w.state.destroyed && w.state.constructed && w.state.buffered != []
    ensures ClearStep(w).1 == Pass
    ensures ClearStep(w).0.log == w.log + [Dispatched(w.state.buffered[0].chunk, w.state.buffered[0].encoding)]
    ensures ClearStep(w).0.state.buffered == w.state.buffered[1..]
    ensures ClearStep(w).0.state.isWriting
  {
  }

  /** `end` with no chunk while a write is in flight marks the stream ending
      and ended, and does not finish it. */
  lemma EndWhileWriting(w: Snapshot, callback: Value, isEncoding: string -> bool)
    requires w.state.isWriting && w.state.corked == 0 && !w.state.destroyed
    ensures EndStep(w, Undefined, Undefined, callback, isEncoding) == (w.(state := w.state.(ending := true, ended := true)), Pass)
  {
    FinishMaybeEffect(w.(state := w.state.(ending := true)));
  }

  /** The completion of the last write of an ending stream runs the write's
      callback, then emits `finish` and closes the stream. */
  lemma LastCompletionFinishes(w: Snapshot)
    requires w.state.isWriting && w.state.ending && !w.state.finished && w.state.constructed && !w.state.destroyed
    requires w.state.buffered == [] && w.state.length == w.state.writeLength && w.state.errored.None?
    ensures OnWriteEndStep(w, None).1 == Pass
    ensures OnWriteEndStep(w, None).0.state
         == w.state.(isWriting := false, writeCallback := Null, length := 0, writeLength := 0,
                     finished := true, destroyed := true, closed := true)
    ensures OnWriteEndStep(w, None).0.log
         == w.log + (if w.state.writeCallback.Func? then [Called(w.state.writeCallback.id, None)] else []) + [Emitted(Finish)]
    ensures OnWriteEndStep(w, None).0.ticks == w.ticks + [EmitClose]
  {
    var w3 := DrainMaybe(ClearIfQueued(Complete(w)));
    assert w3 == Complete(w);
    FinishMaybeEffect(CallIfFunction(w3, w.state.writeCallback));
  }

  /** A string written to an idle, empty stream, then `end`, then the sink's
      completion: the chunk goes out, `finish` follows it, and `close` is
      deferred. */
  lemma WriteEndComplete(w: Snapshot, text: string, isEncoding: string -> bool)
    requires !w.state.isWriting && w.state.corked == 0 && w.state.constructed && !Rejects(w.state) && !w.state.finished
    requires w.state.buffered == [] && w.state.length == 0 && |text| < w.state.highWaterMark
    ensures var w1 := WriteStep(w, Str(text), Undefined, Undefined, isEncoding);
      var w2 := EndStep(w1.0, Undefined, Undefined, Undefined, isEncoding);
      var w3 := OnWriteEndStep(w2.0, None);
      && w1.1 == Ok(true) && w2.1 == Pass && w3.1 == Pass
      && w3.0.log == w.log + [Dispatched(Text(text), w.state.defaultEncoding), Emitted(Finish)]
      && w3.0.ticks == w.ticks + [EmitClose]
  {
    WriteWhenIdle(w, Str(text), Undefined, Undefined, isEncoding);
    var w1 := WriteStep(w, Str(text), Undefined, Undefined, isEncoding).0;
    EndWhileWriting(w1, Undefined, isEncoding);
    var w2 := EndStep(w1, Undefined, Undefined, Undefined, isEncoding).0;
    LastCompletionFinishes(w2);
  }

  // ---------------------------------------------------------------------
  // The stream object.

  class Writeable {
    var state: WriteState
    /** What the stream did synchronously, oldest first. */
    var log: seq<Action>
    /** What it deferred to the next tick, oldest first. */
    var ticks: seq<Tick>
    /** `Buffer.isEncoding`. */
    const isEncoding: string -> bool
    /** The bytes of refused writes, and the writes completed. */
    ghost var rejected: nat
    ghost var completed: nat

    function Snap(): Snapshot
      reads this
    {
      Snapshot(state, log, ticks)
    }

    ghost predicate Valid()
      reads this
    {
      Inv(Snap(), rejected, completed)
    }

    /** `autoDestroy` and `emitClose` come out true whatever the options say,
        and `objectMode` and `decodeStrings` false; none of them is kept. */
    constructor(options: Options, classConstruct: bool, isEncoding: string -> bool)
      ensures Valid() && Snap() == Initial(options, classConstruct)
      ensures this.isEncoding == isEncoding
    {
      var hwm := 16 * 1024;
      if options.highWaterMark.Some? && options.highWaterMark.value != 0 {
        hwm := options.highWaterMark.value;
      }
      var enc := "utf8";
      if options.defaultEncoding.Some? && options.defaultEncoding.value != "" {
        enc := options.defaultEncoding.value;
      }
      state := WriteState(0, [], false, Null, 0, false, 0, None, false, false, false, false, false, true, hwm, enc);
      log := [];
      ticks := [];
      this.isEncoding := isEncoding;
      rejected, completed := 0, 0;
      new;
      if classConstruct {
        state := state.(constructed := false);
        ticks := ticks + [RunConstruct];
      }
    }

    method Write(chunk: Value, encoding: Value, callback: Value) returns (r: Result<bool, Throw>)
      requires Valid()
      modifies this
      ensures Valid()
      ensures (Snap(), r) == WriteStep(old(Snap()), chunk, encoding, callback, isEncoding)
      ensures rejected == old(rejected) + RejectedBytes(old(Snap()), chunk, encoding, callback, isEncoding)
      ensures completed == old(completed)
    {
      WriteKeepsInv(Snap(), chunk, encoding, callback, isEncoding, rejected, completed);
      r := WriteBody(chunk, encoding, callback);
    }

    /** The body of `write`: checks its arguments, then accepts the chunk. */
    method WriteBody(chunk: Value, encoding: Value, callback: Value) returns (r: Result<bool, Throw>)
      modifies this
      ensures (Snap(), r) == WriteStep(old(Snap()), chunk, encoding, callback, isEncoding)
      ensures rejected == old(rejected) + RejectedBytes(old(Snap()), chunk, encoding, callback, isEncoding)
      ensures completed == old(completed)
    {
      var pending := CheckWrite(chunk, encoding, callback);
      if pending.Err? {
        return Err(pending.error);
      }
      r := AcceptWrite(pending.value.chunk, pending.value.encoding, pending.value.callback);
    }

    /** The argument checks `write` starts with. */
    method CheckWrite(chunk: Value, encoding: Value, callback: Value) returns (r: Result<Pending, Throw>)
      ensures r == ResolveWrite(chunk, encoding, callback, state.defaultEncoding, isEncoding)
    {
      var cb := callback;
      var enc: string;
      if encoding.Func? {
        cb := encoding;
        enc := state.defaultEncoding;
      } else if !Truthy(encoding) {
        enc := state.defaultEncoding;
      } else if !(encoding.Str? && (encoding.s == "buffer" || isEncoding(encoding.s))) {
        return Err(InvalidEncoding);
      } else {
        enc := encoding.s;
      }
      var payload: Payload;
      if chunk.Null? {
        return Err(NullChunk);
      } else if chunk.Str? {
        payload := Text(chunk.s);
      } else if chunk.Buf? {
        payload := Bytes(chunk.bytes);
        enc := "buffer";
      } else {
        return Err(InvalidChunkType);
      }
      return Ok(Pending(payload, enc, cb));
    }

    /** `write` once its arguments are checked: counts the chunk, then
        refuses it, queues it or hands it to the sink. */
    method AcceptWrite(chunk: Payload, encoding: string, callback: Value) returns (r: Result<bool, Throw>)
      modifies this
      ensures (Snap(), r) == Accept(old(Snap()), Pending(chunk, encoding, callback))
      ensures rejected == old(rejected) + (if Rejects(old(state)) then Size(chunk) else 0)
      ensures completed == old(completed)
    {
      var len := Size(chunk);
      var out := Count(len);
      if state.errored.Some? {
        if callback.Func? {
          ticks := ticks + [CallWithError(callback.id, state.errored.value)];
        }
        rejected := rejected + len;
        return Ok(false);
      }
      if state.isWriting || state.corked > 0 || !state.constructed {
        state := state.(buffered := state.buffered + [Pending(chunk, encoding, callback)]);
      } else {
        state := state.(isWriting := true, writeCallback := callback, writeLength := len);
        log := log + [Dispatched(chunk, encoding)];
      }
      return Ok(out);
    }

    /** Counts a write of `len` against the high-water mark. */
    method Count(len: nat) returns (out: bool)
      modifies this
      ensures state == Counted(old(state), len) && log == old(log) && ticks == old(ticks)
      ensures out == (state.length < state.highWaterMark)
      ensures rejected == old(rejected) && completed == old(completed)
    {
      var s := state.(length := state.length + len);
      out := s.length < s.highWaterMark;
      var drain := s.needDrain;
      if !out {
        drain := true;
      }
      var err := s.errored;
      if s.ending {
        err := Some(WriteAfterEnd);
      }
      if s.destroyed {
        err := Some(WriteAfterDestroyed);
      }
      state := s.(needDrain := drain, errored := err);
      assert state.length == Counted(old(state), len).length;
      assert state.needDrain == Counted(old(state), len).needDrain;
      assert state.errored == Counted(old(state), len).errored;
    }

    /** The completion the sink reports for the write in flight. The sink
        may call it at any time; only a call while a write is in flight
        completes one. */
    method OnWriteEnd(err: Option<Error>) returns (o: Outcome<Throw>)
      requires Valid()
      modifies this
      ensures Valid()
      ensures (Snap(), o) == OnWriteEndStep(old(Snap()), err)
      ensures rejected == old(rejected)
      ensures completed == old(completed) + (if old(state.isWriting) then 1 else 0)
    {
      OnWriteEndKeepsInv(Snap(), err, rejected, completed);
      if state.isWriting {
        completed := completed + 1;
      }
      o := OnWriteEndBody(err);
    }

    /** The body of `onWriteEnd`, which the sink calls back. */
    method OnWriteEndBody(err: Option<Error>) returns (o: Outcome<Throw>)
      modifies this
      ensures (Snap(), o) == OnWriteEndStep(old(Snap()), err)
      ensures rejected == old(rejected) && completed == old(completed)
    {
      var s := state;
      var callback := s.writeCallback;
      s := s.(isWriting := false, writeCallback := Null, length := s.length - s.writeLength, writeLength := 0);
      if err.Some? {
        state := s.(errored := err);
        return Fail(Rethrown(err.value));
      }
      state := s;
      AfterSuccess(callback);
      return Pass;
    }

    /** `onWriteEnd` past its error check. */
    method AfterSuccess(callback: Value)
      modifies this
      ensures Snap() == Succeeded(old(Snap()), callback)
      ensures rejected == old(rejected) && completed == old(completed)
    {
      if |state.buffered| > 0 {
        var _ := ClearBuffer();
      }
      DrainIfDue();
      if callback.Func? {
        log := log + [Called(callback.id, None)];
      }
      FinishMaybe();
    }

    /** Emits `drain` when the completion found nothing left to wait for. */
    method DrainIfDue()
      modifies this
      ensures Snap() == DrainMaybe(old(Snap()))
      ensures rejected == old(rejected) && completed == old(completed)
    {
      var s := state;
      if s.needDrain && s.length == 0 && !s.ending && !s.destroyed {
        state := s.(needDrain := false);
        log := log + [Emitted(Drain)];
      }
    }

    method Cork()
      requires Valid()
      modifies this
      ensures Valid() && Snap() == CorkStep(old(Snap()))
      ensures rejected == old(rejected) && completed == old(completed)
    {
      state := state.(corked := state.corked + 1);
    }

    method Uncork() returns (o: Outcome<Throw>)
      requires Valid()
      modifies this
      ensures Valid() && (Snap(), o) == UncorkStep(old(Snap()))
      ensures rejected == old(rejected) && completed == old(completed)
    {
      UncorkKeepsInv(Snap(), rejected, completed);
      o := UncorkBody();
    }

    method UncorkBody() returns (o: Outcome<Throw>)
      modifies this
      ensures (Snap(), o) == UncorkStep(old(Snap()))
      ensures rejected == old(rejected) && completed == old(completed)
    {
      o := Pass;
      if state.corked > 0 {
        state := state.(corked := state.corked - 1);
        if !state.isWriting {
          o := ClearBuffer();
        }
      }
    }

    method ClearBuffer() returns (o: Outcome<Throw>)
      modifies this
      ensures (Snap(), o) == ClearStep(old(Snap()))
      ensures rejected == old(rejected) && completed == old(completed)
    {
      if state.corked > 0 || state.destroyed || !state.constructed {
        return Pass;
      }
      if state.buffered == [] {
        return Fail(EmptyQueue);
      }
      var next := state.buffered[0];
      state := state.(buffered := state.buffered[1..]);
      DoWrite(next.chunk, next.encoding, next.callback);
      return Pass;
    }

    method DoWrite(chunk: Payload, encoding: string, callback: Value)
      modifies this
      ensures Snap() == DoWriteStep(old(Snap()), Pending(chunk, encoding, callback))
      ensures rejected == old(rejected) && completed == old(completed)
    {
      state := state.(isWriting := true, writeCallback := callback, writeLength := Size(chunk));
      log := log + [Dispatched(chunk, encoding)];
    }

    method SetDefaultEncoding(encoding: string) returns (o: Outcome<Throw>)
      requires Valid()
      modifies this
      ensures Valid() && log == old(log) && ticks == old(ticks)
      ensures !isEncoding(encoding) ==> o == Fail(InvalidEncoding) && state == old(state)
      ensures isEncoding(encoding) ==> o == Pass && state == old(state).(defaultEncoding := encoding)
      ensures rejected == old(rejected) && completed == old(completed)
    {
      if !isEncoding(encoding) {
        return Fail(InvalidEncoding);
      }
      state := state.(defaultEncoding := encoding);
      return Pass;
    }

    method End(chunk: Value, encoding: Value, callback: Value) returns (o: Outcome<Throw>)
      requires Valid()
      modifies this
      ensures Valid()
      ensures (Snap(), o) == EndStep(old(Snap()), chunk, encoding, callback, isEncoding)
      ensures rejected == old(rejected) + EndRejectedBytes(old(Snap()), chunk, encoding, callback, isEncoding)
      ensures completed == old(completed)
    {
      EndKeepsInv(Snap(), chunk, encoding, callback, isEncoding, rejected, completed);
      o := EndBody(chunk, encoding, callback);
    }

    method EndBody(chunk: Value, encoding: Value, callback: Value) returns (o: Outcome<Throw>)
      modifies this
      ensures (Snap(), o) == EndStep(old(Snap()), chunk, encoding, callback, isEncoding)
      ensures rejected == old(rejected) + EndRejectedBytes(old(Snap()), chunk, encoding, callback, isEncoding)
      ensures completed == old(completed)
    {
      var c, e, cb := ShiftEndArguments(chunk, encoding, callback);
      var written := EndWriteChunk(c, e);
      if written.Err? {
        return Fail(written.error);
      }
      o := EndUncorkClose(cb);
    }

    /** A function passed as the chunk or the encoding of `end` is its
        callback. */
    static method ShiftEndArguments(chunk: Value, encoding: Value, callback: Value) returns (c: Value, e: Value, cb: Value)
      ensures (c, e, cb) == EndArgs(chunk, encoding, callback)
    {
      c, e, cb := chunk, encoding, callback;
      if c.Func? {
        cb := c;
        c := Null;
        e := Null;
      } else if e.Func? {
        cb := e;
        e := Null;
      }
    }

    /** `end` writes its chunk, with no callback, when the chunk is truthy. */
    method EndWriteChunk(chunk: Value, encoding: Value) returns (r: Result<bool, Throw>)
      modifies this
      ensures (Snap(), r) == EndWrite(old(Snap()), chunk, encoding, isEncoding)
      ensures rejected == old(rejected) + (if Truthy(chunk) then RejectedBytes(old(Snap()), chunk, encoding, Undefined, isEncoding) else 0)
      ensures completed == old(completed)
    {
      r := Ok(true);
      if Truthy(chunk) {
        r := WriteBody(chunk, encoding, Undefined);
      }
    }

    /** The part of `end` after its chunk is written: undo every `cork`,
        then close the writing side. */
    method EndUncorkClose(callback: Value) returns (o: Outcome<Throw>)
      modifies this
      ensures (Snap(), o) == EndAfterWrite(old(Snap()), callback)
      ensures rejected == old(rejected) && completed == old(completed)
    {
      if state.corked > 0 {
        state := state.(corked := 1);
        o := UncorkBody();
        if o.Fail? {
          return;
        }
      }
      EndCloseSteps(callback);
      return Pass;
    }

    /** The last part of `end`. */
    method EndCloseSteps(callback: Value)
      modifies this
      ensures Snap() == EndClose(old(Snap()), callback)
      ensures rejected == old(rejected) && completed == old(completed)
    {
      if state.destroyed {
        state := state.(errored := Some(WriteAfterDestroyed));
        if callback.Func? {
          ticks := ticks + [CallWithError(callback.id, WriteAfterDestroyed)];
        }
      } else {
        state := state.(ending := true);
        FinishMaybe();
        state := state.(ended := true);
      }
    }

    method FinishMaybe()
      modifies this
      ensures Snap() == FinishMaybeStep(old(Snap()))
      ensures rejected == old(rejected) && completed == old(completed)
    {
      if NeedFinish(state) {
        state := state.(finished := true);
        Destroy(None, Undefined);
        log := log + [Emitted(Finish)];
      }
    }

    method Destroy(err: Option<Error>, callback: Value)
      modifies this
      ensures Snap() == DestroyStep(old(Snap()), err, callback)
      ensures old(Valid()) ==> Valid()
      ensures rejected == old(rejected) && completed == old(completed)
    {
      ghost var w0 := Snap();
      if Inv(w0, rejected, completed) {
        DestroyKeepsInv(w0, err, callback, rejected, completed);
      }
      state := state.(destroyed := true);
      if callback.Func? {
        log := log + [Called(callback.id, err)];
      }
      if err.Some? {
        state := state.(errored := err);
        OnError();
      }
      Close();
      DoDestroy(state.errored);
    }

    /** The default `doDestroy`: calls `_destroy` with the error. */
    method DoDestroy(err: Option<Error>)
      modifies this
      ensures Snap() == DestroyHookStep(old(Snap()), err)
      ensures rejected == old(rejected) && completed == old(completed)
    {
      DestroyHook(err);
    }

    /** The default `_destroy`. */
    method DestroyHook(err: Option<Error>)
      modifies this
      ensures Snap() == DestroyHookStep(old(Snap()), err)
      ensures rejected == old(rejected) && completed == old(completed)
    {
      if err.Some? {
        state := state.(errored := err);
        OnError();
      }
    }

    method Close()
      modifies this
      ensures Snap() == CloseStep(old(Snap()))
      ensures rejected == old(rejected) && completed == old(completed)
    {
      state := state.(closed := true);
      ticks := ticks + [EmitClose];
    }

    method OnError()
      requires state.errored.Some?
      modifies this
      ensures Snap() == OnErrorStep(old(Snap()), old(state.errored.value))
      ensures rejected == old(rejected) && completed == old(completed)
    {
      ticks := ticks + [EmitError(state.errored.value)];
    }

    /** The callback `_construct` is handed. */
    method OnConstructed(err: Option<Error>)
      requires Valid()
      modifies this
      ensures Valid() && Snap() == OnConstructedStep(old(Snap()), err)
      ensures rejected == old(rejected) && completed == old(completed)
    {
      OnConstructedKeepsInv(Snap(), err, rejected, completed);
      state := state.(constructed := true);
      if err.Some? {
        state := state.(errored := err);
      }
      FinishMaybe();
    }
  }
}
