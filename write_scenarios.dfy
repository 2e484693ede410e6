// Concrete runs of the write stream, in the order a caller and the sink
// would drive them.

module WriteStreamScenarios {
  import opened Common
  import opened WriteStream

  /** The encodings `Buffer.isEncoding` accepts. */
  predicate KnownEncoding(s: string)
  {
    s in {"utf8", "utf-8", "ascii", "latin1", "binary", "base64", "base64url", "hex", "ucs2", "ucs-2", "utf16le", "utf-16le"}
  }

  /** Destroying with an error surfaces it on two ticks around `close`. */
  method DestroyWithError() returns (log: seq<Action>, ticks: seq<Tick>)
    ensures log == [Called(9, Some(External(1)))]
    ensures ticks == [EmitError(External(1)), EmitClose, EmitError(External(1))]
  {
    var w := new Writeable(Options(None, None), false, KnownEncoding);
    w.Destroy(Some(External(1)), Func(9));
    log, ticks := w.log, w.ticks;
  }

  /** Uncorking with nothing queued throws. */
  method CorkUncork() returns (o: Outcome<Throw>)
    ensures o == Fail(EmptyQueue)
  {
    var w := new Writeable(Options(None, None), false, KnownEncoding);
    w.Cork();
    o := w.Uncork();
  }

  /** Once `end` has finished the stream, a write is refused with
      "destroyed", whose callback hears of it on a later tick. */
  method WriteAfterFinish() returns (r: Result<bool, Throw>, ticks: seq<Tick>, length: int)
    ensures r == Ok(false)
    ensures ticks == [EmitClose, CallWithError(5, WriteAfterDestroyed)]
    ensures length == 1
  {
    var w := new Writeable(Options(None, None), false, KnownEncoding);
    var _ := w.End(Undefined, Undefined, Undefined);
    r := w.Write(Str("x"), Undefined, Func(5));
    ticks, length := w.ticks, w.state.length;
  }

  /** A write made while `_construct` is pending is queued, and the
      construct callback leaves it queued. */
  method ConstructLeavesQueue() returns (log: seq<Action>, queued: nat)
    ensures log == [] && queued == 1
  {
    var w := new Writeable(Options(Some(4), None), true, KnownEncoding);
    var _ := w.Write(Buf([1, 2]), Undefined, Undefined);
    w.OnConstructed(None);
    log, queued := w.log, |w.state.buffered|;
  }

  /** A bad encoding is refused before anything is counted. */
  method BadEncoding() returns (r: Result<bool, Throw>, length: int)
    ensures r == Err(InvalidEncoding) && length == 0
  {
    var w := new Writeable(Options(None, None), false, KnownEncoding);
    r := w.Write(Str("x"), Str("klingon"), Undefined);
    length := w.state.length;
  }
}
