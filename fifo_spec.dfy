/** The channel's behaviour as a pure state machine: the shared state that the
    Producer and the Consumer of one channel see, and one step function per
    public operation (`create`, `Producer::write`, `Consumer::read` and the two
    `Drop` impls in src/lib.rs). The class `Fifo.Channel` is proved to take
    exactly these steps. */
module FifoSpec {
  import opened Ring

  /** The two `std::io::ErrorKind`s the channel reports. */
  datatype ErrorKind = WouldBlock | BrokenPipe

  /** A `std::io::Error`: its kind and the description it carries. */
  datatype Error = Error(kind: ErrorKind, description: string)

  const ConsumerClosed := Error(BrokenPipe, "Consumer was closed")
  const ProducerClosed := Error(BrokenPipe, "Producer was closed")
  const RingFull := Error(WouldBlock, "Ring buffer is full")
  const RingEmpty := Error(WouldBlock, "Ring buffer is empty")

  /** `std::io::Result<T>`. */
  datatype Result<T> = Ok(value: T) | Err(error: Error)

  /** The `mio::Ready` values the channel passes to `set_readiness`. */
  datatype Ready = Readable | Writable | All

  /** Everything the two halves of one channel share.
      - `contents`: the bytes in the ring, oldest first; `capacity` its size.
      - `alive`: the shared liveness flag (`cls`).
      - `consumerSignals`: every readiness the Producer has raised, through
        `src`, on the Consumer's registration, in order; `producerSignals` the
        same for the Consumer raising the Producer's registration through `srp`.
        A registration has been made ready iff its list is non-empty.
      - `producerDropped`, `consumerDropped`: whether that half has been dropped
        (Rust's ownership rules forbid any use of a half after its drop). */
  datatype State = State(
    contents: seq<u8>,
    capacity: nat,
    alive: bool,
    consumerSignals: seq<Ready>,
    producerSignals: seq<Ready>,
    producerDropped: bool,
    consumerDropped: bool)

  /** The channel invariant: the ring never holds more than its capacity, and
      the liveness flag is up exactly while neither half has been dropped. */
  predicate Valid(s: State)
  {
    |s.contents| <= s.capacity && (s.alive <==> !s.producerDropped && !s.consumerDropped)
  }

  /** The state after one step, with what the operation returned. */
  datatype Step<T> = Step(next: State, result: Result<T>)

  /** `create(capacity)`. */
  function Create(capacity: nat): (s: State)
    ensures Valid(s)
    ensures s.contents == [] && s.capacity == capacity && s.alive
    ensures s.consumerSignals == [] && s.producerSignals == []
  {
    State([], capacity, true, [], [], false, false)
  }

  /** `Producer::write(buf)`: check the flag, snapshot emptiness, push what
      fits, raise the Consumer as readable on the empty-to-non-empty edge. */
  function Write(s: State, buf: seq<u8>): (r: Step<nat>)
    requires Valid(s) && !s.producerDropped && |buf| > 0
    ensures Valid(r.next)
    // the two rejections, each leaving the state exactly as it was
    ensures r.result == Err(ConsumerClosed) <==> !s.alive
    ensures r.result == Err(RingFull) <==> s.alive && |s.contents| == s.capacity
    // and these are the only failures: a live ring with room always takes bytes
    ensures r.result.Ok? <==> s.alive && |s.contents| < s.capacity
    ensures r.result.Err? ==> r.next == s
    // success: a non-empty prefix of buf is appended, as long as the free space allows
    ensures r.result.Ok? ==>
      var n := r.result.value;
      0 < n <= |buf| && n <= s.capacity - |s.contents| &&
      (n < |buf| ==> n == s.capacity - |s.contents|) &&
      r.next.contents == s.contents + buf[..n]
    // the Consumer is raised, as readable, only on the empty-to-non-empty edge
    ensures r.next.consumerSignals ==
      s.consumerSignals + (if r.result.Ok? && s.contents == [] then [Readable] else [])
    // nothing else changes
    ensures r.next == s.(contents := r.next.contents, consumerSignals := r.next.consumerSignals)
  {
    if !s.alive then Step(s, Err(ConsumerClosed))
    else
      var empty := s.contents == [];
      match RbWrite(s.contents, s.capacity, buf)
      case Moved(num) =>
        var next := s.(contents := s.contents + buf[..num]);
        if num > 0 && empty then
          Step(next.(consumerSignals := next.consumerSignals + [Readable]), Ok(num))
        else
          Step(next, Ok(num))
      // rb's write fails only with Full (RbWrite's contract): the source's
      // `RbError::Empty => unreachable!()` arm has no counterpart here
      case Failed(_) => Step(s, Err(RingFull))
  }

  /** `Consumer::read(buf)` with `len == buf.len()`: snapshot fullness, pop
      what is there, raise the Producer as writable on the full-to-non-full
      edge; on an empty ring, report whether the Producer is gone. The bytes
      handed out are `s.contents[..n]`. */
  function Read(s: State, len: nat): (r: Step<nat>)
    requires Valid(s) && !s.consumerDropped && len > 0
    ensures Valid(r.next)
    // an empty ring: nothing changes, and the error tells whether the flag is down
    ensures r.result.Err? <==> s.contents == []
    ensures r.result.Err? ==> r.next == s
    ensures r.result.Err? ==> r.result.error == (if s.alive then RingEmpty else ProducerClosed)
    // success: a non-empty prefix of the ring is removed, as long as the buffer allows
    ensures r.result.Ok? ==>
      var n := r.result.value;
      0 < n <= len && n <= |s.contents| &&
      (n < len ==> n == |s.contents|) &&
      r.next.contents == s.contents[n..]
    // the Producer is raised, as writable, only on the full-to-non-full edge
    ensures r.next.producerSignals ==
      s.producerSignals + (if r.result.Ok? && |s.contents| == s.capacity then [Writable] else [])
    // nothing else changes
    ensures r.next == s.(contents := r.next.contents, producerSignals := r.next.producerSignals)
  {
    var full := |s.contents| == s.capacity;
    match RbRead(s.contents, len)
    case Moved(num) =>
      var next := s.(contents := s.contents[num..]);
      if num > 0 && full then
        Step(next.(producerSignals := next.producerSignals + [Writable]), Ok(num))
      else
        Step(next, Ok(num))
    // rb's read fails only with Empty (RbRead's contract): the source's
    // `RbError::Full => unreachable!()` arm has no counterpart here
    case Failed(_) =>
      Step(s, Err(if !s.alive then ProducerClosed else RingEmpty))
  }

  /** `Drop for Producer`: lower the flag, then raise the Consumer with every
      readiness, whatever the ring holds. */
  function DropProducer(s: State): (t: State)
    requires Valid(s) && !s.producerDropped
    ensures Valid(t) && !t.alive && t.producerDropped
    ensures t.consumerSignals == s.consumerSignals + [All]
    ensures t == s.(alive := false, producerDropped := true, consumerSignals := t.consumerSignals)
  {
    s.(alive := false, consumerSignals := s.consumerSignals + [All], producerDropped := true)
  }

  /** `Drop for Consumer`: lower the flag, then raise the Producer with every
      readiness, whatever the ring holds. */
  function DropConsumer(s: State): (t: State)
    requires Valid(s) && !s.consumerDropped
    ensures Valid(t) && !t.alive && t.consumerDropped
    ensures t.producerSignals == s.producerSignals + [All]
    ensures t == s.(alive := false, consumerDropped := true, producerSignals := t.producerSignals)
  {
    s.(alive := false, producerSignals := s.producerSignals + [All], consumerDropped := true)
  }
}
