/** The channel of src/lib.rs as one object: the shared ring, the shared
    liveness flag and the two readiness links, updated in place by the
    Producer's `write` and `drop` and the Consumer's `read` and `drop`.
    Every method is proved to take the step that `FifoSpec` defines, so the
    properties proved there and in `Traces` hold of this class. */
module Fifo {
  import opened Ring
  import opened FifoSpec

  class Channel {
    /** The bytes in the shared ring, oldest first. */
    var contents: seq<u8>
    /** The ring's size, fixed by `create`. */
    const capacity: nat
    /** The shared `AtomicBool` (`cls`): true until either half is dropped. */
    var alive: bool
    /** The readiness values set, in order, on the Consumer's registration
        `regc` through the Producer's `src`. */
    var consumerSignals: seq<Ready>
    /** The readiness values set, in order, on the Producer's registration
        `regp` through the Consumer's `srp`. */
    var producerSignals: seq<Ready>
    /** Whether the Producer / the Consumer half has been dropped. */
    ghost var producerDropped: bool
    ghost var consumerDropped: bool

    /** The abstract value of the channel. */
    ghost function State(): FifoSpec.State
      reads this
    {
      FifoSpec.State(contents, capacity, alive, consumerSignals, producerSignals,
                     producerDropped, consumerDropped)
    }

    ghost predicate Valid()
      reads this
    {
      FifoSpec.Valid(State())
    }

    /** `create(capacity)`: an empty ring, the flag up, neither registration
        made ready. */
    constructor Create(capacity: nat)
      ensures Valid() && State() == FifoSpec.Create(capacity)
      ensures contents == [] && this.capacity == capacity && alive
      ensures consumerSignals == [] && producerSignals == []
      ensures !producerDropped && !consumerDropped
    {
      contents := [];
      this.capacity := capacity;
      alive := true;
      consumerSignals := [];
      producerSignals := [];
      producerDropped := false;
      consumerDropped := false;
    }

    /** `Producer::write(buf)`. */
    method Write(buf: seq<u8>) returns (r: Result<nat>)
      requires Valid() && !producerDropped && |buf| > 0
      modifies this
      ensures Valid()
      ensures State() == FifoSpec.Write(old(State()), buf).next
      ensures r == FifoSpec.Write(old(State()), buf).result
      // what that step is, spelled out for callers of the class
      ensures !old(alive) ==> r == Err(ConsumerClosed) && contents == old(contents)
      ensures old(alive) && |old(contents)| == capacity ==> r == Err(RingFull) && contents == old(contents)
      ensures r.Ok? <==> old(alive) && |old(contents)| < capacity
      ensures r.Ok? ==> contents == old(contents) + buf[..r.value]
      ensures consumerSignals ==
        old(consumerSignals) + (if r.Ok? && old(contents) == [] then [Readable] else [])
      ensures producerSignals == old(producerSignals) && alive == old(alive)
    {
      if !alive {
        return Err(ConsumerClosed);
      }
      var empty := contents == [];
      match RbWrite(contents, capacity, buf)
      case Moved(num) =>
        contents := contents + buf[..num];
        if num > 0 && empty {
          consumerSignals := consumerSignals + [Readable];
        }
        r := Ok(num);
      case Failed(_) =>
        r := Err(RingFull);
    }

    /** `Consumer::read(buf)`: the bytes handed out are copied into
        `buf[..n]`, and the rest of `buf` keeps what it held. */
    method Read(buf: array<u8>) returns (r: Result<nat>)
      requires Valid() && !consumerDropped && buf.Length > 0
      modifies this, buf
      ensures Valid()
      ensures State() == FifoSpec.Read(old(State()), buf.Length).next
      ensures r == FifoSpec.Read(old(State()), buf.Length).result
      // what that step is, spelled out for callers of the class
      ensures r.Ok? ==>
        r.value <= buf.Length && r.value <= |old(contents)| &&
        buf[..] == old(contents)[..r.value] + old(buf[..])[r.value..] &&
        contents == old(contents)[r.value..]
      ensures r.Err? ==> buf[..] == old(buf[..]) && contents == old(contents) == []
      ensures producerSignals ==
        old(producerSignals) + (if r.Ok? && |old(contents)| == capacity then [Writable] else [])
      ensures consumerSignals == old(consumerSignals) && alive == old(alive)
    {
      var full := |contents| == capacity;
      match RbRead(contents, buf.Length)
      case Moved(num) =>
        forall i | 0 <= i < num {
          buf[i] := contents[i];
        }
        contents := contents[num..];
        if num > 0 && full {
          producerSignals := producerSignals + [Writable];
        }
        r := Ok(num);
      case Failed(_) =>
        r := Err(if !alive then ProducerClosed else RingEmpty);
    }

    /** `Drop for Producer`. */
    method DropProducer()
      requires Valid() && !producerDropped
      modifies this
      ensures Valid() && State() == FifoSpec.DropProducer(old(State()))
      ensures !alive && consumerSignals == old(consumerSignals) + [All]
      ensures contents == old(contents) && producerSignals == old(producerSignals)
    {
      alive := false;
      consumerSignals := consumerSignals + [All];
      producerDropped := true;
    }

    /** `Drop for Consumer`. */
    method DropConsumer()
      requires Valid() && !consumerDropped
      modifies this
      ensures Valid() && State() == FifoSpec.DropConsumer(old(State()))
      ensures !alive && producerSignals == old(producerSignals) + [All]
      ensures contents == old(contents) && consumerSignals == old(consumerSignals)
    {
      alive := false;
      producerSignals := producerSignals + [All];
      consumerDropped := true;
    }
  }
}
