# mio-byte-fifo, modelled in Dafny

`mio-byte-fifo` is a non-blocking, fixed-capacity, single-producer /
single-consumer byte channel meant to be driven by a `mio` poll loop.
`create(capacity)` returns a `Producer` and a `Consumer` that share:

- a byte ring of fixed capacity (the external `rb::SpscRb<u8>`);
- one liveness flag, up until either half is dropped;
- two cross-wired readiness links. The Producer raises the Consumer's
  registration through `src`; the Consumer raises the Producer's registration
  through `srp`.

`Producer::write` refuses when the flag is down, pushes what fits, and raises
the Consumer as readable on the empty-to-non-empty edge. `Consumer::read` pops
what is there and raises the Producer as writable on the full-to-non-full edge.
On an empty ring it reports `WouldBlock` while the flag is up and `BrokenPipe`
once it is down, so buffered bytes stay readable after the Producer is gone.
Dropping a half lowers the flag and raises the peer unconditionally.

The model has five parts:

- `Ring` (ring.dfy): the contract of the external ring. Its contents are a
  bounded `seq<u8>`. A write moves `min(len, free)` bytes and fails with
  `Full` only when the ring is full. A read moves `min(len, occupied)` bytes
  and fails with `Empty` only when the ring is empty.
- `FifoSpec` (fifo_spec.dfy): the shared state as a datatype, with one step
  function per operation. Each function's contract states what the step does.
- `Fifo` (fifo.dfy): the channel as a class. It has mutable fields for the ring
  contents, the flag and the two readiness links, plus a constant capacity.
  Its methods `Create`, `Write`, `Read` (which fills the caller's
  `array<u8>`), `DropProducer` and `DropConsumer` are proved to take exactly
  the steps of `FifoSpec`.
- `Traces` (traces.dfy): properties of whole runs, in any interleaving of
  calls on the two halves. These cover FIFO order, closing, draining and
  edge-only signalling.
- `Scenarios` (scenarios.dfy): the crate's single-threaded unit tests, and the
  signalling outcome of its polling tests, written as clients of the class.

Each readiness link is modelled as the ordered list of `Ready` values passed to
`set_readiness` on it. A registration has been made ready iff its list is
non-empty. Keeping the list, rather than one boolean, makes "raised exactly
once" a statement the model can make. The polling tests check exactly that.

Two ghost fields, `producerDropped` and `consumerDropped`, stand for Rust's
ownership rule that a half cannot be used after its drop. The invariant ties
the flag to them: the flag is up iff neither half has been dropped.

Two consequences of how the code is written are kept as they are:

- `create` performs no capacity check and has no error result. Capacity 0 is
  accepted; such a ring is always both empty and full.
- One shared flag serves both directions, not one flag per half. Each half
  can only observe the flag while it still exists, so a lowered flag always
  means the peer is gone. The model keeps the single flag.

## Model

| member | source | states |
|---|---|---|
| `Ring.RbWrite` | src/lib.rs:246-262 | the ring's write fails (with `Full`) iff the ring is full; otherwise it moves between 1 and `len` bytes, never more than the free space, and is short only when it fills the ring |
| `Ring.RbRead` | src/lib.rs:275-301 | the ring's read fails (with `Empty`) iff the ring is empty; otherwise it moves between 1 and `len` bytes, never more than are buffered, and is short only when it drains the ring |
| `FifoSpec.Create` | src/lib.rs:176-190 | a new channel has an empty ring of the given capacity, the flag up, and neither registration raised |
| `FifoSpec.Write` | src/lib.rs:236-264 | "Consumer was closed" iff the flag is down, and "Ring buffer is full" iff the flag is up and the ring is full; both leave the state unchanged. It succeeds iff the flag is up and the ring has room. On success, `n = min(len, free)` bytes are accepted and `buf[..n]` is appended. The Consumer gets `Readable` iff bytes went in and the ring was empty; nothing else changes |
| `FifoSpec.Read` | src/lib.rs:272-302 | an error iff the ring is empty: "Producer was closed" when the flag is down, "Ring buffer is empty" otherwise, with the state unchanged. On success, the first `n = min(len, occupied)` bytes are removed. The Producer gets `Writable` iff bytes came out and the ring was full; nothing else changes |
| `FifoSpec.DropProducer` | src/lib.rs:220-226 | the flag goes down and the Consumer is raised with `All`, even on an empty ring; nothing else changes |
| `FifoSpec.DropConsumer` | src/lib.rs:228-234 | the flag goes down and the Producer is raised with `All`, even on an empty ring; nothing else changes |
| `Fifo.Channel.Create` | src/lib.rs:176-190 | the new object is the fresh channel of `FifoSpec.Create`: empty ring, flag up, nothing raised |
| `Fifo.Channel.Write` | src/lib.rs:236-264 | the new fields and the result are exactly `FifoSpec.Write`'s. Spelled out: a closed consumer rejects without touching the ring, a full ring gives "Ring buffer is full", the write succeeds iff the flag is up and the ring has room, success appends `buf[..n]`, the Consumer is raised only on the empty edge, and the flag and the Producer's link are untouched |
| `Fifo.Channel.Read` | src/lib.rs:272-302 | the new fields and the result are exactly `FifoSpec.Read`'s. On success, `buf[..n]` holds the first `n` bytes of the old ring, `buf[n..]` is untouched and the ring keeps the rest. On error, `buf` and the ring are unchanged. The Producer is raised only on the full edge |
| `Fifo.Channel.DropProducer` | src/lib.rs:220-226 | the fields become `FifoSpec.DropProducer`'s: flag down, `All` appended to the Consumer's link, ring and the other link unchanged |
| `Fifo.Channel.DropConsumer` | src/lib.rs:228-234 | the fields become `FifoSpec.DropConsumer`'s: flag down, `All` appended to the Producer's link, ring and the other link unchanged |
| `Traces.Apply` | src/lib.rs:220-302 | any single call keeps the invariant (`occupied <= capacity`, flag up iff no half dropped) and the capacity |
| `Traces.Run` | src/lib.rs:220-302 | along any run the invariant and capacity are kept; a lowered flag is never raised again, and a dropped half stays dropped |
| `Traces.ApplyConserves` | src/lib.rs:246-254 | a single call only moves bytes: old ring ++ accepted == delivered ++ new ring |
| `Traces.RunConserves` | src/lib.rs:478-500 | over any run, old ring ++ all accepted bytes == all delivered bytes ++ final ring: no loss, duplication or reordering |
| `Traces.FreshRunIsFifo` | src/lib.rs:517-536 | from `create`, the accepted bytes are exactly the delivered bytes followed by what is still buffered; once the ring is empty, everything accepted has been delivered, in order |
| `Traces.ClosedAcceptsNothing` | src/lib.rs:238-243 | once the flag is down, no later call gets any byte into the ring |
| `Traces.Drain` | src/lib.rs:285-298 | reading until the first error yields exactly the buffered bytes, in order. That error is "Producer was closed" if the flag is down and "Ring buffer is empty" otherwise, so closing never discards data |
| `Traces.WritesRaiseConsumerOnce` | src/lib.rs:245-249 | a run of writes raises the Consumer exactly once if the ring was empty and some byte went in, and otherwise never; writes never raise the Producer |
| `Traces.ReadsRaiseProducerOnce` | src/lib.rs:274-278 | a run of reads raises the Producer exactly once if the ring was full and some byte came out, and otherwise never; reads never raise the Consumer |
| `Scenarios.WriteRead` | src/lib.rs:466-475 | writing "abcdef" to a 16-byte channel accepts 6, and a 6-byte read returns them |
| `Scenarios.WriteReadConcat` | src/lib.rs:477-487 | "abc" then "def" are read back as "abcdef" |
| `Scenarios.WriteReadSplit` | src/lib.rs:489-500 | "abcdef" is read back as "abc" then "def" through a 3-byte buffer |
| `Scenarios.WriteReadEmpty` | src/lib.rs:502-515 | a 3-byte read into a zeroed 6-byte buffer leaves its last three bytes zero |
| `Scenarios.WriteReadFull` | src/lib.rs:517-536 | on capacity 8 holding 5 bytes, "abcdef" is cut to 3, and the ring then yields 3,4,5 and 6,7,a,b,c |
| `Scenarios.ReadBlock` | src/lib.rs:538-550 | reading a fresh channel gives `WouldBlock` "Ring buffer is empty" |
| `Scenarios.WriteBlock` | src/lib.rs:552-565 | writing to a full ring gives `WouldBlock` "Ring buffer is full" |
| `Scenarios.CloseCons` | src/lib.rs:567-584 | after the Consumer is dropped, a write gives `BrokenPipe` "Consumer was closed" |
| `Scenarios.CloseProd` | src/lib.rs:586-610 | after the Producer is dropped, the buffered "def" is still read, then `BrokenPipe` "Producer was closed" |
| `Scenarios.PollCons` | src/lib.rs:612-647 | two writes on an empty ring raise the Consumer exactly once (`[Readable]`); one read takes all six bytes |
| `Scenarios.PollProd` | src/lib.rs:649-688 | two 3-byte reads from a full 16-byte ring raise the Producer exactly once (`[Writable]`); a 9-byte write of "abcdefghi" then accepts 6 |
| `Scenarios.PollConsClose` | src/lib.rs:690-724 | dropping the Producer raises the Consumer (`[All]`) with nothing written; its read gives "Producer was closed" |
| `Scenarios.PollProdClose` | src/lib.rs:726-762 | dropping the Consumer raises the Producer of a full ring (`[All]`); its write gives "Consumer was closed" |

## Left out

- The `Evented` impls (src/lib.rs:192-218). They delegate registration to
  `mio::Poll`, an external reactor. The model records only which
  registration each raise reaches.
- The `mio` reactor: event delivery, edge versus oneshot re-arming, and event
  iteration. So the polling tests are stated as "which readiness values were
  set", and the tests of `Registration::new2` alone (src/lib.rs:316-464) are
  not modelled.
- Concurrency: the `SeqCst` atomic, the fences, and the interleaving of the
  two threads inside one call. Each call is one atomic step, and the flag is a
  plain `bool`. The threaded test `poll_prod_cons` (src/lib.rs:764-824) is
  covered only through `Traces.RunConserves` and `Traces.Drain`.
- The internals of `rb::SpscRb`: indices, wrap-around and copying. The ring is
  a bounded sequence with the contract of module `Ring`.
- Fifo.Channel.Write, FifoSpec.Write, Ring.RbWrite: require a non-empty
  `buf`. The outcome of a zero-length write is decided inside `rb`, which is
  not part of this model.
- Fifo.Channel.Read, FifoSpec.Read, Ring.RbRead: require a non-empty `buf`,
  for the same reason.
- Failure of `set_readiness`: the `.and(Ok(num))` and the `.unwrap()` in the
  drops. Raising is treated as infallible.
- `Producer::flush` (src/lib.rs:266-268), which always returns `Ok(())`.
- The example programs (examples/simple.rs, examples/polling.rs,
  temp/polling.rs). They are thread and I/O plumbing with no logic of their
  own.
