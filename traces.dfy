/** Properties of whole runs of the channel: any sequence of writes, reads and
    drops, in any interleaving the two halves can produce, taken one atomic
    step at a time. */
module Traces {
  import opened Ring
  import opened FifoSpec

  /** One call on one half of the channel. `ReadOp(len)` reads into a buffer
      of `len` bytes. */
  datatype Op = WriteOp(data: seq<u8>) | ReadOp(len: nat) | DropProducerOp | DropConsumerOp

  /** A call Rust lets the caller make: on a half that still exists, with a
      non-empty buffer. */
  predicate Enabled(s: State, op: Op)
  {
    match op
    case WriteOp(data) => !s.producerDropped && |data| > 0
    case ReadOp(len) => !s.consumerDropped && len > 0
    case DropProducerOp => !s.producerDropped
    case DropConsumerOp => !s.consumerDropped
  }

  /** The state after some calls, with the bytes the ring accepted from the
      Producer and the bytes it handed to the Consumer, each in call order. */
  datatype Outcome = Outcome(next: State, accepted: seq<u8>, delivered: seq<u8>)

  /** One call. A write accepts `data[..n]`; a read delivers the first `n`
      bytes of the ring. */
  function Apply(s: State, op: Op): (o: Outcome)
    requires Valid(s) && Enabled(s, op)
    ensures Valid(o.next) && o.next.capacity == s.capacity
  {
    match op
    case WriteOp(data) =>
      var st := Write(s, data);
      Outcome(st.next, if st.result.Ok? then data[..st.result.value] else [], [])
    case ReadOp(len) =>
      var st := Read(s, len);
      Outcome(st.next, [], if st.result.Ok? then s.contents[..st.result.value] else [])
    case DropProducerOp => Outcome(DropProducer(s), [], [])
    case DropConsumerOp => Outcome(DropConsumer(s), [], [])
  }

  /** Every call of `ops`, in turn, is one the caller may make. */
  predicate Runnable(s: State, ops: seq<Op>)
    requires Valid(s)
    decreases |ops|
  {
    ops == [] ||
    (Enabled(s, ops[0]) && Runnable(Apply(s, ops[0]).next, ops[1..]))
  }

  /** The calls of `ops` made one after another from `s`. Along any run the
      invariant holds, the capacity stays, a lowered flag stays lowered and a
      dropped half stays dropped. */
  function Run(s: State, ops: seq<Op>): (o: Outcome)
    requires Valid(s) && Runnable(s, ops)
    ensures Valid(o.next) && o.next.capacity == s.capacity
    ensures !s.alive ==> !o.next.alive
    ensures s.producerDropped ==> o.next.producerDropped
    ensures s.consumerDropped ==> o.next.consumerDropped
    decreases |ops|
  {
    if ops == [] then Outcome(s, [], [])
    else
      var first := Apply(s, ops[0]);
      var rest := Run(first.next, ops[1..]);
      Outcome(rest.next, first.accepted + rest.accepted, first.delivered + rest.delivered)
  }

  /** One call moves bytes only between the Producer, the ring and the Consumer. */
  lemma ApplyConserves(s: State, op: Op)
    requires Valid(s) && Enabled(s, op)
    ensures s.contents + Apply(s, op).accepted == Apply(s, op).delivered + Apply(s, op).next.contents
  {
  }

  /** FIFO order over any run: what was in the ring, followed by everything
      accepted, is everything delivered followed by what is left in the ring.
      No byte is lost, duplicated or reordered. */
  lemma {:induction false} RunConserves(s: State, ops: seq<Op>)
    requires Valid(s) && Runnable(s, ops)
    ensures s.contents + Run(s, ops).accepted == Run(s, ops).delivered + Run(s, ops).next.contents
    decreases |ops|
  {
    if ops != [] {
      var first := Apply(s, ops[0]);
      var rest := Run(first.next, ops[1..]);
      assert Run(s, ops) == Outcome(rest.next, first.accepted + rest.accepted, first.delivered + rest.delivered);
      ApplyConserves(s, ops[0]);
      RunConserves(first.next, ops[1..]);
      SwapMiddle(s.contents, first.accepted, rest.accepted, first.delivered, first.next.contents,
                 rest.delivered, rest.next.contents);
    }
  }

  /** Sequence algebra behind one step of `RunConserves`. */
  lemma SwapMiddle<T>(c: seq<T>, a1: seq<T>, a2: seq<T>, d1: seq<T>, m: seq<T>, d2: seq<T>, e: seq<T>)
    requires c + a1 == d1 + m
    requires m + a2 == d2 + e
    ensures c + (a1 + a2) == (d1 + d2) + e
  {
    calc {
      c + (a1 + a2);
      (c + a1) + a2;
      (d1 + m) + a2;
      d1 + (m + a2);
      d1 + (d2 + e);
    }
  }

  /** From a fresh channel, the Consumer receives exactly the bytes the
      Producer got accepted, in order, up to what is still buffered; once the
      ring is drained it has received all of them. */
  lemma FreshRunIsFifo(capacity: nat, ops: seq<Op>)
    requires Runnable(Create(capacity), ops)
    ensures Run(Create(capacity), ops).accepted ==
            Run(Create(capacity), ops).delivered + Run(Create(capacity), ops).next.contents
    ensures Run(Create(capacity), ops).next.contents == [] ==>
            Run(Create(capacity), ops).delivered == Run(Create(capacity), ops).accepted
  {
    RunConserves(Create(capacity), ops);
    assert [] + Run(Create(capacity), ops).accepted == Run(Create(capacity), ops).accepted;
  }

  /** Once the flag is down, no write is accepted any more, whatever else happens. */
  lemma {:induction false} ClosedAcceptsNothing(s: State, ops: seq<Op>)
    requires Valid(s) && Runnable(s, ops) && !s.alive
    ensures Run(s, ops).accepted == []
    decreases |ops|
  {
    if ops != [] {
      ClosedAcceptsNothing(Apply(s, ops[0]).next, ops[1..]);
    }
  }

  /** The bytes a Consumer gets by reading with a `len`-byte buffer until the
      first error, and that error: the read loop of the tests `close_prod`
      and `poll_prod_cons`. Everything buffered comes out, in order; then the
      error says whether the Producer is gone. Closing the Producer does not
      discard data. */
  function Drain(s: State, len: nat): (r: (seq<u8>, Error))
    requires Valid(s) && !s.consumerDropped && len > 0
    ensures r.0 == s.contents
    ensures r.1 == (if s.alive then RingEmpty else ProducerClosed)
    decreases |s.contents|
  {
    var st := Read(s, len);
    if st.result.Ok? then
      var rest := Drain(st.next, len);
      (s.contents[..st.result.value] + rest.0, rest.1)
    else
      ([], st.result.error)
  }

  /** A run of nothing but writes. */
  predicate AllWrites(ops: seq<Op>)
  {
    forall i :: 0 <= i < |ops| ==> ops[i].WriteOp?
  }

  /** A run of nothing but reads. */
  predicate AllReads(ops: seq<Op>)
  {
    forall i :: 0 <= i < |ops| ==> ops[i].ReadOp?
  }

  /** Edge-only signalling on the Consumer's side: however many writes follow
      one another, the Consumer is raised at most once, and exactly once iff
      the ring was empty and some byte went in. Writes never raise the Producer. */
  lemma {:induction false} WritesRaiseConsumerOnce(s: State, ops: seq<Op>)
    requires Valid(s) && Runnable(s, ops) && AllWrites(ops)
    ensures Run(s, ops).next.consumerSignals ==
      s.consumerSignals + (if s.contents == [] && Run(s, ops).accepted != [] then [Readable] else [])
    ensures Run(s, ops).next.producerSignals == s.producerSignals
    ensures |Run(s, ops).next.contents| >= |s.contents|
    decreases |ops|
  {
    if ops != [] {
      var first := Apply(s, ops[0]);
      assert AllWrites(ops[1..]) by {
        forall i | 0 <= i < |ops[1..]| ensures ops[1..][i].WriteOp? {
          assert ops[1..][i] == ops[i + 1];
        }
      }
      assert ops[0].WriteOp?;
      WritesRaiseConsumerOnce(first.next, ops[1..]);
      if first.accepted != [] {
        assert first.next.contents != [];
      }
    }
  }

  /** Edge-only signalling on the Producer's side: however many reads follow
      one another, the Producer is raised at most once, and exactly once iff
      the ring was full and some byte came out. Reads never raise the Consumer. */
  lemma {:induction false} ReadsRaiseProducerOnce(s: State, ops: seq<Op>)
    requires Valid(s) && Runnable(s, ops) && AllReads(ops)
    ensures Run(s, ops).next.producerSignals ==
      s.producerSignals + (if |s.contents| == s.capacity && Run(s, ops).delivered != [] then [Writable] else [])
    ensures Run(s, ops).next.consumerSignals == s.consumerSignals
    ensures |Run(s, ops).next.contents| <= |s.contents|
    decreases |ops|
  {
    if ops != [] {
      var first := Apply(s, ops[0]);
      assert AllReads(ops[1..]) by {
        forall i | 0 <= i < |ops[1..]| ensures ops[1..][i].ReadOp? {
          assert ops[1..][i] == ops[i + 1];
        }
      }
      assert ops[0].ReadOp?;
      ReadsRaiseProducerOnce(first.next, ops[1..]);
      if first.delivered != [] {
        assert |first.next.contents| < s.capacity;
      }
    }
  }
}
