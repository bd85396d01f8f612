/** The unit tests of src/lib.rs, stated as clients of `Fifo.Channel`: each
    method makes the test's calls and its postcondition is what the test
    asserts. The reactor's event delivery is not modelled, so the polling
    tests are stated through the readiness each registration was given.
    A Rust sub-slice `&mut buf[0..3]` becomes an array of that length. */
module Scenarios {
  import opened Ring
  import opened FifoSpec
  import opened Fifo

  const ABC: seq<u8> := [97, 98, 99]          // b"abc"
  const DEF: seq<u8> := [100, 101, 102]       // b"def"
  const ABCDEF: seq<u8> := [97, 98, 99, 100, 101, 102]   // b"abcdef"

  /** `write_read`: six bytes in, the same six bytes out. */
  method WriteRead() returns (w: Result<nat>, r: Result<nat>, got: seq<u8>)
    ensures w == Ok(6) && r == Ok(6) && got == ABCDEF
  {
    var ch := new Channel.Create(16);
    w := ch.Write(ABCDEF);
    var buf := new u8[6](_ => 0);
    r := ch.Read(buf);
    got := buf[..];
  }

  /** `write_read_concat`: two writes are read back as one, in order. */
  method WriteReadConcat() returns (w1: Result<nat>, w2: Result<nat>, r: Result<nat>, got: seq<u8>)
    ensures w1 == Ok(3) && w2 == Ok(3) && r == Ok(6) && got == ABCDEF
  {
    var ch := new Channel.Create(16);
    w1 := ch.Write(ABC);
    assert ch.contents == ABC;
    w2 := ch.Write(DEF);
    assert ch.contents == ABCDEF;
    var buf := new u8[6](_ => 0);
    r := ch.Read(buf);
    got := buf[..];
  }

  /** `write_read_split`: one write read back in two consecutive chunks. */
  method WriteReadSplit() returns (w: Result<nat>, r1: Result<nat>, got1: seq<u8>, r2: Result<nat>, got2: seq<u8>)
    ensures w == Ok(6)
    ensures r1 == Ok(3) && got1 == ABC
    ensures r2 == Ok(3) && got2 == DEF
  {
    var ch := new Channel.Create(16);
    w := ch.Write(ABCDEF);
    assert ch.contents == ABCDEF;
    var buf := new u8[3](_ => 0);
    r1 := ch.Read(buf);
    got1 := buf[..3];
    assert ch.contents == DEF;
    r2 := ch.Read(buf);
    got2 := buf[..3];
  }

  /** `write_read_empty`: a short read leaves the tail of the buffer as it was. */
  method WriteReadEmpty() returns (r1: Result<nat>, got1: seq<u8>, r2: Result<nat>, got2: seq<u8>)
    ensures r1 == Ok(3) && got1 == ABC + [0, 0, 0]
    ensures r2 == Ok(3) && got2 == DEF + [0, 0, 0]
  {
    var ch := new Channel.Create(16);
    var buf := new u8[6](_ => 0);
    var w := ch.Write(ABC);
    r1 := ch.Read(buf);
    got1 := buf[..];
    w := ch.Write(DEF);
    r2 := ch.Read(buf);
    got2 := buf[..];
  }

  /** `write_read_full`: on a ring of 8 filled with 0..8 and drained by 3,
      a write of six bytes is cut to the 3 free slots, and the ring then
      yields 3, 4, 5 and then 6, 7, 'a', 'b', 'c'. */
  method WriteReadFull()
    returns (w1: Result<nat>, r1: Result<nat>, got1: seq<u8>, w2: Result<nat>,
             r2: Result<nat>, got2: seq<u8>, r3: Result<nat>, got3: seq<u8>)
    ensures w1 == Ok(8) && r1 == Ok(3) && got1 == [0, 1, 2]
    ensures w2 == Ok(3)
    ensures r2 == Ok(3) && got2 == [3, 4, 5]
    ensures r3 == Ok(5) && got3 == [6, 7, 97, 98, 99]
  {
    var ch := new Channel.Create(8);
    w1 := ch.Write([0, 1, 2, 3, 4, 5, 6, 7]);
    var head := new u8[3];
    r1 := ch.Read(head);
    got1 := head[..3];
    assert ch.contents == [3, 4, 5, 6, 7];
    w2 := ch.Write(ABCDEF);
    assert ch.contents == [3, 4, 5, 6, 7, 97, 98, 99];
    r2 := ch.Read(head);
    got2 := head[..3];
    assert ch.contents == [6, 7, 97, 98, 99];
    var buf := new u8[6];
    r3 := ch.Read(buf);
    got3 := buf[..5];
  }

  /** `read_block`: reading a fresh channel would block. */
  method ReadBlock() returns (r: Result<nat>)
    ensures r == Err(RingEmpty)
  {
    var ch := new Channel.Create(16);
    var buf := new u8[4](_ => 0);
    r := ch.Read(buf);
  }

  /** `write_block`: writing to a full ring would block. */
  method WriteBlock() returns (w1: Result<nat>, w2: Result<nat>)
    ensures w1 == Ok(16) && w2 == Err(RingFull)
  {
    var ch := new Channel.Create(16);
    w1 := ch.Write(seq(16, _ => 0));
    w2 := ch.Write(ABC);
  }

  /** `close_cons`: once the Consumer is dropped, writing is a broken pipe,
      even with room in the ring. */
  method CloseCons() returns (w1: Result<nat>, w2: Result<nat>)
    ensures w1 == Ok(3) && w2 == Err(ConsumerClosed)
  {
    var ch := new Channel.Create(16);
    w1 := ch.Write(ABC);
    ch.DropConsumer();
    w2 := ch.Write(DEF);
  }

  /** `close_prod`: after the Producer is dropped the Consumer still gets the
      buffered bytes, and only then a broken pipe. */
  method CloseProd() returns (r1: Result<nat>, got1: seq<u8>, r2: Result<nat>, got2: seq<u8>, r3: Result<nat>)
    ensures r1 == Ok(3) && got1 == ABC
    ensures r2 == Ok(3) && got2 == DEF
    ensures r3 == Err(ProducerClosed)
  {
    var ch := new Channel.Create(16);
    var w := ch.Write(ABCDEF);
    assert ch.contents == ABCDEF;
    var head := new u8[3](_ => 0);
    r1 := ch.Read(head);
    got1 := head[..3];
    assert ch.contents == DEF;
    ch.DropProducer();
    var buf := new u8[6](_ => 0);
    r2 := ch.Read(buf);
    got2 := buf[..3];
    assert ch.contents == [] && !ch.alive;
    r3 := ch.Read(buf);
  }

  /** `poll_cons`: two writes on an empty ring make the Consumer readable
      once, and one read then takes all six bytes. */
  method PollCons() returns (signals: seq<Ready>, r: Result<nat>, got: seq<u8>)
    ensures signals == [Readable]
    ensures r == Ok(6) && got == ABCDEF
  {
    var ch := new Channel.Create(16);
    var w1 := ch.Write(ABC);
    var w2 := ch.Write(DEF);
    assert ch.contents == ABCDEF;
    signals := ch.consumerSignals;
    var buf := new u8[6];
    r := ch.Read(buf);
    got := buf[..];
  }

  /** `poll_prod`: two reads of 3 from a full ring of 16 make the Producer
      writable once, and a write of nine bytes then gets six in. */
  method PollProd() returns (signals: seq<Ready>, w: Result<nat>)
    ensures signals == [Writable]
    ensures w == Ok(6)
  {
    var ch := new Channel.Create(16);
    var fill := ch.Write(seq(16, _ => 0));
    var buf := new u8[3](_ => 0);
    var r1 := ch.Read(buf);
    var r2 := ch.Read(buf);
    signals := ch.producerSignals;
    w := ch.Write([97, 98, 99, 100, 101, 102, 103, 104, 105]);   // b"abcdefghi"
  }

  /** `poll_cons_close`: dropping the Producer makes the Consumer ready
      although nothing was written, and its read then reports the broken pipe. */
  method PollConsClose() returns (signals: seq<Ready>, r: Result<nat>)
    ensures signals == [All]
    ensures r == Err(ProducerClosed)
  {
    var ch := new Channel.Create(16);
    ch.DropProducer();
    signals := ch.consumerSignals;
    var buf := new u8[3](_ => 0);
    r := ch.Read(buf);
  }

  /** `poll_prod_close`: dropping the Consumer makes the Producer of a full
      ring ready, and its write then reports the broken pipe. */
  method PollProdClose() returns (signals: seq<Ready>, w: Result<nat>)
    ensures signals == [All]
    ensures w == Err(ConsumerClosed)
  {
    var ch := new Channel.Create(16);
    var fill := ch.Write(seq(16, _ => 0));
    ch.DropConsumer();
    signals := ch.producerSignals;
    w := ch.Write(DEF);
  }
}
