/** The fixed-capacity SPSC ring buffer that the channel is built on (the `rb`
    crate's `SpscRb<u8>`), reduced to the contract the channel relies on: its
    occupied bytes are a bounded sequence, a write moves as many bytes as fit
    and fails with `Full` only when nothing fits, a read moves as many bytes as
    are asked for and available and fails with `Empty` only when nothing is
    there. Index arithmetic and wrap-around live inside `rb` and are not part
    of this model. */
module Ring {

  /** Rust's `u8`. */
  newtype u8 = x: int | 0 <= x < 256

  /** `rb::RbError`. */
  datatype RbError = Full | Empty

  /** The result of one `rb` transfer: the number of elements moved, or the error. */
  datatype RbResult = Moved(num: nat) | Failed(err: RbError)

  function Min(a: nat, b: nat): (m: nat)
    ensures m <= a && m <= b && (m == a || m == b)
  {
    if a <= b then a else b
  }

  /** `rb::Producer::write` on a ring holding `contents` with room for
      `capacity` bytes. The ring then holds `contents + data[..num]`. */
  function RbWrite(contents: seq<u8>, capacity: nat, data: seq<u8>): (r: RbResult)
    requires |contents| <= capacity
    requires |data| > 0
    ensures r.Failed? <==> |contents| == capacity
    ensures r.Failed? ==> r.err == Full
    // never more than asked for or than fits, and short only when the ring is then full
    ensures r.Moved? ==> 0 < r.num <= |data| && |contents| + r.num <= capacity
    ensures r.Moved? && r.num < |data| ==> |contents| + r.num == capacity
  {
    if |contents| == capacity then Failed(Full)
    else Moved(Min(|data|, capacity - |contents|))
  }

  /** `rb::Consumer::read` into a buffer of `len` bytes on a ring holding
      `contents`. The ring hands out `contents[..num]` and keeps `contents[num..]`. */
  function RbRead(contents: seq<u8>, len: nat): (r: RbResult)
    requires len > 0
    ensures r.Failed? <==> contents == []
    ensures r.Failed? ==> r.err == Empty
    // never more than the buffer holds or than is there, and short only when the ring is drained
    ensures r.Moved? ==> 0 < r.num <= len && r.num <= |contents|
    ensures r.Moved? && r.num < len ==> r.num == |contents|
  {
    if contents == [] then Failed(Empty)
    else Moved(Min(len, |contents|))
  }
}
