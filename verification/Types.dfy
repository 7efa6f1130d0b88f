/** Values shared by every part of the node. */
module Types {

  datatype Option<+T> = None | Some(value: T)

  // Identities of the network libraries; only equality on them matters here.
  datatype PeerId = PeerId(id: nat)
  datatype Cid = Cid(digest: nat)

  newtype byte = x: int | 0 <= x < 0x100
  type Bytes = seq<byte>

  datatype Block = Block(cid: Cid, data: Bytes)

  // One entry of the want list: this peer asked for this block.
  type Want = (PeerId, Cid)

  const U64_RANGE: int := 0x1_0000_0000_0000_0000

  type u64 = x: int | 0 <= x < U64_RANGE

  // What the streamer announces for one video segment.
  datatype Message = Message(count: u64, timestamp: u64, cids: seq<Cid>)

  /** Subtraction on `u64` in a release build: it wraps instead of panicking. */
  function WrappingSub(a: int, b: int): (r: u64)
    ensures 0 <= b <= a < 0x1_0000_0000_0000_0000 ==> r == a - b
    ensures 0 <= a < b < 0x1_0000_0000_0000_0000 ==> r == a - b + 0x1_0000_0000_0000_0000
  {
    (a - b) % U64_RANGE
  }
}
