/** The oblivious PRF that KKRT-PSI and Circuit-PSI share; its protocol is library code. */
module ObliviousPrf {
  import opened Hashing

  /** One function for each bin. */
  type Oprf = (nat, Item) -> Block

  /** What the receiver learns: the mask of each bin's value. */
  function MasksOf(oprf: Oprf, values: seq<Item>): (r: seq<Block>)
    ensures |r| == |values| && forall b :: 0 <= b < |r| ==> r[b] == oprf(b, values[b])
  {
    seq<Block>(|values|, b requires 0 <= b < |values| => oprf(b, values[b]))
  }
}
