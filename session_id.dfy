/**
 The session identifier of `newSessionID`: a random 64-bit draw with its
 top bit cleared, so that the value fits a signed 64-bit integer as well.
 The random source itself is not part of this model; the draw is a parameter.
 */
module SessionIds {

  /** 2^63, the value of the top bit of a 64-bit word. */
  const TopBit: bv64 := 0x8000_0000_0000_0000

  /** The mask `newSessionID` applies to a random 64-bit draw: the top bit is cleared. */
  function MaskSessionID(id: bv64): (r: bv64)
    ensures r < TopBit
  {
    id & !(1 << 63)
  }

  /** A draw whose top bit is already clear passes the mask unchanged. */
  lemma MaskSessionIDKeepsLowDraw(id: bv64)
    requires id < TopBit
    ensures MaskSessionID(id) == id
  {
  }

  /** A draw with the top bit set loses exactly that bit: the result is the draw modulo 2^63. */
  lemma MaskSessionIDClearsTopBit(id: bv64)
    requires id >= TopBit
    ensures MaskSessionID(id) == id - TopBit
  {
  }
}
