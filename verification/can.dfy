/** CAN frames as the firmware fills them: an identifier, a length and eight data bytes. */
module CanFrames {
  import opened CTypes

  datatype Frame = Frame(id: nat, dlc: nat, data: seq<uint8>)

  /** Every frame the firmware builds carries eight data bytes. */
  predicate WellFormed(f: Frame) {
    |f.data| == 8
  }
}
