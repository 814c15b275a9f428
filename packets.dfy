/**
 * The packets a user object hands to its two outbound services: client
 * packets given to World::sendPacket and database records given to
 * DbAgent::sendPacket. Both services are fire-and-forget, so a call to
 * either is modelled as one entry appended to an output log.
 */
module Packets {

  /** One byte of a packet or record; the notice message and an item's craftname are sequences of these. */
  newtype uint8 = x: int | 0 <= x < 0x100

  /** An unsigned 16-bit integer. */
  newtype uint16 = x: int | 0 <= x < 0x1_0000

  /** Capacity of the Notice packet's message buffer, in bytes. */
  const NoticeCapacity: nat := 128

  /** Bytes that precede the message of a Notice on the wire; how these 3 bytes split into fields is not shown. */
  const NoticeHeaderSize: nat := 3

  /** Packets sent to the game client of a user. */
  datatype ClientPacket =
    | Notice(length: nat, message: seq<uint8>)
    | AccountPoints(points: int)

  /** How many bytes of a packet struct are handed to the send call. */
  datatype PacketLength =
    | Prefix(bytes: nat)  // an explicit byte count
    | WholeStruct         // sizeof the struct

  /** Records sent to the database agent. */
  datatype DbRecord =
    | ItemLapisUpdate(userId: int, bag: int, slot: int, lapis: seq<int>, money: int)
    | ItemCraftnameUpdate(userId: int, bag: int, slot: int, craftname: seq<uint8>)

  /** One call into an outbound service. */
  datatype Sent =
    | ToUser(packet: ClientPacket, length: PacketLength)
    | ToDbAgent(record: DbRecord)

  /** The text a client reads from a notice: the first `length` bytes of its buffer. */
  function NoticeText(notice: ClientPacket): seq<uint8>
    requires notice.Notice? && notice.length <= |notice.message|
  {
    notice.message[..notice.length]
  }

  /**
   * The Notice struct as the user fills it: zero-initialised, its length
   * field set to the message length, and the message copied to the front
   * of the buffer. The copy does not check the buffer's capacity, so the
   * message must fit.
   */
  function NoticeFor(message: seq<uint8>): (notice: ClientPacket)
    requires |message| <= NoticeCapacity
    ensures notice.Notice? && notice.length == |message|
    ensures |notice.message| == NoticeCapacity
    ensures NoticeText(notice) == message
    ensures forall i :: |message| <= i < NoticeCapacity ==> notice.message[i] == 0
  {
    Notice(|message|, message + seq(NoticeCapacity - |message|, _ => 0))
  }
}
