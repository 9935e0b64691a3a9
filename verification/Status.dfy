/** Status codes (include/pus/pus_types.h). Their numbers travel in failure reports. */
module Status {
  import opened Octets

  datatype Status =
    | Ok
    | Null
    | BufferTooSmall
    | Truncated
    | BadVersion
    | BadPacketType
    | NoSecHeader
    | BadApid
    | BadCrc
    | UnknownService
    | UnknownSubtype
    | BadLength
    | BadParameter
    | UnknownSid
    | UnknownEvent
    | UnknownFunction
    | QueueFull
    | NotPermitted
  {
    function Code(): u16 {
      match this
      case Ok => 0
      case Null => 1
      case BufferTooSmall => 2
      case Truncated => 3
      case BadVersion => 4
      case BadPacketType => 5
      case NoSecHeader => 6
      case BadApid => 7
      case BadCrc => 8
      case UnknownService => 9
      case UnknownSubtype => 10
      case BadLength => 11
      case BadParameter => 12
      case UnknownSid => 13
      case UnknownEvent => 14
      case UnknownFunction => 15
      case QueueFull => 16
      case NotPermitted => 17
    }
  }
}
