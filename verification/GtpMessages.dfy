/** GTPv2-C message types and sequence numbers (3GPP TS 29.274). */
module GtpMessages {

  type Kind = k: nat | k < 256
  type Xid = x: nat | x < 0x100_0000
  type Sqn = s: nat | s < 0x1_0000_0000

  const CREATE_SESSION_REQUEST: Kind := 32
  const CREATE_SESSION_RESPONSE: Kind := 33
  const MODIFY_BEARER_REQUEST: Kind := 34
  const MODIFY_BEARER_RESPONSE: Kind := 35
  const DELETE_SESSION_REQUEST: Kind := 36
  const DELETE_SESSION_RESPONSE: Kind := 37
  const MODIFY_BEARER_COMMAND: Kind := 64
  const MODIFY_BEARER_FAILURE_INDICATION: Kind := 65
  const DELETE_BEARER_COMMAND: Kind := 66
  const DELETE_BEARER_FAILURE_INDICATION: Kind := 67
  const BEARER_RESOURCE_COMMAND: Kind := 68
  const BEARER_RESOURCE_FAILURE_INDICATION: Kind := 69
  const CREATE_BEARER_REQUEST: Kind := 95
  const CREATE_BEARER_RESPONSE: Kind := 96
  const UPDATE_BEARER_REQUEST: Kind := 97
  const UPDATE_BEARER_RESPONSE: Kind := 98
  const DELETE_BEARER_REQUEST: Kind := 99
  const DELETE_BEARER_RESPONSE: Kind := 100
  const CREATE_INDIRECT_DATA_FORWARDING_TUNNEL_REQUEST: Kind := 166
  const CREATE_INDIRECT_DATA_FORWARDING_TUNNEL_RESPONSE: Kind := 167
  const DELETE_INDIRECT_DATA_FORWARDING_TUNNEL_REQUEST: Kind := 168
  const DELETE_INDIRECT_DATA_FORWARDING_TUNNEL_RESPONSE: Kind := 169
  const RELEASE_ACCESS_BEARERS_REQUEST: Kind := 170
  const RELEASE_ACCESS_BEARERS_RESPONSE: Kind := 171
  const DOWNLINK_DATA_NOTIFICATION: Kind := 176
  const DOWNLINK_DATA_NOTIFICATION_ACKNOWLEDGE: Kind := 177

  const MAX_XACT_ID := 0x80_0000

  datatype Stage = Unknown | Initial | Intermediate | Final

  /** The "command" bit, `xid & GTP_MAX_XACT_ID`. */
  predicate Flagged(xid: Xid) {
    (xid / MAX_XACT_ID) % 2 == 1
  }

  predicate IsInitialKind(kind: Kind) {
    kind in {CREATE_SESSION_REQUEST, MODIFY_BEARER_REQUEST, DELETE_SESSION_REQUEST,
             MODIFY_BEARER_COMMAND, DELETE_BEARER_COMMAND, BEARER_RESOURCE_COMMAND,
             RELEASE_ACCESS_BEARERS_REQUEST, CREATE_INDIRECT_DATA_FORWARDING_TUNNEL_REQUEST,
             DELETE_INDIRECT_DATA_FORWARDING_TUNNEL_REQUEST, DOWNLINK_DATA_NOTIFICATION}
  }

  /** Requests that start an exchange, unless the command bit says they answer a command. */
  predicate IsBearerRequest(kind: Kind) {
    kind in {CREATE_BEARER_REQUEST, UPDATE_BEARER_REQUEST, DELETE_BEARER_REQUEST}
  }

  predicate IsFinalKind(kind: Kind) {
    kind in {CREATE_SESSION_RESPONSE, MODIFY_BEARER_RESPONSE, DELETE_SESSION_RESPONSE,
             MODIFY_BEARER_FAILURE_INDICATION, DELETE_BEARER_FAILURE_INDICATION,
             BEARER_RESOURCE_FAILURE_INDICATION, CREATE_BEARER_RESPONSE, UPDATE_BEARER_RESPONSE,
             DELETE_BEARER_RESPONSE, RELEASE_ACCESS_BEARERS_RESPONSE,
             CREATE_INDIRECT_DATA_FORWARDING_TUNNEL_RESPONSE,
             DELETE_INDIRECT_DATA_FORWARDING_TUNNEL_RESPONSE, DOWNLINK_DATA_NOTIFICATION_ACKNOWLEDGE}
  }

  function StageOf(kind: Kind, xid: Xid): (stage: Stage)
    ensures stage.Intermediate? ==> Flagged(xid)
    ensures kind == 0 ==> stage.Unknown?
  {
    if IsInitialKind(kind) then Initial
    else if IsBearerRequest(kind) then if Flagged(xid) then Intermediate else Initial
    else if IsFinalKind(kind) then Final
    else Unknown
  }

  /** The sequence number field: the identifier in the upper 24 bits, the spare octet zero. */
  function XidToSqn(xid: Xid): (sqn: Sqn)
    ensures SqnToXid(sqn) == xid
  {
    xid * 256
  }

  function SqnToXid(sqn: Sqn): Xid {
    sqn / 256
  }
}
