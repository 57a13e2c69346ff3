/** Error numbers, and the command ids and status codes of the Nuki Smart Lock API. */
module Codes {
  const EIO: int := 5
  const EAGAIN: int := 11
  const ENOMEM: int := 12
  const EINVAL: int := 22
  const ENODATA: int := 61
  const EBADMSG: int := 77
  const ETIMEDOUT: int := 116
  const ENOTCONN: int := 128
  const ENOTSUP: int := 134

  const CMD_REQUEST_DATA: bv16 := 0x0001
  const CMD_PUBLIC_KEY: bv16 := 0x0003
  const CMD_CHALLENGE: bv16 := 0x0004
  const CMD_AUTH_AUTHENTICATOR: bv16 := 0x0005
  const CMD_AUTH_DATA: bv16 := 0x0006
  const CMD_AUTH_ID: bv16 := 0x0007
  const CMD_KEYTURNER_STATES: bv16 := 0x000C
  const CMD_LOCK_ACTION: bv16 := 0x000D
  const CMD_STATUS: bv16 := 0x000E
  const CMD_ERROR_REPORT: bv16 := 0x0012
  const CMD_REQUEST_CALIBRATION: bv16 := 0x001A
  const CMD_AUTH_ID_CONFIRMATION: bv16 := 0x001E

  const STATUS_COMPLETE: bv8 := 0
}
