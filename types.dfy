/** Basic types shared by the serialization transport model: bytes, 32-bit result
    codes, the result codes the session itself produces, and an Option type. */
module Types {

  /** An unsigned 8-bit value (`uint8_t`). */
  type Byte = bv8

  /** An unsigned 32-bit result code (`uint32_t`), as every operation of the session returns. */
  newtype uint32 = x: int | 0 <= x < 0x1_0000_0000

  /** NRF_SUCCESS. */
  const Success: uint32 := 0

  // The session's own error codes. They are defined in sd_rpc_types.h, which is not part of
  // this model; the values below follow that header (0x8000 base). Nothing proved here depends
  // on the numbers beyond their being distinct from each other and from Success.

  /** NRF_ERROR_SD_RPC_SERIALIZATION_TRANSPORT: generic failure of this layer. */
  const TransportError: uint32 := 0x8000 + 20
  /** NRF_ERROR_SD_RPC_SERIALIZATION_TRANSPORT_INVALID_STATE. */
  const TransportInvalidState: uint32 := 0x8000 + 21
  /** NRF_ERROR_SD_RPC_SERIALIZATION_TRANSPORT_NO_RESPONSE. */
  const TransportNoResponse: uint32 := 0x8000 + 22
  /** NRF_ERROR_SD_RPC_SERIALIZATION_TRANSPORT_ALREADY_OPEN. */
  const TransportAlreadyOpen: uint32 := 0x8000 + 23
  /** NRF_ERROR_SD_RPC_SERIALIZATION_TRANSPORT_ALREADY_CLOSED. */
  const TransportAlreadyClosed: uint32 := 0x8000 + 24

  datatype Option<T> = None | Some(value: T)

  /** Identity of a callback (`std::function`) the application registered. */
  type SinkId = nat
}
