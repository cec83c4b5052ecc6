/** Messages carried by a pearsync channel (pearsync.h:10-13).
    The payload bytes are opaque: only the length and the identity of the
    buffer handle matter to the channel, which transports ownership of it. */
module Messages {

  /** The `data` pointer of a message: NULL or some caller-owned buffer. */
  datatype Handle = Null | Buffer(id: nat)

  datatype Msg = Msg(len: nat, data: Handle)

  /** The sentinel a failed ring shift writes: `len = 0`, `data = NULL`. */
  const Zero: Msg := Msg(0, Null)
}
