/** Constants and small shared types of the chat endpoint (common.h). */
module Common {

  /** Size of the receive buffer of a peer's receiver loop. */
  const BUFFER_SIZE: int := 1024
  /** Longest message the send command accepts. */
  const MAX_MESSAGE_LENGTH: int := 100
  /** Number of slots in the connection table. */
  const MAX_CONNECTIONS: int := 50
  /** Size of the textual IPv4 field of a connection, terminator included. */
  const INET_ADDRSTRLEN: int := 16

  /** A socket descriptor; its I/O is modelled by the callers' parameters. */
  type Handle = int
  /** The identity of a receiver thread. */
  type ThreadId = int

  datatype Option<T> = None | Some(value: T)

  /** Whether a loop goes round once more or leaves. */
  datatype Loop = Continue | Stop
}
