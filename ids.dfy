/** Document identifiers. MongoDB ObjectIds are opaque and only ever compared
    for equality; the model numbers the documents of each collection in
    creation order, so an id is the position of its document in the store. */
module Ids {
  type UserId = nat
  type RoomId = nat
  type MessageId = nat
  /** A socket.io connection id. */
  type SocketId = nat
}
