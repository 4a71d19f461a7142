/**
  The `ConnectionManager`: an in-memory map from a user-id string to the
  live connection registered under it. Sending is modelled by appending the
  (connection, text) pair to an outbox, so "who received what, in which
  order" is part of the state.
 */
module Connections {

  /** An open websocket, identified only by its identity. */
  datatype Handle = Handle(socket: nat)

  type Registry = map<string, Handle>

  /** One text frame sent over a connection. */
  datatype Delivery = Delivery(handle: Handle, text: string)

  type Outbox = seq<Delivery>

  /** `connect`: registers the handle, replacing any earlier one for that id. */
  function Connect(registry: Registry, userId: string, handle: Handle): (r: Registry)
    ensures userId in r && r[userId] == handle
    ensures r.Keys == registry.Keys + {userId}
    ensures forall k :: k in registry && k != userId ==> r[k] == registry[k]
  {
    registry[userId := handle]
  }

  /** `disconnect`: forgets the entry for the id if there is one. */
  function Disconnect(registry: Registry, userId: string): (r: Registry)
    ensures r.Keys == registry.Keys - {userId}
    ensures forall k :: k in r ==> r[k] == registry[k]
  {
    if userId in registry then registry - {userId} else registry
  }

  /** `send_personal_message`: sends over the registered handle if there is
      one, and otherwise does nothing and reports nothing. */
  function SendPersonalMessage(registry: Registry, outbox: Outbox, message: string, userId: string): (r: Outbox)
    ensures |r| == |outbox| + 1 <==> userId in registry
    ensures |r| == |outbox| <==> userId !in registry
    ensures r[..|outbox|] == outbox
    ensures forall i :: |outbox| <= i < |r| ==> r[i] == Delivery(registry[userId], message)
  {
    if userId in registry then outbox + [Delivery(registry[userId], message)] else outbox
  }

  /** A later `connect` for the same id wins: sends reach only the newest handle. */
  lemma NewestHandleWins(registry: Registry, outbox: Outbox, userId: string, older: Handle, newer: Handle, message: string)
    ensures SendPersonalMessage(Connect(Connect(registry, userId, older), userId, newer), outbox, message, userId)
            == outbox + [Delivery(newer, message)]
  {
  }

  /** Registering one id changes nothing for sends to any other id. */
  lemma ConnectIsolated(registry: Registry, outbox: Outbox, userId: string, handle: Handle, other: string, message: string)
    requires other != userId
    ensures SendPersonalMessage(Connect(registry, userId, handle), outbox, message, other)
            == SendPersonalMessage(registry, outbox, message, other)
  {
  }

  /** After `disconnect` a send to that id delivers nothing. */
  lemma DisconnectedReceivesNothing(registry: Registry, outbox: Outbox, userId: string, message: string)
    ensures SendPersonalMessage(Disconnect(registry, userId), outbox, message, userId) == outbox
  {
  }

  /** `disconnect` of an id that is not registered changes nothing, and a
      second `disconnect` is a no-op. */
  lemma DisconnectAbsentIsNoop(registry: Registry, userId: string)
    ensures userId !in registry ==> Disconnect(registry, userId) == registry
    ensures Disconnect(Disconnect(registry, userId), userId) == Disconnect(registry, userId)
  {
  }

  /** `connect` then `disconnect` of a fresh id leaves the registry as it was. */
  lemma ConnectDisconnectRoundTrip(registry: Registry, userId: string, handle: Handle)
    requires userId !in registry
    ensures Disconnect(Connect(registry, userId, handle), userId) == registry
  {
  }
}
