/**
  Value types of the reliable-messaging core: sessions, commands, messages,
  deliveries, outbox events and the tuning parameters.  Every identifier is a
  64-bit unsigned number in the program; here it is a `nat`.
*/
module Domain {

  datatype Option<+T> = None | Some(value: T)

  /** A user's login; a later login of the same user carries a larger generation. */
  datatype Session = Session(user: nat, generation: nat)

  const NO_SESSION := Session(0, 0)

  datatype Kind = Direct | Group

  datatype Command = Command(
    clientId: string, kind: Kind, directRecipient: nat, groupId: nat,
    members: seq<nat>, content: string)

  datatype Message = Message(
    id: nat, conversation: nat, sequence: nat, sender: nat,
    command: Command, acceptedAt: int)

  datatype DeliveryState = Pending | InFlight | Acknowledged | Expired

  /** The identity of a delivery: one message owed to one recipient. */
  datatype Key = Key(message: nat, recipient: nat)

  datatype Delivery = Delivery(
    messageId: nat, conversation: nat, sequence: nat, recipient: nat,
    state: DeliveryState, leaseOwner: Session, leaseBoot: nat, leaseUntil: int,
    attempts: nat, acknowledgedAt: int, expiresAt: int,
    lastSentAt: int, nextAttemptAt: int)
  {
    function Id(): Key {
      Key(messageId, recipient)
    }

    /** Neither acknowledged nor expired: the obligation is still open. */
    predicate Live() {
      state == Pending || state == InFlight
    }

    predicate InLane(user: nat, conv: nat) {
      recipient == user && conversation == conv
    }
  }

  datatype OutboxPayload = DirectPayload(recipient: nat) | GroupPayload(groupId: nat, members: seq<nat>)

  datatype OutboxEvent = OutboxEvent(
    id: nat, aggregate: nat, payload: OutboxPayload, availableAt: int,
    leaseOwner: string, leaseUntil: int, attempts: nat, processedAt: int)

  /** RetryConfig together with the lease length handed to the coordinator. */
  datatype Config = Config(
    leaseMs: int, ackTimeoutMs: int,
    backoffBaseMs: int, backoffCapMs: int, backoffMultiplier: int, jitterFraction: real,
    messageRetentionMs: int, ackedRetentionMs: int, expiredRetentionMs: int,
    cleanupBatch: nat, cleanupCycleMs: int, retryBatchLimit: nat)
  {
    /** The ranges the configuration loader enforces, and a lease that lasts. */
    predicate Valid() {
      && leaseMs > 0 && ackTimeoutMs > 0
      && backoffBaseMs > 0 && backoffCapMs > 0 && backoffMultiplier > 0
    }
  }

  /** A message without a client id is accepted under a generated "legacy:" id. */
  predicate IsLegacy(clientId: string) {
    |clientId| >= 7 && clientId[..7] == "legacy:"
  }

  function RecipientsFor(cmd: Command): seq<nat> {
    if cmd.kind == Direct then [cmd.directRecipient] else cmd.members
  }

  function PayloadOf(cmd: Command): OutboxPayload {
    if cmd.kind == Direct then DirectPayload(cmd.directRecipient) else GroupPayload(cmd.groupId, cmd.members)
  }

  /** Same intent under one idempotency key: the fields of the unused kind are ignored. */
  predicate SamePayload(a: Command, b: Command) {
    && a.kind == b.kind && a.content == b.content && a.clientId == b.clientId
    && (if a.kind == Direct then a.directRecipient == b.directRecipient
        else a.groupId == b.groupId && a.members == b.members)
  }

  predicate SessionLess(a: Session, b: Session) {
    a.user < b.user || (a.user == b.user && a.generation < b.generation)
  }

  predicate KeyLess(a: Key, b: Key) {
    a.message < b.message || (a.message == b.message && a.recipient < b.recipient)
  }
}
