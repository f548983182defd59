/** Rows of the transactional outbox. */
module Outbox {
  datatype Kind = IngestAccepted(row: nat) | SafetyCreated(event: nat) | Unknown

  datatype Status = Pending | Processing | Done | DeadLetter

  datatype OutboxEvent = OutboxEvent(kind: Kind, status: Status, attempts: nat, nextAttemptAt: int)

  function Published(kind: Kind, now: int): OutboxEvent {
    OutboxEvent(kind, Pending, 0, now)
  }
}
