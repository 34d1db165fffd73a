/** The rows of the `outbox` table, queued by the event log and settled by the exporter. */
module Outbox {
  import opened Outcomes

  datatype OutboxState = Pending | Exported | Failed

  datatype ExportError = EventMissing | DecodeError | NotAnObject | IoError

  datatype OutboxRow = OutboxRow(
    id: nat, eventId: nat, kind: string, state: OutboxState, attempts: nat,
    exportedAt: Option<string>, error: Option<ExportError>)

  const JSONL := "jsonl"

  /** A row as it is queued. */
  function Queued(id: nat, eventId: nat): OutboxRow {
    OutboxRow(id, eventId, JSONL, Pending, 0, None, None)
  }
}
