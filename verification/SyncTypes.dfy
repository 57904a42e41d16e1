/** Messages and table rows of the synchronisation engine. */
module SyncTypes {
  import opened Prelude

  const MAX_UINT64: nat := 0xFFFF_FFFF_FFFF_FFFF
  const MAX_SAFE_INTEGER: nat := 0x1F_FFFF_FFFF_FFFF
  const MAX_FUTURE_SKEW_MS: nat := 300_000

  newtype Byte = b: int | 0 <= b < 256
  type Uint64 = n: nat | n <= MAX_UINT64

  datatype Mutation = Mutation(
    opId: string, entityKey: string, baseVersion: nat, clientTimeMs: nat,
    valueJson: seq<Byte>, deleted: bool, deviceId: string, clientSeq: nat)

  datatype MutationAck = MutationAck(opId: string, serverCursor: nat, conflict: bool, applied: bool)

  datatype Change = Change(
    cursor: nat, entityKey: string, valueJson: seq<Byte>, deleted: bool,
    deviceId: string, clientTimeMs: nat, opId: string)

  datatype SyncRequest = SyncRequest(
    deviceId: string, cursor: nat, mutations: seq<Mutation>, pullLimit: nat, baselineId: string,
    localVersion: nat, localUpdatedAtMs: nat)

  datatype SyncResponse = SyncResponse(
    nextCursor: nat, acks: seq<MutationAck>, changes: seq<Change>, hasMore: bool, resetRequired: bool,
    baselineId: string, serverVersion: nat, serverUpdatedAtMs: nat, serverProgressDay: string,
    baselineMismatch: bool)

  datatype DiffRequest = DiffRequest(
    deviceId: string, mutations: seq<Mutation>, baselineId: string, localVersion: nat, localUpdatedAtMs: nat)

  datatype DiffResponse = DiffResponse(
    acks: seq<MutationAck>, canonicalChanges: seq<Change>, baselineId: string, serverCursor: nat,
    serverVersion: nat, serverUpdatedAtMs: nat, serverProgressDay: string, baselineMismatch: bool)

  datatype BaselineChoice = Unspecified | ChooseLocal | ChooseServer

  datatype ResolveRequest = ResolveRequest(
    requestId: string, deviceId: string, localBaselineId: string, expectedServerBaselineId: string,
    expectedServerVersion: nat, choice: BaselineChoice, localSnapshot: seq<Mutation>,
    localVersion: nat, localUpdatedAtMs: nat)

  datatype ResolveResponse = ResolveResponse(
    baselineId: string, serverVersion: nat, serverUpdatedAtMs: nat, serverProgressDay: string,
    records: seq<Change>, stale: bool, serverCursor: nat)

  /** A committed response together with the flag that drives the realtime hint. */
  datatype Reply<+R> = Reply(response: R, stateChanged: bool)

  datatype Lineage = Lineage(baselineId: string, version: nat, updatedAtMs: nat, progressDay: string)

  datatype Receipt = Receipt(opId: string, serverCursor: nat, conflict: bool, applied: bool) {
    function Ack(): MutationAck {
      MutationAck(opId, serverCursor, conflict, applied)
    }
  }

  datatype ResolutionReceipt = ResolutionReceipt(
    requestId: string, localBaselineId: string, expectedServerBaselineId: string,
    expectedServerVersion: nat, choice: BaselineChoice, resultBaselineId: string,
    resultCursor: nat, resultVersion: nat, resultUpdatedAtMs: nat)

  datatype ArchiveKey = ArchiveKey(baselineId: string, cursor: nat)
  datatype ArchivedChange = ArchivedChange(change: Change, serverVersion: nat, archivedAtMs: nat)
  datatype ArchiveHead = ArchiveHead(cursor: nat, version: nat, updatedAtMs: nat)

  datatype RealtimeEvent = RealtimeEvent(
    baselineId: string, serverCursor: nat, serverVersion: nat, originConnectionId: string, createdAtMs: nat)

  /** The stored form of a mutation at a cursor. */
  function MutationChange(m: Mutation, cursor: nat, clientTimeMs: nat): Change {
    Change(cursor, m.entityKey, m.valueJson, m.deleted, m.deviceId, clientTimeMs, m.opId)
  }

  /** uint64 arithmetic: the limit wraps when the clock is within the skew of 2^64. */
  function ClampClientTime(value: nat, now: Uint64): (time: nat)
    ensures time <= MAX_UINT64
    ensures now + MAX_FUTURE_SKEW_MS <= MAX_UINT64 ==>
              1 <= time <= now + MAX_FUTURE_SKEW_MS && (1 <= value <= now + MAX_FUTURE_SKEW_MS ==> time == value)
  {
    var limit := (now + MAX_FUTURE_SKEW_MS) % (MAX_UINT64 + 1);
    if value < 1 then 1
    else if value > limit then limit
    else value
  }
}
