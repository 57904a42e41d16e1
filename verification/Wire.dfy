/** Sizes of the deterministic protobuf encodings: proto3, every tag one byte, defaults omitted. */
module Wire {
  import opened Prelude
  import opened SyncTypes

  const MAX_PROTOBUF_BYTES := 524288

  function VarintSize(n: nat): (size: nat)
    ensures size >= 1
  {
    if n < 128 then 1 else 1 + VarintSize(n / 128)
  }

  function Utf8Length(s: string): nat {
    if s == "" then 0
    else
      var code := s[0] as int;
      (if code < 0x80 then 1 else if code < 0x800 then 2 else if code < 0x10000 then 3 else 4) + Utf8Length(s[1..])
  }

  function NumberField(n: nat): nat {
    if n == 0 then 0 else 1 + VarintSize(n)
  }

  function BoolField(b: bool): nat {
    if b then 2 else 0
  }

  function BytesField(length: nat): nat {
    if length == 0 then 0 else 1 + VarintSize(length) + length
  }

  function StringField(s: string): nat {
    BytesField(Utf8Length(s))
  }

  /** An element of a repeated message field, present even when it encodes to nothing. */
  function MessageField(size: nat): nat {
    1 + VarintSize(size) + size
  }

  function AckSize(a: MutationAck): nat {
    StringField(a.opId) + NumberField(a.serverCursor) + BoolField(a.conflict) + BoolField(a.applied)
  }

  function ChangeSize(c: Change): nat {
    NumberField(c.cursor) + StringField(c.entityKey) + BytesField(|c.valueJson|) + BoolField(c.deleted)
    + StringField(c.deviceId) + NumberField(c.clientTimeMs) + StringField(c.opId)
  }

  function AcksSize(acks: seq<MutationAck>): nat {
    if acks == [] then 0 else AcksSize(acks[..|acks| - 1]) + MessageField(AckSize(acks[|acks| - 1]))
  }

  function ChangesSize(changes: seq<Change>): nat {
    if changes == [] then 0
    else ChangesSize(changes[..|changes| - 1]) + MessageField(ChangeSize(changes[|changes| - 1]))
  }

  function DiffResponseSize(r: DiffResponse): nat {
    AcksSize(r.acks) + ChangesSize(r.canonicalChanges) + StringField(r.baselineId) + NumberField(r.serverCursor)
    + NumberField(r.serverVersion) + NumberField(r.serverUpdatedAtMs) + StringField(r.serverProgressDay)
    + BoolField(r.baselineMismatch)
  }

  function MutationSize(m: Mutation): nat {
    StringField(m.opId) + StringField(m.entityKey) + NumberField(m.baseVersion) + NumberField(m.clientTimeMs)
    + BytesField(|m.valueJson|) + BoolField(m.deleted) + StringField(m.deviceId) + NumberField(m.clientSeq)
  }

  function MutationsSize(ms: seq<Mutation>): nat {
    if ms == [] then 0 else MutationsSize(ms[..|ms| - 1]) + MessageField(MutationSize(ms[|ms| - 1]))
  }

  /** A request that leaves local_progress_day empty; the server does not read that field. */
  function DiffRequestSize(r: DiffRequest): nat {
    StringField(r.deviceId) + MutationsSize(r.mutations) + StringField(r.baselineId) + NumberField(r.localVersion)
    + NumberField(r.localUpdatedAtMs)
  }

  function SyncResponseSize(r: SyncResponse): nat {
    NumberField(r.nextCursor) + AcksSize(r.acks) + ChangesSize(r.changes) + BoolField(r.hasMore)
    + BoolField(r.resetRequired) + StringField(r.baselineId) + NumberField(r.serverVersion)
    + NumberField(r.serverUpdatedAtMs) + StringField(r.serverProgressDay) + BoolField(r.baselineMismatch)
  }
}
