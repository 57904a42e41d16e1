/** The encodings behind the sizes: varints, UTF-8, UTF-16 and the protobuf messages, as byte sequences. */
module Encoding {
  import opened Prelude
  import opened SyncTypes
  import opened Validation
  import opened Wire

  type Bytes = seq<nat>

  // ----- varints -----

  /** Seven bits a byte, the least significant first; every byte but the last has its top bit set. */
  function Varint(n: nat): Bytes {
    if n < 128 then [n] else [128 + n % 128] + Varint(n / 128)
  }

  lemma {:induction false} VarintLength(n: nat)
    ensures |Varint(n)| == VarintSize(n)
  {
    if n >= 128 { VarintLength(n / 128); }
  }

  /** The number at the front of some bytes, and the bytes after it. */
  function ReadVarint(bytes: Bytes): Option<(nat, Bytes)> {
    if bytes == [] then None
    else if bytes[0] < 128 then Some((bytes[0], bytes[1..]))
    else
      var rest := ReadVarint(bytes[1..]);
      if rest.None? then None else Some((bytes[0] - 128 + 128 * rest.value.0, rest.value.1))
  }

  lemma {:induction false} VarintRoundTrip(n: nat, rest: Bytes)
    ensures ReadVarint(Varint(n) + rest) == Some((n, rest))
  {
    var bytes := Varint(n) + rest;
    if n < 128 {
      assert bytes[1..] == rest;
    } else {
      assert bytes[1..] == Varint(n / 128) + rest;
      VarintRoundTrip(n / 128, rest);
    }
  }

  // ----- UTF-8 -----

  function EncodeChar(c: char): Bytes {
    var n := c as int;
    if n < 0x80 then [n]
    else if n < 0x800 then [0xC0 + n / 0x40, 0x80 + n % 0x40]
    else if n < 0x1_0000 then [0xE0 + n / 0x1000, 0x80 + n / 0x40 % 0x40, 0x80 + n % 0x40]
    else [0xF0 + n / 0x4_0000, 0x80 + n / 0x1000 % 0x40, 0x80 + n / 0x40 % 0x40, 0x80 + n % 0x40]
  }

  function Utf8(s: string): Bytes {
    if s == "" then [] else EncodeChar(s[0]) + Utf8(s[1..])
  }

  lemma {:induction false} Utf8Lengths(s: string)
    ensures |Utf8(s)| == Utf8Length(s)
  {
    if s != "" { Utf8Lengths(s[1..]); }
  }

  /** The code point at the front of well-formed bytes, and how many bytes it takes. */
  function ReadCodePoint(bytes: Bytes): (int, nat)
    requires bytes != []
  {
    var lead: int := bytes[0];
    if lead < 0xC0 || |bytes| < 2 then (lead, 1)
    else
      var second: int := bytes[1];
      if lead < 0xE0 || |bytes| < 3 then ((lead - 0xC0) * 0x40 + second - 0x80, 2)
      else
        var third: int := bytes[2];
        if lead < 0xF0 || |bytes| < 4 then ((lead - 0xE0) * 0x1000 + (second - 0x80) * 0x40 + third - 0x80, 3)
        else
          var fourth: int := bytes[3];
          ((lead - 0xF0) * 0x4_0000 + (second - 0x80) * 0x1000 + (third - 0x80) * 0x40 + fourth - 0x80, 4)
  }

  lemma CharRoundTrip(c: char, rest: Bytes)
    ensures ReadCodePoint(EncodeChar(c) + rest) == (c as int, |EncodeChar(c)|)
  {
    var n := c as int;
    assert n == n / 0x40 * 0x40 + n % 0x40;
    assert n / 0x40 == n / 0x40 / 0x40 * 0x40 + n / 0x40 % 0x40;
    assert n / 0x1000 == n / 0x40 / 0x40;
    assert n / 0x1000 == n / 0x1000 / 0x40 * 0x40 + n / 0x1000 % 0x40;
    assert n / 0x4_0000 == n / 0x1000 / 0x40;
  }

  /** Distinct strings have distinct encodings. */
  lemma {:induction false} Utf8IsInjective(s: string, t: string)
    requires Utf8(s) == Utf8(t)
    ensures s == t
  {
    if s != "" && t != "" {
      CharRoundTrip(s[0], Utf8(s[1..]));
      CharRoundTrip(t[0], Utf8(t[1..]));
      assert s[0] == t[0];
      assert Utf8(s[1..]) == Utf8(s)[|EncodeChar(s[0])|..] && Utf8(t[1..]) == Utf8(t)[|EncodeChar(t[0])|..];
      Utf8IsInjective(s[1..], t[1..]);
      assert s == [s[0]] + s[1..] && t == [t[0]] + t[1..];
    }
  }

  // ----- UTF-16 -----

  /** One code unit, or a surrogate pair. */
  function Units(c: char): seq<nat> {
    var n := c as int;
    if n < 0x1_0000 then [n] else [0xD800 + (n - 0x1_0000) / 0x400, 0xDC00 + (n - 0x1_0000) % 0x400]
  }

  function Utf16(s: string): seq<nat> {
    if s == "" then [] else Units(s[0]) + Utf16(s[1..])
  }

  lemma {:induction false} Utf16Lengths(s: string)
    ensures |Utf16(s)| == Utf16Length(s)
  {
    if s != "" { Utf16Lengths(s[1..]); }
  }

  /** A pair is told from single units by its surrogates, and gives its character back. */
  lemma UnitsRoundTrip(c: char)
    ensures var units := Units(c);
            if 0xD800 <= units[0] < 0xDC00 then
              |units| == 2 && 0xDC00 <= units[1] < 0xE000
              && c as int == 0x1_0000 + (units[0] - 0xD800) * 0x400 + (units[1] - 0xDC00)
            else units == [c as int]
  {}

  // ----- protobuf fields -----

  /** A field number and a wire type: 0 for a varint, 2 for a length-delimited field. */
  function Tag(field: nat, wireType: nat): nat {
    8 * field + wireType
  }

  function NumberBytes(field: nat, n: nat): (bytes: Bytes)
    ensures |bytes| == NumberField(n)
  {
    VarintLength(n);
    if n == 0 then [] else [Tag(field, 0)] + Varint(n)
  }

  function BoolBytes(field: nat, b: bool): (bytes: Bytes)
    ensures |bytes| == BoolField(b)
  {
    if b then [Tag(field, 0), 1] else []
  }

  function RawBytes(field: nat, raw: Bytes): (bytes: Bytes)
    ensures |bytes| == BytesField(|raw|)
  {
    VarintLength(|raw|);
    if raw == [] then [] else [Tag(field, 2)] + Varint(|raw|) + raw
  }

  function StringBytes(field: nat, s: string): (bytes: Bytes)
    ensures |bytes| == StringField(s)
  {
    Utf8Lengths(s);
    RawBytes(field, Utf8(s))
  }

  /** An element of a repeated message field, written even when the message is empty. */
  function MessageBytes(field: nat, message: Bytes): (bytes: Bytes)
    ensures |bytes| == MessageField(|message|)
  {
    VarintLength(|message|);
    [Tag(field, 2)] + Varint(|message|) + message
  }

  function Plain(value: seq<Byte>): (bytes: Bytes)
    ensures |bytes| == |value|
  {
    seq(|value|, i requires 0 <= i < |value| => value[i] as nat)
  }

  // ----- messages: the sizes are the lengths of the encodings -----

  function EncodeMutation(m: Mutation): (bytes: Bytes)
    ensures |bytes| == MutationSize(m)
  {
    StringBytes(1, m.opId) + StringBytes(2, m.entityKey) + NumberBytes(3, m.baseVersion)
          + NumberBytes(4, m.clientTimeMs)
    + RawBytes(5, Plain(m.valueJson)) + BoolBytes(6, m.deleted) + StringBytes(7, m.deviceId)
          + NumberBytes(8, m.clientSeq)
  }

  function EncodeAck(a: MutationAck): (bytes: Bytes)
    ensures |bytes| == AckSize(a)
  {
    StringBytes(1, a.opId) + NumberBytes(2, a.serverCursor) + BoolBytes(3, a.conflict) + BoolBytes(4, a.applied)
  }

  function EncodeChange(c: Change): (bytes: Bytes)
    ensures |bytes| == ChangeSize(c)
  {
    NumberBytes(1, c.cursor) + StringBytes(2, c.entityKey) + RawBytes(3, Plain(c.valueJson)) + BoolBytes(4, c.deleted)
    + StringBytes(5, c.deviceId) + NumberBytes(6, c.clientTimeMs) + StringBytes(7, c.opId)
  }

  function EncodeMutations(field: nat, ms: seq<Mutation>): (bytes: Bytes)
    ensures |bytes| == MutationsSize(ms)
  {
    if ms == [] then []
    else EncodeMutations(field, ms[..|ms| - 1]) + MessageBytes(field, EncodeMutation(ms[|ms| - 1]))
  }

  function EncodeAcks(field: nat, acks: seq<MutationAck>): (bytes: Bytes)
    ensures |bytes| == AcksSize(acks)
  {
    if acks == [] then []
    else EncodeAcks(field, acks[..|acks| - 1]) + MessageBytes(field, EncodeAck(acks[|acks| - 1]))
  }

  function EncodeChanges(field: nat, changes: seq<Change>): (bytes: Bytes)
    ensures |bytes| == ChangesSize(changes)
  {
    if changes == [] then []
    else EncodeChanges(field, changes[..|changes| - 1]) + MessageBytes(field, EncodeChange(changes[|changes| - 1]))
  }

  function EncodeDiffRequest(r: DiffRequest): (bytes: Bytes)
    ensures |bytes| == DiffRequestSize(r)
  {
    StringBytes(1, r.deviceId) + EncodeMutations(2, r.mutations) + StringBytes(3, r.baselineId)
    + NumberBytes(4, r.localVersion) + NumberBytes(5, r.localUpdatedAtMs)
  }

  function EncodeDiffResponse(r: DiffResponse): (bytes: Bytes)
    ensures |bytes| == DiffResponseSize(r)
  {
    EncodeAcks(1, r.acks) + EncodeChanges(2, r.canonicalChanges) + StringBytes(3, r.baselineId)
    + NumberBytes(4, r.serverCursor) + NumberBytes(5, r.serverVersion) + NumberBytes(6, r.serverUpdatedAtMs)
    + StringBytes(7, r.serverProgressDay) + BoolBytes(8, r.baselineMismatch)
  }

  function EncodeSyncResponse(r: SyncResponse): (bytes: Bytes)
    ensures |bytes| == SyncResponseSize(r)
  {
    NumberBytes(1, r.nextCursor) + EncodeAcks(2, r.acks) + EncodeChanges(3, r.changes) + BoolBytes(4, r.hasMore)
    + BoolBytes(5, r.resetRequired) + StringBytes(6, r.baselineId) + NumberBytes(7, r.serverVersion)
    + NumberBytes(8, r.serverUpdatedAtMs) + StringBytes(9, r.serverProgressDay) + BoolBytes(10, r.baselineMismatch)
  }
}
