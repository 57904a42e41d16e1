/** Request validation: id patterns, safe integers and size limits. */
module Validation {
  import opened Prelude
  import opened SyncTypes

  const MAX_MUTATIONS := 200
  const MAX_RESOLUTION_RECORDS := 768
  const MAX_VALUE_JSON_BYTES := 131072
  const MAX_ENTITY_KEY_UTF16 := 512
  const DEFAULT_PULL_LIMIT := 128
  const MAX_PULL_LIMIT := 256
  const ENTITY_PREFIX := "stella/v1/"
  const BASELINE_PREFIX := "baseline_"

  predicate LowerHex(c: char) {
    'a' <= c <= 'f' || '0' <= c <= '9'
  }

  predicate IdChar(c: char) {
    'A' <= c <= 'Z' || 'a' <= c <= 'z' || '0' <= c <= '9' || c == '_' || c == '-'
  }

  predicate AllIdChars(s: string) {
    forall i :: 0 <= i < |s| ==> IdChar(s[i])
  }

  predicate AllLowerHex(s: string) {
    forall i :: 0 <= i < |s| ==> LowerHex(s[i])
  }

  predicate IsBaselineId(s: string) {
    |s| == 41 && BASELINE_PREFIX <= s && AllLowerHex(s[9..])
  }

  predicate IsDeviceId(s: string) {
    8 <= |s| <= 128 && AllIdChars(s)
  }

  predicate IsRequestId(s: string) {
    12 <= |s| <= 128 && AllIdChars(s)
  }

  predicate IsOwnerKey(s: string) {
    |s| == 64 && AllLowerHex(s)
  }

  function Utf16Length(s: string): nat {
    if s == "" then 0 else (if s[0] as int < 0x10000 then 1 else 2) + Utf16Length(s[1..])
  }

  predicate SafeNumbers(m: Mutation) {
    m.baseVersion <= MAX_SAFE_INTEGER && m.clientTimeMs <= MAX_SAFE_INTEGER && m.clientSeq <= MAX_SAFE_INTEGER
  }

  function ValidateMutation(m: Mutation, requestDeviceId: string): Check {
    if !IsDeviceId(m.opId) then
      Fail(InvalidArgument("invalid mutation op_id"))
    else if !(ENTITY_PREFIX <= m.entityKey) || Utf16Length(m.entityKey) > MAX_ENTITY_KEY_UTF16 then
      Fail(InvalidArgument("invalid mutation entity_key"))
    else if m.deviceId != requestDeviceId then
      Fail(InvalidArgument("mutation device_id mismatch"))
    else if |m.valueJson| > MAX_VALUE_JSON_BYTES then
      Fail(InvalidArgument("mutation value is too large"))
    else if !SafeNumbers(m) then
      Fail(InvalidArgument("protobuf uint64 exceeds JavaScript safe integer range"))
    else
      Pass
  }

  /**
   * A mutation is accepted iff its op_id has the form of a device id, its key is under stella/v1/ and no longer
   * than 512 UTF-16 code units, it comes from the request's device, its value is at most 128 KiB, and its
   * numbers are JavaScript safe integers.
   */
  lemma AcceptedMutation(m: Mutation, deviceId: string)
    ensures ValidateMutation(m, deviceId).Pass? <==>
              && 8 <= |m.opId| <= 128 && AllIdChars(m.opId)
              && |m.entityKey| >= 10 && m.entityKey[..10] == "stella/v1/" && Utf16Length(m.entityKey) <= 512
              && m.deviceId == deviceId
              && |m.valueJson| <= 131072
              && m.baseVersion < 0x20_0000_0000_0000 && m.clientTimeMs < 0x20_0000_0000_0000
              && m.clientSeq < 0x20_0000_0000_0000
    ensures ValidateMutation(m, deviceId).Fail? ==> ValidateMutation(m, deviceId).error.InvalidArgument?
  {}

  /** Which exchanges, diffs and resolutions get past validation; the mutations' contents are checked later. */
  lemma AcceptedRequests(ownerKey: string, sync: SyncRequest, diff: DiffRequest, resolve: ResolveRequest)
    ensures ValidateExchange(ownerKey, sync).Pass? <==>
              && IsOwnerKey(ownerKey) && IsDeviceId(sync.deviceId) && IsBaselineId(sync.baselineId)
              && |sync.mutations| <= 200 && (forall i :: 0 <= i < |sync.mutations| ==> SafeNumbers(sync.mutations[i]))
              && sync.cursor < 0x20_0000_0000_0000 && sync.localVersion < 0x20_0000_0000_0000
              && sync.localUpdatedAtMs < 0x20_0000_0000_0000
    ensures ValidateDiff(ownerKey, diff).Pass? <==>
              && IsOwnerKey(ownerKey) && IsDeviceId(diff.deviceId) && IsBaselineId(diff.baselineId)
              && |diff.mutations| <= 200 && (forall i :: 0 <= i < |diff.mutations| ==> SafeNumbers(diff.mutations[i]))
              && diff.localVersion < 0x20_0000_0000_0000 && diff.localUpdatedAtMs < 0x20_0000_0000_0000
    ensures ValidateResolve(ownerKey, resolve).Pass? <==>
              && IsOwnerKey(ownerKey) && IsDeviceId(resolve.deviceId) && IsBaselineId(resolve.localBaselineId)
              && IsBaselineId(resolve.expectedServerBaselineId) && IsRequestId(resolve.requestId)
              && resolve.choice in {ChooseLocal, ChooseServer}
              && |resolve.localSnapshot| <= 768
              && (forall i :: 0 <= i < |resolve.localSnapshot| ==> SafeNumbers(resolve.localSnapshot[i]))
              && resolve.expectedServerVersion < 0x20_0000_0000_0000 && resolve.localVersion < 0x20_0000_0000_0000
              && resolve.localUpdatedAtMs < 0x20_0000_0000_0000
  {
    hide IsOwnerKey, IsDeviceId, IsBaselineId, IsRequestId, SafeNumbers;
  }

  function ValidateMutationNumbers(ms: seq<Mutation>): Check {
    if exists i :: 0 <= i < |ms| && !SafeNumbers(ms[i]) then
      Fail(InvalidArgument("protobuf uint64 exceeds JavaScript safe integer range"))
    else
      Pass
  }

  function ValidateCommon(ownerKey: string, deviceId: string): Check {
    if !IsOwnerKey(ownerKey) then Fail(InvalidArgument("invalid owner_key"))
    else if !IsDeviceId(deviceId) then Fail(InvalidArgument("invalid device_id"))
    else Pass
  }

  function ValidateExchange(ownerKey: string, request: SyncRequest): Check {
    var common := ValidateCommon(ownerKey, request.deviceId);
    if common.Fail? then common
    else if !IsBaselineId(request.baselineId) then Fail(InvalidArgument("invalid baseline_id"))
    else if |request.mutations| > MAX_MUTATIONS then Fail(InvalidArgument("too many mutations"))
    else if request.cursor > MAX_SAFE_INTEGER || request.localVersion > MAX_SAFE_INTEGER
            || request.localUpdatedAtMs > MAX_SAFE_INTEGER then
      Fail(InvalidArgument("protobuf uint64 exceeds JavaScript safe integer range"))
    else ValidateMutationNumbers(request.mutations)
  }

  function ValidateDiff(ownerKey: string, request: DiffRequest): Check {
    var common := ValidateCommon(ownerKey, request.deviceId);
    if common.Fail? then common
    else if !IsBaselineId(request.baselineId) then Fail(InvalidArgument("invalid baseline_id"))
    else if |request.mutations| > MAX_MUTATIONS then Fail(InvalidArgument("too many mutations"))
    else if request.localVersion > MAX_SAFE_INTEGER || request.localUpdatedAtMs > MAX_SAFE_INTEGER then
      Fail(InvalidArgument("protobuf uint64 exceeds JavaScript safe integer range"))
    else ValidateMutationNumbers(request.mutations)
  }

  function ValidateResolve(ownerKey: string, request: ResolveRequest): Check {
    var common := ValidateCommon(ownerKey, request.deviceId);
    if common.Fail? then common
    else if !IsBaselineId(request.localBaselineId) then Fail(InvalidArgument("invalid local_baseline_id"))
    else if !IsBaselineId(request.expectedServerBaselineId) then
      Fail(InvalidArgument("invalid expected_server_baseline_id"))
    else if !IsRequestId(request.requestId) then Fail(InvalidArgument("invalid request_id"))
    else if request.choice == Unspecified then Fail(InvalidArgument("invalid baseline choice"))
    else if |request.localSnapshot| > MAX_RESOLUTION_RECORDS then
      Fail(InvalidArgument("snapshot has too many records"))
    else if request.expectedServerVersion > MAX_SAFE_INTEGER || request.localVersion > MAX_SAFE_INTEGER
            || request.localUpdatedAtMs > MAX_SAFE_INTEGER then
      Fail(InvalidArgument("protobuf uint64 exceeds JavaScript safe integer range"))
    else ValidateMutationNumbers(request.localSnapshot)
  }

  function Keys(ms: seq<Mutation>): set<string> {
    set i | 0 <= i < |ms| :: ms[i].entityKey
  }

  predicate DistinctKeys(ms: seq<Mutation>) {
    forall i, j :: 0 <= i < j < |ms| ==> ms[i].entityKey != ms[j].entityKey
  }

  predicate AllValid(ms: seq<Mutation>, deviceId: string) {
    forall i :: 0 <= i < |ms| ==> ValidateMutation(ms[i], deviceId).Pass?
  }

  /** The first offence in the snapshot, mutation by mutation. */
  function CheckSnapshot(ms: seq<Mutation>, deviceId: string): Check {
    if ms == [] then
      Pass
    else
      var init, last := ms[..|ms| - 1], ms[|ms| - 1];
      var before := CheckSnapshot(init, deviceId);
      if before.Fail? then before
      else
        var valid := ValidateMutation(last, deviceId);
        if valid.Fail? then valid
        else if last.entityKey in Keys(init) then Fail(InvalidArgument("snapshot contains duplicate entity_key"))
        else Pass
  }

  lemma {:induction false} CheckSnapshotError(ms: seq<Mutation>, i: nat, deviceId: string)
    requires i <= |ms| && CheckSnapshot(ms[..i], deviceId).Fail?
    ensures CheckSnapshot(ms, deviceId) == CheckSnapshot(ms[..i], deviceId)
    decreases |ms| - i
  {
    if i < |ms| {
      assert ms[..i + 1][..i] == ms[..i];
      CheckSnapshotError(ms, i + 1, deviceId);
    } else {
      assert ms[..i] == ms;
    }
  }

  /** The loop over a seen set accepts exactly the valid snapshots without a repeated key. */
  method ValidateLocalSnapshot(request: ResolveRequest) returns (check: Check)
    ensures check == CheckSnapshot(request.localSnapshot, request.deviceId)
    ensures check.Pass? <==> AllValid(request.localSnapshot, request.deviceId) && DistinctKeys(request.localSnapshot)
  {
    var ms := request.localSnapshot;
    var seen: set<string> := {};
    CheckSnapshotMeaning(ms, request.deviceId);
    for i := 0 to |ms|
      invariant seen == Keys(ms[..i])
      invariant CheckSnapshot(ms[..i], request.deviceId).Pass?
    {
      assert ms[..i + 1][..i] == ms[..i];
      var valid := ValidateMutation(ms[i], request.deviceId);
      if valid.Fail? || ms[i].entityKey in seen {
        CheckSnapshotError(ms, i + 1, request.deviceId);
        return if valid.Fail? then valid else Fail(InvalidArgument("snapshot contains duplicate entity_key"));
      }
      seen := seen + {ms[i].entityKey};
    }
    assert ms[..|ms|] == ms;
    return Pass;
  }

  lemma {:induction false} CheckSnapshotMeaning(ms: seq<Mutation>, deviceId: string)
    ensures CheckSnapshot(ms, deviceId).Pass? <==> AllValid(ms, deviceId) && DistinctKeys(ms)
  {
    if ms != [] {
      var init := ms[..|ms| - 1];
      CheckSnapshotMeaning(init, deviceId);
      assert forall i :: 0 <= i < |init| ==> init[i] == ms[i];
      if ms[|ms| - 1].entityKey in Keys(init) {
        var i :| 0 <= i < |init| && init[i].entityKey == ms[|ms| - 1].entityKey;
        assert ms[i].entityKey == ms[|ms| - 1].entityKey;
      }
      if AllValid(ms, deviceId) { assert AllValid(init, deviceId); }
    }
  }

  /** The page size of an exchange. */
  function NormalizedPullLimit(value: nat): (limit: nat)
    ensures 1 <= limit <= MAX_PULL_LIMIT
    ensures 1 <= value <= MAX_PULL_LIMIT ==> limit == value
  {
    if value == 0 then DEFAULT_PULL_LIMIT else if value > MAX_PULL_LIMIT then MAX_PULL_LIMIT else value
  }
}
