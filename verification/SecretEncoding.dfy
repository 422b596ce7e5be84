/**
 The stored form of a record. Decoding undoes encoding, and the strict check the database
 and process layers apply accepts exactly the encodings of records, nothing looser.
 */
module SecretEncoding {
  import opened CredentialIdentity
  import opened SecretRecords

  /** The keys of a stored object; `Extra` is any key the schema does not know. */
  datatype Field =
    | SchemaVersion | ProviderId | AccountId | Capabilities_ | Version | State | RefreshSecret
    | RefreshGeneration | ActiveAttemptId | LastAttemptId | Failure
    | Extra(name: string)

  /** JSON values as far as the schema tells them apart. */
  datatype Json = Null | Bool(flag: bool) | Int(value: int) | Str(text: string) | List(items: seq<Json>) | Other

  type Raw = map<Field, Json>

  const SCHEMA: string := "credential-refresh-secret-record-v1"
  const MAX_BIGINT: int := 0x7fff_ffff_ffff_ffff

  const FIELDS: set<Field> := {SchemaVersion, ProviderId, AccountId, Capabilities_, Version, State, RefreshSecret,
                               RefreshGeneration, ActiveAttemptId, LastAttemptId, Failure}

  function StateName(s: RecordState): string {
    match s
    case Ready => "ready"
    case Refreshing => "refreshing"
    case BlockedAuth => "blocked_auth"
    case BlockedAmbiguous => "blocked_ambiguous"
    case Revoked => "revoked"
  }

  function FailureName(f: FailureCode): string {
    match f
    case RefreshRejected => "refresh_rejected"
    case RefreshOutcomeAmbiguous => "refresh_outcome_ambiguous"
    case RefreshResponseInvalid => "refresh_response_invalid_or_incomplete"
    case StoreCommitAmbiguous => "secret_store_commit_ambiguous"
    case SourceRevoked => "credential_source_revoked"
  }

  function ParseState(name: string): Option<RecordState> {
    if name == StateName(Ready) then Some(Ready)
    else if name == StateName(Refreshing) then Some(Refreshing)
    else if name == StateName(BlockedAuth) then Some(BlockedAuth)
    else if name == StateName(BlockedAmbiguous) then Some(BlockedAmbiguous)
    else if name == StateName(Revoked) then Some(Revoked)
    else None
  }

  function ParseFailure(name: string): Option<FailureCode> {
    if name == FailureName(RefreshRejected) then Some(RefreshRejected)
    else if name == FailureName(RefreshOutcomeAmbiguous) then Some(RefreshOutcomeAmbiguous)
    else if name == FailureName(RefreshResponseInvalid) then Some(RefreshResponseInvalid)
    else if name == FailureName(StoreCommitAmbiguous) then Some(StoreCommitAmbiguous)
    else if name == FailureName(SourceRevoked) then Some(SourceRevoked)
    else None
  }

  lemma NamesParse(s: RecordState, f: FailureCode)
    ensures ParseState(StateName(s)) == Some(s)
    ensures ParseFailure(FailureName(f)) == Some(f)
  {
  }

  // ----- lists of strings

  function StrList(names: seq<string>): seq<Json> {
    if names == [] then [] else [Str(names[0])] + StrList(names[1..])
  }

  function ParseStrList(items: seq<Json>): Option<seq<string>> {
    if items == [] then Some([])
    else if !items[0].Str? then None
    else match ParseStrList(items[1..])
      case None => None
      case Some(rest) => Some([items[0].text] + rest)
  }

  lemma {:induction false} StrListParses(names: seq<string>)
    ensures ParseStrList(StrList(names)) == Some(names)
    decreases |names|
  {
    if names != [] {
      StrListParses(names[1..]);
      assert StrList(names)[1..] == StrList(names[1..]);
      assert [names[0]] + names[1..] == names;
    }
  }

  // ----- optional strings

  function OptStr(s: Option<string>): Json {
    match s
    case None => Null
    case Some(text) => Str(text)
  }

  /** None is a value that is neither null nor a string. */
  function ParseOptStr(j: Json): Option<Option<string>> {
    match j
    case Null => Some(None)
    case Str(text) => Some(Some(text))
    case _ => None
  }

  function EncodeFailure(f: Option<FailureCode>): Json {
    OptStr(match f case None => None case Some(code) => Some(FailureName(code)))
  }

  /** The failure check of decoding and of the record constructor together. */
  function DecodeFailure(j: Json): Option<Option<FailureCode>> {
    match j
    case Null => Some(None)
    case Str(text) => (match ParseFailure(text) case None => None case Some(code) => Some(Some(code)))
    case _ => None
  }

  function DecodeState(j: Json): Option<RecordState> {
    if j.Str? then ParseState(j.text) else None
  }

  // ----- records

  function Encode(r: Record): Raw {
    map[SchemaVersion := Str(SCHEMA),
        ProviderId := Str(r.binding.provider),
        AccountId := Str(r.binding.account),
        Capabilities_ := List(StrList(r.binding.capabilities)),
        Version := Int(r.version),
        State := Str(StateName(r.state)),
        RefreshSecret := OptStr(r.secret),
        RefreshGeneration := Int(r.generation),
        ActiveAttemptId := OptStr(r.active),
        LastAttemptId := OptStr(r.last),
        Failure := EncodeFailure(r.failure)]
  }

  /** `raw.get(field)`: a missing key reads as null. */
  function Get(raw: Raw, f: Field): Json {
    if f in raw then raw[f] else Null
  }

  function DecodeBinding(raw: Raw): Option<Binding> {
    if !Get(raw, ProviderId).Str? || !Get(raw, AccountId).Str? || !Get(raw, Capabilities_).List? then None
    else match ParseStrList(Get(raw, Capabilities_).items)
      case None => None
      case Some(names) => MakeBinding(Get(raw, ProviderId).text, Get(raw, AccountId).text, names)
  }

  function DecodeCount(j: Json): Option<nat> {
    if j.Int? && j.value >= 0 then Some(j.value) else None
  }

  function Decode(raw: Raw, expected: Binding): Option<Record> {
    var version, generation := DecodeCount(Get(raw, Version)), DecodeCount(Get(raw, RefreshGeneration));
    var state, failure := DecodeState(Get(raw, State)), DecodeFailure(Get(raw, Failure));
    var secret := ParseOptStr(Get(raw, RefreshSecret));
    var active, last := ParseOptStr(Get(raw, ActiveAttemptId)), ParseOptStr(Get(raw, LastAttemptId));
    if Get(raw, SchemaVersion) != Str(SCHEMA) || DecodeBinding(raw) != Some(expected) then None
    else if version.None? || generation.None? || state.None? || failure.None? || secret.None? || active.None? || last.None?
    then None
    else
      var r := Record(expected, version.value, state.value, secret.value, generation.value,
                      active.value, last.value, failure.value);
      if r.WellFormed() then Some(r) else None
  }

  lemma BindingRoundTrip(b: Binding)
    requires b.Valid()
    ensures MakeBinding(b.provider, b.account, b.capabilities) == Some(b)
    ensures ParseStrList(StrList(b.capabilities)) == Some(b.capabilities)
  {
    StrListParses(b.capabilities);
  }

  lemma EncodedFields(r: Record)
    ensures var raw := Encode(r);
            && raw.Keys == FIELDS
            && Get(raw, SchemaVersion) == Str(SCHEMA)
            && Get(raw, ProviderId) == Str(r.binding.provider)
            && Get(raw, AccountId) == Str(r.binding.account)
            && Get(raw, Capabilities_) == List(StrList(r.binding.capabilities))
            && Get(raw, Version) == Int(r.version)
            && Get(raw, State) == Str(StateName(r.state))
            && Get(raw, RefreshSecret) == OptStr(r.secret)
            && Get(raw, RefreshGeneration) == Int(r.generation)
            && Get(raw, ActiveAttemptId) == OptStr(r.active)
            && Get(raw, LastAttemptId) == OptStr(r.last)
            && Get(raw, Failure) == EncodeFailure(r.failure)
  {
  }

  lemma FailureRoundTrip(f: Option<FailureCode>)
    ensures DecodeFailure(EncodeFailure(f)) == Some(f)
  {
    if f.Some? {
      NamesParse(Ready, f.value);
    }
  }

  lemma StateRoundTrip(s: RecordState)
    ensures DecodeState(Str(StateName(s))) == Some(s)
  {
    NamesParse(s, SourceRevoked);
  }

  /** Decoding undoes encoding on every record of a valid binding. */
  lemma DecodeEncode(r: Record)
    requires r.WellFormed() && r.binding.Valid()
    ensures Decode(Encode(r), r.binding) == Some(r)
  {
    var raw := Encode(r);
    EncodedFields(r);
    BindingRoundTrip(r.binding);
    assert DecodeBinding(raw) == Some(r.binding);
    StateRoundTrip(r.state);
    FailureRoundTrip(r.failure);
    DecodeParts(raw, r);
  }

  lemma DecodeParts(raw: Raw, r: Record)
    requires r.WellFormed() && Get(raw, SchemaVersion) == Str(SCHEMA) && DecodeBinding(raw) == Some(r.binding)
    requires Get(raw, Version) == Int(r.version) && Get(raw, RefreshGeneration) == Int(r.generation)
    requires DecodeState(Get(raw, State)) == Some(r.state) && DecodeFailure(Get(raw, Failure)) == Some(r.failure)
    requires Get(raw, RefreshSecret) == OptStr(r.secret)
    requires Get(raw, ActiveAttemptId) == OptStr(r.active) && Get(raw, LastAttemptId) == OptStr(r.last)
    ensures Decode(raw, r.binding) == Some(r)
  {
  }

  predicate OptionalText(j: Json) {
    j.Null? || j.Str?
  }

  /** `_strict_record`: exact keys and types, and re-encoding gives the same object. */
  function StrictRecord(raw: Raw, binding: Binding): Option<Raw> {
    if raw.Keys != FIELDS then None
    else if !(raw[Version].Int? && 0 <= raw[Version].value <= MAX_BIGINT) then None
    else if !(raw[RefreshGeneration].Int? && 0 <= raw[RefreshGeneration].value <= MAX_BIGINT) then None
    else if exists f :: f in FIELDS - {Version, RefreshGeneration, Capabilities_} && !OptionalText(raw[f]) then None
    else if !raw[Capabilities_].List? || ParseStrList(raw[Capabilities_].items).None? then None
    else match Decode(raw, binding)
      case None => None
      case Some(r) => if Encode(r) == raw then Some(raw) else None
  }

  /** A record whose counters fit the database column. */
  ghost predicate Storable(r: Record, binding: Binding) {
    r.WellFormed() && r.binding == binding && r.version <= MAX_BIGINT && r.generation <= MAX_BIGINT
  }

  lemma EncodingIsStrict(r: Record, binding: Binding)
    requires binding.Valid() && Storable(r, binding)
    ensures StrictRecord(Encode(r), binding) == Some(Encode(r))
  {
    DecodeEncode(r);
    StrListParses(r.binding.capabilities);
    EncodedTypes(r);
    StrictParts(Encode(r), r);
  }

  lemma EncodedTypes(r: Record)
    ensures var raw := Encode(r);
            && raw.Keys == FIELDS
            && raw[Version] == Int(r.version) && raw[RefreshGeneration] == Int(r.generation)
            && raw[Capabilities_] == List(StrList(r.binding.capabilities))
            && forall f :: f in FIELDS - {Version, RefreshGeneration, Capabilities_} ==> OptionalText(raw[f])
  {
    EncodedFields(r);
    var raw := Encode(r);
    var texts := FIELDS - {Version, RefreshGeneration, Capabilities_};
    forall f | f in texts ensures OptionalText(raw[f]) {
      assert raw[f] == Get(raw, f);
    }
  }

  lemma StrictParts(raw: Raw, r: Record)
    requires raw.Keys == FIELDS && Decode(raw, r.binding) == Some(r) && Encode(r) == raw
    requires raw[Version] == Int(r.version) && raw[RefreshGeneration] == Int(r.generation)
    requires r.version <= MAX_BIGINT && r.generation <= MAX_BIGINT
    requires raw[Capabilities_].List? && ParseStrList(raw[Capabilities_].items).Some?
    requires forall f :: f in FIELDS - {Version, RefreshGeneration, Capabilities_} ==> OptionalText(raw[f])
    ensures StrictRecord(raw, r.binding) == Some(raw)
  {
  }

  /** The strict check accepts exactly the encodings of storable records, and returns them unchanged. */
  lemma StrictRecordExact(raw: Raw, binding: Binding)
    requires binding.Valid()
    ensures StrictRecord(raw, binding).Some? <==> exists r :: Storable(r, binding) && Encode(r) == raw
    ensures StrictRecord(raw, binding).Some? ==> StrictRecord(raw, binding) == Some(raw)
  {
    if StrictRecord(raw, binding).Some? {
      var r := Decode(raw, binding).value;
      assert Storable(r, binding) && Encode(r) == raw;
    }
    if r :| Storable(r, binding) && Encode(r) == raw {
      EncodingIsStrict(r, binding);
    }
  }
}
