/** The records of the write-intent journal and what each operation of
    `WriteOperationService` makes of one record. */
module WriteRecords {
  import opened JsText
  import opened CanonicalJson

  datatype Phase =
    | AwaitingApproval | Approved | Preparing | Submitting | OutcomeUnknown
    | Submitted | Rejected | FailedBeforeSubmission | Declined | Expired

  /** A plain JavaScript object, up to key order. */
  type Fields = map<Text, Value>

  datatype Intent = Intent(operation: Text, network: Text, signerAddress: Text, payload: Json)

  datatype Prepared = Prepared(rawTransaction: Text, txid: Text, validUntilBlock: int, metadata: Option<Fields>)

  datatype Record = Record(
    intent: Intent, intentId: Text, fingerprint: Text, phase: Phase, createdAt: nat, updatedAt: nat,
    rawTransaction: Option<Text>, txid: Option<Text>, validUntilBlock: Option<int>, metadata: Option<Fields>,
    result: Option<Fields>, error: Option<Failure>)

  /** Why an operation threw. `Thrown` is an error that a callback raised. */
  datatype Failure =
    | InvalidKey | InvalidIntent | TooLarge | KeyReused | QuotaReached
    | InvalidIdentifier | NotFound | InvalidRecord | FingerprintMismatch
    | WrongPhase(phase: Phase) | NotPrepared | AlreadyPrepared | InvalidPrepared
    | NotApproved | InconsistentResponse | ExpiredUnobserved
    | Thrown(message: Text)

  type Journal = map<Text, Record>

  /** SHA-256 as an unknown function with 64 lower-case hexadecimal digits. */
  type Digest = t: Text | IsLowerHex64(t) witness seq(64, _ => 48)

  type Sha256 = Text -> Digest

  const MAX_INTENT_BYTES: nat := 256 * 1024
  const MAX_RECORDS: nat := 1000

  // ------------------------------------------------------------ validation

  predicate IsKeyUnit(u: CodeUnit) {
    IsDigit(u) || 65 <= u <= 90 || 97 <= u <= 122 || u == 46 || u == 95 || u == 58 || u == 45
  }

  /** `/^[A-Za-z0-9._:-]{8,128}$/` */
  predicate ValidKey(key: Text) {
    8 <= |key| <= 128 && forall i :: 0 <= i < |key| ==> IsKeyUnit(key[i])
  }

  predicate ValidIntent(intent: Intent) {
    intent.operation != [] && intent.network != [] && intent.signerAddress != [] && intent.payload.Obj?
  }

  function IntentJson(intent: Intent): Json {
    Obj([Member(Ascii("operation"), Str(intent.operation)),
         Member(Ascii("network"), Str(intent.network)),
         Member(Ascii("signerAddress"), Str(intent.signerAddress)),
         Member(Ascii("payload"), intent.payload)])
  }

  function Fingerprint(sha: Sha256, intent: Intent): Text { sha(Canonical(IntentJson(intent))) }

  /** `/^[0-9a-fA-F]+$/` with an even length. */
  predicate ValidRaw(raw: Text) { raw != [] && AllHex(raw) && |raw| % 2 == 0 }

  /** `/^0x[0-9a-fA-F]{64}$/` */
  predicate ValidTxid(txid: Text) { |txid| == 66 && txid[0] == 48 && txid[1] == 120 && AllHex(txid[2..]) }

  predicate ValidPrepared(p: Prepared) {
    ValidRaw(p.rawTransaction) && ValidTxid(p.txid) && 0 < p.validUntilBlock <= MAX_SAFE_INTEGER
  }

  predicate HasAnyPreparedField(r: Record) {
    r.rawTransaction.Some? || r.txid.Some? || r.validUntilBlock.Some? || r.metadata.Some?
  }

  predicate ValidPreparedFields(r: Record) {
    r.rawTransaction.Some? && r.txid.Some? && r.validUntilBlock.Some? &&
    ValidPrepared(Prepared(r.rawTransaction.value, r.txid.value, r.validUntilBlock.value, r.metadata))
  }

  predicate NeedsPrepared(phase: Phase) {
    phase.Submitting? || phase.OutcomeUnknown? || phase.Submitted? || phase.Rejected? || phase.Expired?
  }

  /** `validatePersistedRecord`. The types of the fields are the model's types. */
  predicate ValidPersisted(sha: Sha256, r: Record, expectedId: Text) {
    && ValidIntent(r.intent)
    && r.intentId == expectedId
    && IsLowerHex64(r.fingerprint)
    && r.fingerprint == Fingerprint(sha, r.intent)
    && (HasAnyPreparedField(r) ==> ValidPreparedFields(r))
    && (NeedsPrepared(r.phase) ==> HasAnyPreparedField(r))
    && (r.result.Some? ==> r.phase.Submitted?)
  }

  /** `getById`, with the validation of `read`. */
  function GetById(sha: Sha256, journal: Journal, id: Text): Result<Record, Failure> {
    if !IsLowerHex64(id) then Err(InvalidIdentifier)
    else if id !in journal then Err(NotFound)
    else if !ValidPersisted(sha, journal[id], id) then Err(InvalidRecord)
    else Ok(journal[id])
  }

  // ------------------------------------------------------------ operations

  /** `reserve`: the record bound to the key, new or old. */
  function Reserve(sha: Sha256, journal: Journal, key: Text, intent: Intent, now: nat): Result<Record, Failure> {
    if !ValidKey(key) then Err(InvalidKey)
    else if !ValidIntent(intent) then Err(InvalidIntent)
    else if |Utf8(Canonical(IntentJson(intent)))| > MAX_INTENT_BYTES then Err(TooLarge)
    else
      match GetById(sha, journal, sha(key))
      case Ok(existing) =>
        if existing.fingerprint != Fingerprint(sha, intent) then Err(KeyReused) else Ok(existing)
      case Err(failure) =>
        if !failure.NotFound? then Err(failure)
        else if |journal| >= MAX_RECORDS then Err(QuotaReached)
        else Ok(NewRecord(sha, sha(key), intent, now))
  }

  function NewRecord(sha: Sha256, id: Text, intent: Intent, now: nat): Record {
    Record(intent, id, Fingerprint(sha, intent), AwaitingApproval, now, now, None, None, None, None, None, None)
  }

  function Approve(r: Record, fingerprint: Text, now: nat): Result<Record, Failure> {
    if r.fingerprint != fingerprint then Err(FingerprintMismatch)
    else if r.phase.Approved? || r.phase.Preparing? || r.phase.Submitting? || r.phase.OutcomeUnknown?
            || r.phase.Submitted? then Ok(r)
    else if !r.phase.AwaitingApproval? then Err(WrongPhase(r.phase))
    else Ok(r.(phase := Approved, updatedAt := now))
  }

  function Decline(r: Record, now: nat): Result<Record, Failure> {
    if !r.phase.AwaitingApproval? then Err(WrongPhase(r.phase))
    else Ok(r.(phase := Declined, updatedAt := now))
  }

  predicate Truthy(t: Option<Text>) { t.Some? && t.value != [] }

  /** The durable writes that `execute` makes, each by its own method or, for
      `ToExpired`, by a bare `update`. */
  datatype Change =
    | ToPreparing
    | ToPrepared(prepared: Prepared)
    | ToUnknown(failure: Failure)
    | ToRejected(failure: Failure)
    | ToSubmitted
    | ToCompleted(result: Fields)
    | ToFailed(failure: Failure)
    | ToExpired

  function MarkPreparing(r: Record, now: nat): Result<Record, Failure> {
    if !r.phase.Approved? && !r.phase.Preparing? then Err(WrongPhase(r.phase))
    else if r.phase.Preparing? then Ok(r)
    else Ok(r.(phase := Preparing, updatedAt := now))
  }

  function RecordPrepared(r: Record, p: Prepared, now: nat): Result<Record, Failure> {
    if !r.phase.Approved? && !r.phase.Preparing? then Err(WrongPhase(r.phase))
    else if !ValidPrepared(p) then Err(InvalidPrepared)
    else Ok(r.(rawTransaction := Some(p.rawTransaction), txid := Some(p.txid),
               validUntilBlock := Some(p.validUntilBlock), metadata := p.metadata,
               phase := Submitting, updatedAt := now))
  }

  function MarkOutcomeUnknown(r: Record, failure: Failure, now: nat): Result<Record, Failure> {
    if !Truthy(r.rawTransaction) || !Truthy(r.txid) then Err(NotPrepared)
    else Ok(r.(phase := OutcomeUnknown, error := Some(failure), updatedAt := now))
  }

  function MarkRejected(r: Record, failure: Failure, now: nat): Result<Record, Failure> {
    if !Truthy(r.rawTransaction) || !Truthy(r.txid) then Err(NotPrepared)
    else Ok(r.(phase := Rejected, error := Some(failure), updatedAt := now))
  }

  function MarkBroadcastSucceeded(r: Record, now: nat): Result<Record, Failure> {
    if !Truthy(r.rawTransaction) || !Truthy(r.txid) then Err(NotPrepared)
    else Ok(r.(phase := Submitted, error := None, updatedAt := now))
  }

  function Complete(r: Record, result: Fields, now: nat): Result<Record, Failure> {
    if !r.phase.Submitted? then Err(WrongPhase(r.phase))
    else Ok(r.(result := Some(result), updatedAt := now))
  }

  function FailBeforeSubmission(r: Record, failure: Failure, now: nat): Result<Record, Failure> {
    if Truthy(r.rawTransaction) then Err(AlreadyPrepared)
    else Ok(r.(phase := FailedBeforeSubmission, error := Some(failure), updatedAt := now))
  }

  function Expire(r: Record, now: nat): Record {
    r.(phase := Expired, error := Some(ExpiredUnobserved), updatedAt := now)
  }

  function Apply(r: Record, change: Change, now: nat): Result<Record, Failure> {
    match change
    case ToPreparing => MarkPreparing(r, now)
    case ToPrepared(p) => RecordPrepared(r, p, now)
    case ToUnknown(failure) => MarkOutcomeUnknown(r, failure, now)
    case ToRejected(failure) => MarkRejected(r, failure, now)
    case ToSubmitted => MarkBroadcastSucceeded(r, now)
    case ToCompleted(result) => Complete(r, result, now)
    case ToFailed(failure) => FailBeforeSubmission(r, failure, now)
    case ToExpired => Ok(Expire(r, now))
  }

  /** One of those methods: read the record, check it, write it. */
  function UpdateById(sha: Sha256, journal: Journal, id: Text, change: Change, now: nat): Result<Record, Failure> {
    match GetById(sha, journal, id)
    case Err(failure) => Err(failure)
    case Ok(r) => Apply(r, change, now)
  }

  /** The coordinator's `buildResult`: metadata fields replace fixed ones. */
  function BuildResult(intent: Intent, txid: Text, metadata: Option<Fields>): Fields {
    map[Ascii("txid") := StrValue(txid),
        Ascii("operation") := StrValue(intent.operation),
        Ascii("network") := StrValue(intent.network),
        Ascii("signerAddress") := StrValue(intent.signerAddress)]
    + (if metadata.Some? then metadata.value else map[])
  }

  // ------------------------------------------------- how a record may evolve

  predicate IsFinal(phase: Phase) {
    phase.Submitted? || phase.Rejected? || phase.FailedBeforeSubmission? || phase.Declined? || phase.Expired?
  }

  function Rank(phase: Phase): nat {
    match phase
    case AwaitingApproval => 0
    case Approved => 1
    case Preparing => 2
    case Submitting => 3
    case OutcomeUnknown => 4
    case _ => 5
  }

  /** The fixed order in which the phase of a record moves. */
  predicate MayBecome(before: Phase, after: Phase) {
    before == after ||
    (!IsFinal(before) && Rank(before) < Rank(after)
     && (after.Declined? ==> before.AwaitingApproval?)
     && (after.FailedBeforeSubmission? ==> !NeedsPrepared(before)))
  }

  predicate SamePrepared(r: Record, s: Record) {
    && r.rawTransaction == s.rawTransaction && r.txid == s.txid && r.validUntilBlock == s.validUntilBlock
    && r.metadata == s.metadata
  }

  /** What may happen to a record between two readings of it: its identity stays,
      its phase moves forward, a prepared transaction stays what it was, and a final
      record stays as it is but for the result of a submitted one. */
  predicate Evolves(r: Record, s: Record) {
    && s.intent == r.intent && s.intentId == r.intentId && s.fingerprint == r.fingerprint && s.createdAt == r.createdAt
    && MayBecome(r.phase, s.phase)
    && (NeedsPrepared(r.phase) ==> SamePrepared(r, s))
    && (IsFinal(r.phase) && !r.phase.Submitted? ==> s == r)
    && (r.result.Some? ==> s == r)
  }

  lemma EvolvesTransitive(r: Record, s: Record, t: Record)
    requires Evolves(r, s) && Evolves(s, t)
    ensures Evolves(r, t)
  {
  }
}
