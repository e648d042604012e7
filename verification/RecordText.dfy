/** The text of a journal file: what `create` and `update` of write-operation-service.ts
    print for a record, and what `read` makes of it. */
module RecordText {
  import opened JsText
  import opened Numerals
  import opened CanonicalJson
  import opened WriteRecords
  import opened WriteProtocol
  import opened WriteProtocolTheorems

  // ---------------------------------------------------------------- fields

  datatype Field =
    | OperationField | NetworkField | SignerField | PayloadField | IdField | FingerprintField | StateField
    | CreatedField | UpdatedField | RawField | TxidField | HeightField | MetadataField | ResultField | ErrorField

  const FIELDS: seq<Field> := [
    OperationField, NetworkField, SignerField, PayloadField, IdField, FingerprintField, StateField, CreatedField,
    UpdatedField, RawField, TxidField, HeightField, MetadataField, ResultField, ErrorField]

  function NameOf(f: Field): Text {
    match f
    case OperationField => Ascii("operation")
    case NetworkField => Ascii("network")
    case SignerField => Ascii("signerAddress")
    case PayloadField => Ascii("payload")
    case IdField => Ascii("intentId")
    case FingerprintField => Ascii("fingerprint")
    case StateField => Ascii("state")
    case CreatedField => Ascii("createdAt")
    case UpdatedField => Ascii("updatedAt")
    case RawField => Ascii("rawTransaction")
    case TxidField => Ascii("txid")
    case HeightField => Ascii("validUntilBlock")
    case MetadataField => Ascii("metadata")
    case ResultField => Ascii("result")
    case ErrorField => Ascii("error")
  }

  function PhaseName(p: Phase): Text {
    match p
    case AwaitingApproval => Ascii("awaiting_approval")
    case Approved => Ascii("approved")
    case Preparing => Ascii("preparing")
    case Submitting => Ascii("submitting")
    case OutcomeUnknown => Ascii("outcome_unknown")
    case Submitted => Ascii("submitted")
    case Rejected => Ascii("rejected")
    case FailedBeforeSubmission => Ascii("failed_before_submission")
    case Declined => Ascii("declined")
    case Expired => Ascii("expired")
  }

  const PHASES: seq<Phase> := [
    AwaitingApproval, Approved, Preparing, Submitting, OutcomeUnknown, Submitted, Rejected, FailedBeforeSubmission,
    Declined, Expired]

  function PhaseNamed(t: Text, among: seq<Phase>): Option<Phase> {
    if among == [] then None else if PhaseName(among[0]) == t then Some(among[0]) else PhaseNamed(t, among[1..])
  }

  /** How times and errors are spelled, and what `JSON.parse` makes of a number, if a
      safe integer. */
  datatype Spelling = Spelling(
    stamp: nat -> Text, time: Text -> Option<nat>, integer: Text -> Option<int>,
    message: Failure -> Text, failure: Text -> Failure)

  /** The times, the height and the error of the record are known by their spelling. */
  predicate Spells(sp: Spelling, r: Record) {
    && sp.time(sp.stamp(r.createdAt)) == Some(r.createdAt)
    && sp.time(sp.stamp(r.updatedAt)) == Some(r.updatedAt)
    && (r.validUntilBlock.Some? && r.validUntilBlock.value > 0 ==>
          sp.integer(ToDecimal(r.validUntilBlock.value)) == r.validUntilBlock)
    && (r.error.Some? ==> sp.failure(sp.message(r.error.value)) == r.error.value)
  }

  // ---------------------------------------------------------------- writer

  /** The order in which the metadata and the result hold their fields. */
  datatype Orders = Orders(metadata: seq<Member<Json>>, result: seq<Member<Json>>)

  predicate Orderly(fields: Option<Fields>, ms: seq<Member<Json>>) {
    fields.Some? ==> WellFormed(Obj(ms)) && MeaningOf(ms) == fields.value
  }

  function TextJson(t: Option<Text>): Option<Json> { if t.Some? then Some(Str(t.value)) else None }

  /** The value of a field of the record, unless it is undefined. */
  function FieldJson(sp: Spelling, r: Record, o: Orders, f: Field): Option<Json> {
    match f
    case OperationField => Some(Str(r.intent.operation))
    case NetworkField => Some(Str(r.intent.network))
    case SignerField => Some(Str(r.intent.signerAddress))
    case PayloadField => Some(r.intent.payload)
    case IdField => Some(Str(r.intentId))
    case FingerprintField => Some(Str(r.fingerprint))
    case StateField => Some(Str(PhaseName(r.phase)))
    case CreatedField => Some(Str(sp.stamp(r.createdAt)))
    case UpdatedField => Some(Str(sp.stamp(r.updatedAt)))
    case RawField => TextJson(r.rawTransaction)
    case TxidField => TextJson(r.txid)
    case HeightField => if r.validUntilBlock.Some? then Some(Num(SignedDecimal(r.validUntilBlock.value))) else None
    case MetadataField => if r.metadata.Some? then Some(Obj(o.metadata)) else None
    case ResultField => if r.result.Some? then Some(Obj(o.result)) else None
    case ErrorField => if r.error.Some? then Some(Str(sp.message(r.error.value))) else None
  }

  function Lookup(ms: seq<Member<Json>>, name: Text): Option<Json> {
    if ms == [] then None else if ms[0].key == name then Some(ms[0].value) else Lookup(ms[1..], name)
  }

  /** The object is the record: its members, in whatever order the updates left them. */
  ghost predicate Stores(sp: Spelling, r: Record, o: Orders, j: Json) {
    && j.Obj? && WellFormed(j) && Orderly(r.metadata, o.metadata) && Orderly(r.result, o.result)
    && forall f :: Lookup(j.members, NameOf(f)) == FieldJson(sp, r, o, f)
  }

  // ---------------------------------------------------------------- reader

  /** A field that may be missing, but not of another type. */
  datatype Found<T> = Missing | Wrong | Here(value: T) {
    function ToOption(): Option<T> { if Here? then Some(value) else None }
  }

  function TextAt(ms: seq<Member<Json>>, f: Field): Found<Text> {
    match Lookup(ms, NameOf(f)) case None => Missing case Some(Str(t)) => Here(t) case _ => Wrong
  }

  function ObjectAt(ms: seq<Member<Json>>, f: Field): Found<Fields> {
    match Lookup(ms, NameOf(f)) case None => Missing case Some(Obj(fields)) => Here(MeaningOf(fields)) case _ => Wrong
  }

  function TimeAt(sp: Spelling, ms: seq<Member<Json>>, f: Field): Option<nat> {
    if TextAt(ms, f).Here? then sp.time(TextAt(ms, f).value) else None
  }

  function HeightAt(sp: Spelling, ms: seq<Member<Json>>): Found<int> {
    match Lookup(ms, NameOf(HeightField))
    case None => Missing
    case Some(Num(d)) => if sp.integer(d).Some? then Here(sp.integer(d).value) else Wrong
    case _ => Wrong
  }

  function PhaseAt(ms: seq<Member<Json>>): Option<Phase> {
    if TextAt(ms, StateField).Here? then PhaseNamed(TextAt(ms, StateField).value, PHASES) else None
  }

  /** The record that an object is, if all its fields are of their types. */
  function RecordOf(sp: Spelling, ms: seq<Member<Json>>): Option<Record> {
    var operation, network, signer := TextAt(ms, OperationField), TextAt(ms, NetworkField), TextAt(ms, SignerField);
    var payload := Lookup(ms, NameOf(PayloadField));
    var id, fingerprint, phase := TextAt(ms, IdField), TextAt(ms, FingerprintField), PhaseAt(ms);
    var created, updated := TimeAt(sp, ms, CreatedField), TimeAt(sp, ms, UpdatedField);
    var raw, txid, height := TextAt(ms, RawField), TextAt(ms, TxidField), HeightAt(sp, ms);
    var metadata, result, error := ObjectAt(ms, MetadataField), ObjectAt(ms, ResultField), TextAt(ms, ErrorField);
    if !operation.Here? || !network.Here? || !signer.Here? || payload.None? || !id.Here? || !fingerprint.Here? then None
    else if phase.None? || created.None? || updated.None? then None
    else if raw.Wrong? || txid.Wrong? || height.Wrong? || metadata.Wrong? || result.Wrong? || error.Wrong? then None
    else
      Some(Record(
        Intent(operation.value, network.value, signer.value, payload.value),
        id.value, fingerprint.value, phase.value, created.value, updated.value,
        raw.ToOption(), txid.ToOption(), height.ToOption(), metadata.ToOption(), result.ToOption(),
        if error.Here? then Some(sp.failure(error.value)) else None))
  }

  /** `JSON.parse`, which allows space around the value. */
  function Parse(t: Text): Option<Json> {
    match Read(t) case Some((j, rest)) => if SkipSpace(rest) == [] then Some(j) else None case None => None
  }

  /** `read` on the text of a file. */
  function ReadFile(sha: Sha256, sp: Spelling, t: Text, id: Text): Result<Record, Failure> {
    match Parse(t)
    case Some(Obj(ms)) =>
      (match RecordOf(sp, ms)
       case Some(r) => if ValidPersisted(sha, r, id) then Ok(r) else Err(InvalidRecord)
       case None => Err(InvalidRecord))
    case _ => Err(InvalidRecord)
  }

  // ------------------------------------------------------------- round trip

  lemma {:induction false} PhaseIsNamed(p: Phase)
    ensures PhaseNamed(PhaseName(p), PHASES) == Some(p)
  {
    PhaseNamesDiffer();
    PhaseFound(p, PHASES);
  }

  lemma {:induction false} PhaseFound(p: Phase, among: seq<Phase>)
    requires p in among
    requires forall a, b :: PhaseName(a) == PhaseName(b) ==> a == b
    ensures PhaseNamed(PhaseName(p), among) == Some(p)
  {
    hide PhaseName;
    if among[0] != p {
      PhaseFound(p, among[1..]);
    }
  }

  lemma PhaseNamesDiffer()
    ensures forall a, b :: PhaseName(a) == PhaseName(b) ==> a == b
  {
    assert |PhaseName(AwaitingApproval)| == 17 && |PhaseName(Approved)| == 8 && |PhaseName(Preparing)| == 9;
    assert |PhaseName(Submitting)| == 10 && |PhaseName(OutcomeUnknown)| == 15 && |PhaseName(Submitted)| == 9;
    assert |PhaseName(Rejected)| == 8 && |PhaseName(FailedBeforeSubmission)| == 24 && |PhaseName(Declined)| == 8;
    assert |PhaseName(Expired)| == 7;
    assert PhaseName(Approved)[0] == 97 && PhaseName(Rejected)[0] == 114 && PhaseName(Declined)[0] == 100;
    assert PhaseName(Preparing)[0] == 112 && PhaseName(Submitted)[0] == 115;
  }

  lemma FieldNamesDiffer()
    ensures forall a, b :: NameOf(a) == NameOf(b) ==> a == b
  {
    assert |NameOf(OperationField)| == 9 && |NameOf(NetworkField)| == 7 && |NameOf(SignerField)| == 13;
    assert |NameOf(PayloadField)| == 7 && |NameOf(IdField)| == 8 && |NameOf(FingerprintField)| == 11;
    assert |NameOf(StateField)| == 5 && |NameOf(CreatedField)| == 9 && |NameOf(UpdatedField)| == 9;
    assert |NameOf(RawField)| == 14 && |NameOf(TxidField)| == 4 && |NameOf(HeightField)| == 15;
    assert |NameOf(MetadataField)| == 8 && |NameOf(ResultField)| == 6 && |NameOf(ErrorField)| == 5;
    assert NameOf(OperationField)[0] == 111 && NameOf(CreatedField)[0] == 99 && NameOf(UpdatedField)[0] == 117;
    assert NameOf(NetworkField)[0] == 110 && NameOf(PayloadField)[0] == 112;
    assert NameOf(IdField)[0] == 105 && NameOf(MetadataField)[0] == 109;
    assert NameOf(StateField)[0] == 115 && NameOf(ErrorField)[0] == 101;
  }

  lemma ReadsTexts(sp: Spelling, r: Record, o: Orders, j: Json)
    requires Stores(sp, r, o, j)
    ensures var ms := j.members;
            && TextAt(ms, OperationField) == Here(r.intent.operation)
            && TextAt(ms, NetworkField) == Here(r.intent.network)
            && TextAt(ms, SignerField) == Here(r.intent.signerAddress)
            && Lookup(ms, NameOf(PayloadField)) == Some(r.intent.payload)
            && TextAt(ms, IdField) == Here(r.intentId) && TextAt(ms, FingerprintField) == Here(r.fingerprint)
            && TextAt(ms, StateField) == Here(PhaseName(r.phase))
            && TextAt(ms, CreatedField) == Here(sp.stamp(r.createdAt))
            && TextAt(ms, UpdatedField) == Here(sp.stamp(r.updatedAt))
  {
    hide NameOf, Lookup, PhaseName, WellFormed, MeaningOf;
  }

  lemma ReadsOptional(sp: Spelling, r: Record, o: Orders, j: Json)
    requires Stores(sp, r, o, j) && Spells(sp, r)
    requires r.validUntilBlock.Some? ==> r.validUntilBlock.value > 0
    ensures var ms := j.members;
            && TextAt(ms, RawField) == FoundOf(r.rawTransaction) && TextAt(ms, TxidField) == FoundOf(r.txid)
            && HeightAt(sp, ms) == FoundOf(r.validUntilBlock)
            && ObjectAt(ms, MetadataField) == FoundOf(r.metadata) && ObjectAt(ms, ResultField) == FoundOf(r.result)
            && TextAt(ms, ErrorField) == if r.error.Some? then Here(sp.message(r.error.value)) else Missing
  {
    hide NameOf, Lookup, WellFormed, MeaningOf, ToDecimal;
  }

  function FoundOf<T>(v: Option<T>): Found<T> { if v.Some? then Here(v.value) else Missing }

  lemma ReadsRecord(sp: Spelling, r: Record, o: Orders, j: Json)
    requires Stores(sp, r, o, j) && Spells(sp, r)
    requires r.validUntilBlock.Some? ==> r.validUntilBlock.value > 0
    ensures RecordOf(sp, j.members) == Some(r)
  {
    hide NameOf, Lookup, PhaseNamed, PhaseName, TextAt, ObjectAt, HeightAt, FieldJson, Stores;
    ReadsTexts(sp, r, o, j);
    ReadsOptional(sp, r, o, j);
    PhaseIsNamed(r.phase);
  }

  lemma HeightPositive(sha: Sha256, r: Record, id: Text)
    requires ValidPersisted(sha, r, id)
    ensures r.validUntilBlock.Some? ==> r.validUntilBlock.value > 0
  {
    hide Fingerprint, ValidIntent, ValidRaw, ValidTxid;
  }

  lemma ParsesBack(j: Json)
    requires WellFormed(j)
    ensures Parse(Stringify(j, true)) == Some(j)
  {
    hide Read, Write, WellFormed;
    RoundTrip(j, true);
  }

  /** A record that passes the reader's checks comes back from the indented text of
      its object as the very same record, whatever the order of the members. */
  lemma RecordSurvivesText(sha: Sha256, sp: Spelling, r: Record, o: Orders, j: Json, id: Text)
    requires ValidPersisted(sha, r, id) && Stores(sp, r, o, j) && Spells(sp, r)
    ensures ReadFile(sha, sp, Stringify(j, true), id) == Ok(r)
  {
    HeightPositive(sha, r, id);
    ReadsRecord(sp, r, o, j);
    hide ValidPersisted, RecordOf, Spells, WellFormed, Parse, Stringify;
    ParsesBack(j);
  }

  /** In every run, the file of every record reads back as that record. */
  lemma JournalSurvivesText(sha: Sha256, sp: Spelling, w: World, id: Text, o: Orders, j: Json)
    requires Reached(sha, w) && id in w.journal
    requires Stores(sp, w.journal[id], o, j) && Spells(sp, w.journal[id])
    ensures ReadFile(sha, sp, Stringify(j, true), id) == GetById(sha, w.journal, id) == Ok(w.journal[id])
  {
    hide Reached, ValidPersisted, Stores, Spells, ReadFile, Stringify;
    JournalStaysReadable(sha, w, id);
    RecordSurvivesText(sha, sp, w.journal[id], o, j, id);
  }

  // ----------------------------------------------- every record has an object

  /** The members for some of the fields, in their order. */
  function Listing(sp: Spelling, r: Record, o: Orders, fs: seq<Field>): seq<Member<Json>> {
    if fs == [] then []
    else
      (match FieldJson(sp, r, o, fs[0]) case Some(j) => [Member(NameOf(fs[0]), j)] case None => [])
      + Listing(sp, r, o, fs[1..])
  }

  lemma {:induction false} ListingFinds(sp: Spelling, r: Record, o: Orders, fs: seq<Field>, f: Field)
    requires forall a, b :: NameOf(a) == NameOf(b) ==> a == b
    requires forall i, k :: 0 <= i < k < |fs| ==> fs[i] != fs[k]
    ensures Lookup(Listing(sp, r, o, fs), NameOf(f)) == if f in fs then FieldJson(sp, r, o, f) else None
  {
    hide NameOf, FieldJson;
    if fs != [] {
      ListingFinds(sp, r, o, fs[1..], f);
      var rest := Listing(sp, r, o, fs[1..]);
      var first := FieldJson(sp, r, o, fs[0]);
      if first.Some? {
        var all := [Member(NameOf(fs[0]), first.value)] + rest;
        assert all[0].key == NameOf(fs[0]) && all[1..] == rest;
      } else {
        assert [] + rest == rest;
      }
    }
  }

  lemma {:induction false} ListingDistinct(sp: Spelling, r: Record, o: Orders, fs: seq<Field>)
    requires forall a, b :: NameOf(a) == NameOf(b) ==> a == b
    requires forall i, k :: 0 <= i < k < |fs| ==> fs[i] != fs[k]
    ensures DistinctKeys(Listing(sp, r, o, fs))
    ensures forall k :: 0 <= k < |Listing(sp, r, o, fs)| ==>
              exists f :: f in fs && Listing(sp, r, o, fs)[k].key == NameOf(f)
                          && FieldJson(sp, r, o, f) == Some(Listing(sp, r, o, fs)[k].value)
  {
    hide NameOf, FieldJson;
    if fs != [] {
      ListingDistinct(sp, r, o, fs[1..]);
      var rest := Listing(sp, r, o, fs[1..]);
      var all := Listing(sp, r, o, fs);
      var shift := |all| - |rest|;
      forall k | 0 <= k < |all|
        ensures exists f :: f in fs && all[k].key == NameOf(f) && FieldJson(sp, r, o, f) == Some(all[k].value)
        ensures k >= shift ==> exists f :: f in fs[1..] && all[k].key == NameOf(f)
      {
        if k >= shift {
          assert all[k] == rest[k - shift];
        } else {
          assert fs[0] in fs;
        }
      }
    }
  }

  lemma FieldsWellFormed(sp: Spelling, r: Record, o: Orders, f: Field)
    requires WellFormed(r.intent.payload) && Orderly(r.metadata, o.metadata) && Orderly(r.result, o.result)
    requires r.validUntilBlock.Some? ==> r.validUntilBlock.value > 0
    ensures FieldJson(sp, r, o, f).Some? ==> WellFormed(FieldJson(sp, r, o, f).value)
  {
    hide MeaningOf, PhaseName;
  }

  /** Each record whose parts are JSON has such an object. */
  lemma HasObject(sp: Spelling, r: Record, o: Orders)
    requires WellFormed(r.intent.payload) && Orderly(r.metadata, o.metadata) && Orderly(r.result, o.result)
    requires r.validUntilBlock.Some? ==> r.validUntilBlock.value > 0
    ensures Stores(sp, r, o, Obj(Listing(sp, r, o, FIELDS)))
  {
    var ms := Listing(sp, r, o, FIELDS);
    FieldNamesDiffer();
    hide NameOf, FieldJson, Listing, Lookup, Orderly;
    ListingDistinct(sp, r, o, FIELDS);
    forall f ensures Lookup(ms, NameOf(f)) == FieldJson(sp, r, o, f) {
      ListingFinds(sp, r, o, FIELDS, f);
      AllFields(f);
    }
    forall k | 0 <= k < |ms| ensures WellFormed(ms[k].value) {
      var f :| f in FIELDS && ms[k].key == NameOf(f) && FieldJson(sp, r, o, f) == Some(ms[k].value);
      FieldsWellFormed(sp, r, o, f);
    }
  }

  lemma AllFields(f: Field)
    ensures f in FIELDS
  {
    match f
    case OperationField => assert FIELDS[0] == f;
    case NetworkField => assert FIELDS[1] == f;
    case SignerField => assert FIELDS[2] == f;
    case PayloadField => assert FIELDS[3] == f;
    case IdField => assert FIELDS[4] == f;
    case FingerprintField => assert FIELDS[5] == f;
    case StateField => assert FIELDS[6] == f;
    case CreatedField => assert FIELDS[7] == f;
    case UpdatedField => assert FIELDS[8] == f;
    case RawField => assert FIELDS[9] == f;
    case TxidField => assert FIELDS[10] == f;
    case HeightField => assert FIELDS[11] == f;
    case MetadataField => assert FIELDS[12] == f;
    case ResultField => assert FIELDS[13] == f;
    case ErrorField => assert FIELDS[14] == f;
  }
}
