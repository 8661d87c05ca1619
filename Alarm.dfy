/**
  The alarm record and its JSON decoding (`Alarm.init(from:)`).

  A JSON object is a map from field name to JSON value; a missing field is a
  name that is not in the map and `null` is `JNull`. The decoder reads the
  fields in the order of the source: "id", "title", "desc", the required
  "time", then "alarmRepeats", "alarmEnabled", "alarmSoundName" and
  "alarmSoundEnabled". A present field of the wrong JSON type throws a type
  mismatch; an optional field that is missing or null takes its default; a
  missing "time" throws `keyNotFound`, a null one `valueNotFound`, a time
  string `TimeString` rejects stops the process (`fatalError`), and so does
  the force unwrap of the calendar's date when the hour or the minute is out
  of range.

  The current date and `UUID()` are inputs: `dayStart` is the instant the
  current day starts at, in whole seconds, and `freshId` is the identifier
  a fresh UUID would give.
*/
module AlarmModel {
  import opened Wrappers
  import opened TimeStrings
  import opened TimeIntervals

  datatype Json =
    | JNull
    | JBool(b: bool)
    | JNumber(n: int)
    | JString(s: string)
    | JArray(elements: seq<Json>)
    | JObject(fields: map<string, Json>)

  type JsonObject = map<string, Json>

  /** One alarm; `alarmTime` is an instant in whole seconds. */
  datatype Alarm = Alarm(
    alarmId: string,
    alarmTitle: Option<string>,
    alarmDescription: Option<string>,
    alarmTime: int,
    alarmRepeats: bool,
    alarmEnabled: bool,
    alarmSoundName: Option<string>,
    alarmSoundEnabled: bool)

  /** The document wrapper: an object whose "alarms" field is the list of alarms. */
  datatype Alarms = Alarms(alarms: seq<Alarm>)

  /** The coding keys of `Alarm`. */
  datatype CodingKey =
    | AlarmId | AlarmTitle | AlarmDescription | AlarmTime
    | AlarmRepeats | AlarmEnabled | AlarmSoundName | AlarmSoundEnabled

  /** The JSON field name of each coding key: four are renamed, the rest keep their own names. */
  function KeyName(k: CodingKey): string {
    match k
    case AlarmId => "id"
    case AlarmTitle => "title"
    case AlarmDescription => "desc"
    case AlarmTime => "time"
    case AlarmRepeats => "alarmRepeats"
    case AlarmEnabled => "alarmEnabled"
    case AlarmSoundName => "alarmSoundName"
    case AlarmSoundEnabled => "alarmSoundEnabled"
  }

  /** No two coding keys read the same JSON field. */
  lemma KeyNameInjective(k1: CodingKey, k2: CodingKey)
    requires KeyName(k1) == KeyName(k2)
    ensures k1 == k2
  {
    // the names differ in length or in an early character
    match k1
    case AlarmId =>
    case AlarmTitle => assert KeyName(k2)[0] == 't';
    case AlarmDescription =>
    case AlarmTime => assert KeyName(k2)[0] == 't' && KeyName(k2)[1] == 'i' && KeyName(k2)[2] == 'm';
    case AlarmRepeats => assert KeyName(k2)[5] == 'R';
    case AlarmEnabled => assert KeyName(k2)[5] == 'E';
    case AlarmSoundName => assert |KeyName(k2)| == 14;
    case AlarmSoundEnabled => assert |KeyName(k2)| == 17;
  }

  /** The errors `JSONDecoder` throws. */
  datatype DecodingError = KeyNotFound(key: string) | ValueNotFound(key: string) | TypeMismatch(key: string)

  /** Decoding stops with a thrown error, with the `fatalError` for a time string that does not
      parse, or at the force unwrap of a date the calendar cannot build. */
  datatype DecodeFailure = Thrown(error: DecodingError) | CorruptTime | NoSuchTime

  /** `decodeIfPresent(String.self, forKey:)`. */
  function DecodeStringIfPresent(obj: JsonObject, key: string): Result<Option<string>, DecodingError> {
    if key !in obj then Ok(None)
    else match obj[key]
      case JNull => Ok(None)
      case JString(s) => Ok(Some(s))
      case _ => Err(TypeMismatch(key))
  }

  /** `decodeIfPresent(Bool.self, forKey:)`. */
  function DecodeBoolIfPresent(obj: JsonObject, key: string): Result<Option<bool>, DecodingError> {
    if key !in obj then Ok(None)
    else match obj[key]
      case JNull => Ok(None)
      case JBool(b) => Ok(Some(b))
      case _ => Err(TypeMismatch(key))
  }

  /** `decode(String.self, forKey:)`: the field is required. */
  function DecodeString(obj: JsonObject, key: string): Result<string, DecodingError> {
    if key !in obj then Err(KeyNotFound(key))
    else match obj[key]
      case JNull => Err(ValueNotFound(key))
      case JString(s) => Ok(s)
      case _ => Err(TypeMismatch(key))
  }

  /** The hours, minutes and seconds the calendar can set on a day. */
  predicate IsTimeOfDay(t: TimeString) {
    0 <= t.hour < 24 && 0 <= t.minutes < 60 && 0 <= t.seconds < 60
  }

  /** `Calendar.current.date(bySettingHour:minute:second:of: Date())`, counting from the start of
      the day: nil for a time of day that does not exist. */
  function TimeOnDay(dayStart: int, t: TimeString): Option<int> {
    if IsTimeOfDay(t) then Some(dayStart + t.hour * OneHour + Minutes(t.minutes) + t.seconds) else None
  }

  /** `Alarm.init(from:)`. */
  function DecodeAlarm(obj: JsonObject, freshId: string, dayStart: int): Result<Alarm, DecodeFailure> {
    match DecodeStringIfPresent(obj, KeyName(AlarmId))
    case Err(e) => Err(Thrown(e))
    case Ok(id) =>
    match DecodeStringIfPresent(obj, KeyName(AlarmTitle))
    case Err(e) => Err(Thrown(e))
    case Ok(title) =>
    match DecodeStringIfPresent(obj, KeyName(AlarmDescription))
    case Err(e) => Err(Thrown(e))
    case Ok(desc) =>
    match DecodeString(obj, KeyName(AlarmTime))
    case Err(e) => Err(Thrown(e))
    case Ok(timeText) =>
    match Parse(Some(timeText))
    case None => Err(CorruptTime)
    case Some(time) =>
    match TimeOnDay(dayStart, time)
    case None => Err(NoSuchTime)
    case Some(alarmTime) =>
    match DecodeBoolIfPresent(obj, KeyName(AlarmRepeats))
    case Err(e) => Err(Thrown(e))
    case Ok(repeats) =>
    match DecodeBoolIfPresent(obj, KeyName(AlarmEnabled))
    case Err(e) => Err(Thrown(e))
    case Ok(enabled) =>
    match DecodeStringIfPresent(obj, KeyName(AlarmSoundName))
    case Err(e) => Err(Thrown(e))
    case Ok(soundName) =>
    match DecodeBoolIfPresent(obj, KeyName(AlarmSoundEnabled))
    case Err(e) => Err(Thrown(e))
    case Ok(soundEnabled) =>
    Ok(Alarm(
      id.GetOr(freshId),
      title,
      desc,
      alarmTime,
      repeats.GetOr(true),
      enabled.GetOr(true),
      Some(soundName.GetOr("happybells")),
      soundEnabled.GetOr(true)))
  }

  /** The synthesised decoding of the `Alarms` document: a required "alarms" array of alarm objects.
      `freshIds(i)` is the fresh identifier the `i`-th alarm would receive. */
  function DecodeAlarms(doc: Json, freshIds: nat -> string, dayStart: int): Result<Alarms, DecodeFailure> {
    if !doc.JObject? then Err(Thrown(TypeMismatch("")))
    else if "alarms" !in doc.fields then Err(Thrown(KeyNotFound("alarms")))
    else match doc.fields["alarms"]
      case JNull => Err(Thrown(ValueNotFound("alarms")))
      case JArray(elements) =>
        (match DecodeAlarmList(elements, 0, freshIds, dayStart)
         case Err(e) => Err(e)
         case Ok(list) => Ok(Alarms(list)))
      case _ => Err(Thrown(TypeMismatch("alarms")))
  }

  /** One element of the "alarms" array: an object decoded as an alarm. */
  function DecodeElement(element: Json, freshId: string, dayStart: int): Result<Alarm, DecodeFailure> {
    match element
    case JObject(fields) => DecodeAlarm(fields, freshId, dayStart)
    case _ => Err(Thrown(TypeMismatch("alarms")))
  }

  /** The elements from index `from` on, each decoded by `decode` with its index, in order; the
      first failure stops decoding (the synthesised decoding of an array). */
  function DecodeEach<A>(elements: seq<Json>, from: nat, decode: (Json, nat) -> Result<A, DecodeFailure>): (r: Result<seq<A>, DecodeFailure>)
    requires from <= |elements|
    ensures r.Ok? ==> |r.value| == |elements| - from
    decreases |elements| - from
  {
    if from == |elements| then Ok([])
    else match decode(elements[from], from)
      case Err(e) => Err(e)
      case Ok(a) =>
        match DecodeEach(elements, from + 1, decode)
        case Err(e) => Err(e)
        case Ok(rest) => Ok([a] + rest)
  }

  /** The alarms of the "alarms" array from index `from` on; the `i`-th receives `freshIds(i)`. */
  function DecodeAlarmList(elements: seq<Json>, from: nat, freshIds: nat -> string, dayStart: int): (r: Result<seq<Alarm>, DecodeFailure>)
    requires from <= |elements|
    ensures r.Ok? ==> |r.value| == |elements| - from
  {
    DecodeEach(elements, from, (e: Json, i: nat) => DecodeElement(e, freshIds(i), dayStart))
  }

  // ---------------------------------------------------------------------
  // Properties of the decoder
  // ---------------------------------------------------------------------

  /** An optional string as JSON: `null` for nil. */
  function OptionalString(o: Option<string>): Json {
    match o
    case Some(s) => JString(s)
    case None => JNull
  }

  /** A JSON object written with the renamed keys, nil fields written as `null` and the time as the
      given time string: what `DecodeAlarm` reads back. */
  function AlarmObject(a: Alarm, timeText: string): JsonObject {
    map["id" := JString(a.alarmId),
        "title" := OptionalString(a.alarmTitle),
        "desc" := OptionalString(a.alarmDescription),
        "time" := JString(timeText),
        "alarmRepeats" := JBool(a.alarmRepeats),
        "alarmEnabled" := JBool(a.alarmEnabled),
        "alarmSoundName" := OptionalString(a.alarmSoundName),
        "alarmSoundEnabled" := JBool(a.alarmSoundEnabled)]
  }

  /** Every field is read from its renamed key: decoding an object written with those keys gives
      back the alarm, whatever fresh identifier was on offer. */
  lemma DecodeAlarmObject(a: Alarm, timeText: string, t: TimeString, freshId: string, dayStart: int)
    requires Parse(Some(timeText)) == Some(t)
    requires TimeOnDay(dayStart, t) == Some(a.alarmTime)
    requires a.alarmSoundName.Some?
    ensures DecodeAlarm(AlarmObject(a, timeText), freshId, dayStart) == Ok(a)
  {
    AlarmObjectFields(a, timeText);
  }

  /** What each field reader returns on `AlarmObject(a, timeText)`. */
  lemma AlarmObjectFields(a: Alarm, timeText: string)
    ensures var obj := AlarmObject(a, timeText);
      && DecodeStringIfPresent(obj, KeyName(AlarmId)) == Ok(Some(a.alarmId))
      && DecodeStringIfPresent(obj, KeyName(AlarmTitle)) == Ok(a.alarmTitle)
      && DecodeStringIfPresent(obj, KeyName(AlarmDescription)) == Ok(a.alarmDescription)
      && DecodeString(obj, KeyName(AlarmTime)) == Ok(timeText)
      && DecodeBoolIfPresent(obj, KeyName(AlarmRepeats)) == Ok(Some(a.alarmRepeats))
      && DecodeBoolIfPresent(obj, KeyName(AlarmEnabled)) == Ok(Some(a.alarmEnabled))
      && DecodeStringIfPresent(obj, KeyName(AlarmSoundName)) == Ok(a.alarmSoundName)
      && DecodeBoolIfPresent(obj, KeyName(AlarmSoundEnabled)) == Ok(Some(a.alarmSoundEnabled))
  {
    AlarmObjectFirstFields(a, timeText);
    AlarmObjectLastFields(a, timeText);
  }

  /** The fields read before the flags: "id", "title", "desc" and "time". */
  lemma AlarmObjectFirstFields(a: Alarm, timeText: string)
    ensures var obj := AlarmObject(a, timeText);
      && DecodeStringIfPresent(obj, KeyName(AlarmId)) == Ok(Some(a.alarmId))
      && DecodeStringIfPresent(obj, KeyName(AlarmTitle)) == Ok(a.alarmTitle)
      && DecodeStringIfPresent(obj, KeyName(AlarmDescription)) == Ok(a.alarmDescription)
      && DecodeString(obj, KeyName(AlarmTime)) == Ok(timeText)
  {
    var obj := AlarmObject(a, timeText);
    assert obj["id"] == JString(a.alarmId);
    assert obj["title"] == OptionalString(a.alarmTitle);
    assert obj["desc"] == OptionalString(a.alarmDescription);
    assert obj["time"] == JString(timeText);
  }

  /** The flags and the sound name. */
  lemma AlarmObjectLastFields(a: Alarm, timeText: string)
    ensures var obj := AlarmObject(a, timeText);
      && DecodeBoolIfPresent(obj, KeyName(AlarmRepeats)) == Ok(Some(a.alarmRepeats))
      && DecodeBoolIfPresent(obj, KeyName(AlarmEnabled)) == Ok(Some(a.alarmEnabled))
      && DecodeStringIfPresent(obj, KeyName(AlarmSoundName)) == Ok(a.alarmSoundName)
      && DecodeBoolIfPresent(obj, KeyName(AlarmSoundEnabled)) == Ok(Some(a.alarmSoundEnabled))
  {
    var obj := AlarmObject(a, timeText);
    assert obj["alarmRepeats"] == JBool(a.alarmRepeats);
    assert obj["alarmEnabled"] == JBool(a.alarmEnabled);
    assert obj["alarmSoundName"] == OptionalString(a.alarmSoundName);
    assert obj["alarmSoundEnabled"] == JBool(a.alarmSoundEnabled);
  }

  /** The defaults: an object holding only an accepted "time" decodes to an alarm with the fresh
      identifier, no title or description, repeating, enabled, with sound "happybells" on, unless
      the time of day does not exist. */
  lemma DecodeDefaults(timeText: string, t: TimeString, freshId: string, dayStart: int)
    requires Parse(Some(timeText)) == Some(t)
    ensures DecodeAlarm(map["time" := JString(timeText)], freshId, dayStart)
         == match TimeOnDay(dayStart, t)
            case None => Err(NoSuchTime)
            case Some(alarmTime) => Ok(Alarm(freshId, None, None, alarmTime, true, true, Some("happybells"), true))
  {
    var obj := map["time" := JString(timeText)];
    assert KeyName(AlarmId) !in obj && KeyName(AlarmTitle) !in obj && KeyName(AlarmDescription) !in obj;
    assert KeyName(AlarmRepeats) !in obj && KeyName(AlarmEnabled) !in obj;
    assert KeyName(AlarmSoundName) !in obj && KeyName(AlarmSoundEnabled) !in obj;
  }

  /** A null optional field decodes like a missing one. */
  lemma NullIsMissing(obj: JsonObject, key: string, freshId: string, dayStart: int)
    requires key in obj && obj[key] == JNull && key != KeyName(AlarmTime)
    ensures DecodeAlarm(obj, freshId, dayStart) == DecodeAlarm(obj - {key}, freshId, dayStart)
  {
    var obj' := obj - {key};
    forall k | k != key ensures (k in obj <==> k in obj') && (k in obj ==> obj[k] == obj'[k]) { }
    assert DecodeString(obj, KeyName(AlarmTime)) == DecodeString(obj', KeyName(AlarmTime));
    assert DecodeStringIfPresent(obj, key) == DecodeStringIfPresent(obj', key) == Ok(None);
    assert DecodeBoolIfPresent(obj, key) == DecodeBoolIfPresent(obj', key) == Ok(None);
    forall k | k != key
      ensures DecodeStringIfPresent(obj, k) == DecodeStringIfPresent(obj', k)
      ensures DecodeBoolIfPresent(obj, k) == DecodeBoolIfPresent(obj', k)
    { }
  }

  /** "time" is required: once the three fields read before it are fine, a missing "time" throws
      `keyNotFound`, a null one `valueNotFound`, one `TimeString` rejects stops decoding, and so
      does one whose hour or minute is out of range, before any later field is read. */
  lemma TimeIsRequired(obj: JsonObject, freshId: string, dayStart: int)
    requires DecodeStringIfPresent(obj, "id").Ok?
    requires DecodeStringIfPresent(obj, "title").Ok?
    requires DecodeStringIfPresent(obj, "desc").Ok?
    ensures "time" !in obj ==> DecodeAlarm(obj, freshId, dayStart) == Err(Thrown(KeyNotFound("time")))
    ensures "time" in obj && obj["time"] == JNull ==> DecodeAlarm(obj, freshId, dayStart) == Err(Thrown(ValueNotFound("time")))
    ensures "time" in obj && obj["time"].JString? && Parse(Some(obj["time"].s)).None? ==>
              DecodeAlarm(obj, freshId, dayStart) == Err(CorruptTime)
    ensures "time" in obj && obj["time"].JString? && Parse(Some(obj["time"].s)).Some? &&
            !IsTimeOfDay(Parse(Some(obj["time"].s)).value) ==>
              DecodeAlarm(obj, freshId, dayStart) == Err(NoSuchTime)
  {
  }

  /** A successfully decoded alarm takes its time of day from the parsed time string, at second 0,
      and that time exists on a day. */
  lemma DecodedTime(obj: JsonObject, freshId: string, dayStart: int)
    requires DecodeAlarm(obj, freshId, dayStart).Ok?
    ensures "time" in obj && obj["time"].JString?
    ensures var t := Parse(Some(obj["time"].s));
      && t.Some?
      && 0 <= t.value.hour < 24 && 0 <= t.value.minutes < 60
      && DecodeAlarm(obj, freshId, dayStart).value.alarmTime == dayStart + t.value.hour * 3600 + t.value.minutes * 60
  {
  }

  /** An optional string field is missing, null or a string. */
  predicate StringTyped(obj: JsonObject, key: string) {
    key in obj ==> obj[key].JNull? || obj[key].JString?
  }

  /** An optional flag is missing, null or a boolean. */
  predicate BoolTyped(obj: JsonObject, key: string) {
    key in obj ==> obj[key].JNull? || obj[key].JBool?
  }

  /** A decoded string field: the string when one is present, the default when the field is
      missing or null; any other JSON value makes decoding fail. */
  predicate StringFieldRead(obj: JsonObject, key: string, default: Option<string>, read: Option<string>) {
    && StringTyped(obj, key)
    && (key in obj && obj[key].JString? ==> read == Some(obj[key].s))
    && (key !in obj || obj[key].JNull? ==> read == default)
  }

  /** A decoded flag: the flag when one is present, `true` when the field is missing or null. */
  predicate BoolFieldRead(obj: JsonObject, key: string, read: bool) {
    && BoolTyped(obj, key)
    && (key in obj && obj[key].JBool? ==> read == obj[key].b)
    && (key !in obj || obj[key].JNull? ==> read)
  }

  /** Each optional string field of a decoded alarm, on its own: the identifier defaults to the
      fresh one, the title and description to nil, the sound name to "happybells". */
  lemma DecodedStringFields(obj: JsonObject, freshId: string, dayStart: int)
    requires DecodeAlarm(obj, freshId, dayStart).Ok?
    ensures var a := DecodeAlarm(obj, freshId, dayStart).value;
      && StringFieldRead(obj, "id", Some(freshId), Some(a.alarmId))
      && StringFieldRead(obj, "title", None, a.alarmTitle)
      && StringFieldRead(obj, "desc", None, a.alarmDescription)
      && StringFieldRead(obj, "alarmSoundName", Some("happybells"), a.alarmSoundName)
  {
  }

  /** Each flag of a decoded alarm, on its own: missing or null means `true`. */
  lemma DecodedFlags(obj: JsonObject, freshId: string, dayStart: int)
    requires DecodeAlarm(obj, freshId, dayStart).Ok?
    ensures var a := DecodeAlarm(obj, freshId, dayStart).value;
      && BoolFieldRead(obj, "alarmRepeats", a.alarmRepeats)
      && BoolFieldRead(obj, "alarmEnabled", a.alarmEnabled)
      && BoolFieldRead(obj, "alarmSoundEnabled", a.alarmSoundEnabled)
  {
  }

  /** Decoding an array succeeds only when every element decodes, and then result `i` is what
      element `i` decodes to. */
  lemma {:induction false} DecodeEachElement<A>(elements: seq<Json>, from: nat, decode: (Json, nat) -> Result<A, DecodeFailure>, i: nat)
    requires from <= i < |elements|
    requires DecodeEach(elements, from, decode).Ok?
    ensures decode(elements[i], i) == Ok(DecodeEach(elements, from, decode).value[i - from])
    decreases i - from
  {
    var list := DecodeEach(elements, from, decode).value;
    if i > from {
      DecodeEachElement(elements, from + 1, decode, i);
      assert list[1..][i - (from + 1)] == list[i - from];
    }
  }

  /** Decoding a document yields one alarm per element: every element is an object, and alarm `i`
      is element `i` decoded with the `i`-th fresh identifier. */
  lemma DecodeAlarmListElement(elements: seq<Json>, freshIds: nat -> string, dayStart: int, i: nat)
    requires i < |elements|
    requires DecodeAlarmList(elements, 0, freshIds, dayStart).Ok?
    ensures elements[i].JObject?
    ensures DecodeAlarm(elements[i].fields, freshIds(i), dayStart) == Ok(DecodeAlarmList(elements, 0, freshIds, dayStart).value[i])
  {
    var decode := (e: Json, j: nat) => DecodeElement(e, freshIds(j), dayStart);
    DecodeEachElement(elements, 0, decode, i);
    assert decode(elements[i], i) == DecodeElement(elements[i], freshIds(i), dayStart);
  }

  /** The converse of the field lemmas: an object whose optional fields are each missing, null or
      of their type, and whose "time" parses to a time of day that exists, decodes to an alarm. */
  lemma WellTypedObjectDecodes(obj: JsonObject, freshId: string, dayStart: int)
    requires StringTyped(obj, "id") && StringTyped(obj, "title") && StringTyped(obj, "desc")
    requires StringTyped(obj, "alarmSoundName")
    requires BoolTyped(obj, "alarmRepeats") && BoolTyped(obj, "alarmEnabled") && BoolTyped(obj, "alarmSoundEnabled")
    requires "time" in obj && obj["time"].JString?
    requires Parse(Some(obj["time"].s)).Some? && IsTimeOfDay(Parse(Some(obj["time"].s)).value)
    ensures DecodeAlarm(obj, freshId, dayStart).Ok?
  {
  }
}
