# TradeAlarm core, modelled in Dafny

TradeAlarm is an iOS alarm app for trading days. Its only substantial piece
of logic is a type-keyed service registry, `InjectedValues`. The registry
stores one value per type name and holds the publisher slots that keep a
container's streams alive when the container is replaced. While a type is
missing, readers wait on a per-key `InjectionQueue`. The registry is built
on `AtomicDictionary`, a map class. Around them sit some small pieces of the
app:

- the `TimeString` parser;
- the `Alarm` JSON decoder and its defaults;
- the alarm selections of `DataManager`;
- the foreground-status state machine of `AppLifecycleManager`;
- the `TimeInterval` unit helpers.

The project has these modules, one per file:

| file | module | models |
|---|---|---|
| Wrappers.dfy | `Wrappers` | `Option` (Swift's optional), `Outcome` and `Result` |
| Text.dfy | `Text` | `components(separatedBy:)` and `Int(_: String)` |
| TimeString.dfy | `TimeStrings` | `TimeString.init?(with:)`, as written and as intended |
| TimeInterval.dfy | `TimeIntervals` | `oneMinute`, `oneHour` and `minutes(_:)`, in whole seconds |
| Alarm.dfy | `AlarmModel` | `Alarm`, `Alarms`, `CodingKeys` and `Alarm.init(from:)` |
| DataManager.dfy | `DataManagers` | the selections as functions; the manager as a class with `alarms` and its `didSet` observer |
| AppLifecycleManager.dfy | `Lifecycle` | the status mapping; the manager as a class with the status, the event log and one handler per notification |
| AtomicDictionary.dfy | `AtomicDictionaries` | `AtomicDictionary` as a class over one `map` field |
| Injection.dfy | `Injection` | the registry's state as a value, and each operation as a function from the old state to an outcome and a new state, with the lemmas |
| InjectedValues.dfy | `InjectedValuesRegistry` | `InjectedValues`, `InjectionQueue` and `ValuePublisher` as classes; each method is proved equal to the matching function of `Injection` |

In the registry model:

- A type is known by its name, which is also its key.
- A candidate value is a record: is it `Injectable`? does it cast to
  `AnyObject`? is it an `InjectableContainer`? is it an `InjectionError`?
  It also lists the kinds of its stored properties in declaration order.
- A publisher slot holds the identifiers of the subjects it has held.
- A `switchToLatests` entry is the key of the slot whose stream it flattens.
- A queue is its `isSuspended` flag.
- `fatalError` and the traps of force unwraps are *abort* outcomes. The
  process ends there, so nothing is promised about the state after one.

Inputs stand in for the environment:

- the debug mode flag;
- the current instant `now`, and the instant the current day starts;
- whether today is a trading day;
- the fresh UUID a decoded alarm without an id receives.

Some behaviours of the registry's source are easy to misread:

- A resumed `InjectionQueue` is reused. `Injected.wrappedValue` only creates
  a queue when none exists for the key. A later miss on that key therefore
  does not block: it force-unwraps nil and stops the process.
- In debug mode a missing value aborts at once, before any queue is made.
- In debug mode the subscript setter overwrites an existing value. Only
  `insert` returns the existing value.
- `insert` stores a value but resumes no queue; only the setter resumes.

## Model

| member | source | states |
|---|---|---|
| Text.Split | TradingAlarm/Data/Models/TimeString.swift:16 | splitting on ':' always yields at least one piece |
| Text.SplitPiecesAreFree | TradingAlarm/Data/Models/TimeString.swift:16 | no piece contains the separator |
| Text.JoinSplit | TradingAlarm/Data/Models/TimeString.swift:16 | joining the pieces with the separator gives back the string |
| Text.SplitJoin | TradingAlarm/Data/Models/TimeString.swift:16 | splitting separator-free pieces joined by the separator gives back the pieces |
| Text.JoinThree | TradingAlarm/Data/Models/TimeString.swift:16 | three pieces join with one separator between each pair |
| Text.ParseInt | TradingAlarm/Data/Models/TimeString.swift:19 | `Int(_:)` accepts only non-empty text within the 64-bit range, and never text with a colon |
| Text.ParseIntOfDigits | TradingAlarm/Data/Models/TimeString.swift:19 | a string of digits reads as its decimal value |
| Text.Decimal | TradingAlarm/Data/Models/TimeString.swift:19 | the decimal spelling of a number is non-empty and made of digits |
| Text.DigitsValueOfDecimal | TradingAlarm/Data/Models/TimeString.swift:19 | the digits of a number's decimal spelling have that number as their value |
| Text.ParseIntOfDecimal | TradingAlarm/Data/Models/TimeString.swift:19 | `Int(_:)` reads back every in-range number written in decimal |
| Text.ParseIntOfNegativeDecimal | TradingAlarm/Data/Models/TimeString.swift:19 | a '-' followed by a decimal reads as the negated number |
| TimeStrings.DropLast | TradingAlarm/Data/Models/TimeString.swift:16 | `dropLast()` removes exactly the last piece, and nothing from an empty sequence |
| TimeStrings.CompactMapInts | TradingAlarm/Data/Models/TimeString.swift:19 | `compactMap` keeps at most one integer per piece, and one for every piece exactly when every piece reads as an integer |
| TimeStrings.Parse | TradingAlarm/Data/Models/TimeString.swift:13-25 | the intended initialiser: a result always has seconds 0 and comes from a string with exactly two colons |
| TimeStrings.ParseAsWritten | TradingAlarm/Data/Models/TimeString.swift:13-25 | the initialiser as written, with the index trap; related to Parse by AsWrittenAgreesWhenNoTrap and AsWrittenTrapsOnNonNumericPiece |
| TimeStrings.CompactMapTwo | TradingAlarm/Data/Models/TimeString.swift:19 | two pieces give two integers exactly when both read as integers, in order |
| TimeStrings.PiecesOfTime | TradingAlarm/Data/Models/TimeString.swift:16 | `H:M:X` splits into its three parts, and dropping the last leaves `[H, M]` |
| TimeStrings.ParseSound | TradingAlarm/Data/Models/TimeString.swift:16-24 | every accepted string has the shape `H:M:X`, and the result is hour `Int(H)`, minutes `Int(M)`, seconds 0 |
| TimeStrings.ParseComplete | TradingAlarm/Data/Models/TimeString.swift:16-24 | every `H:M:X` with integer H and M is accepted with that hour and minute and seconds 0, whatever X says |
| TimeStrings.ParseRejectsOtherShapes | TradingAlarm/Data/Models/TimeString.swift:16-17 | any number of colons other than two gives nil, so "H:M" and "1:2:3:4" are rejected |
| TimeStrings.AsWrittenAgreesWhenNoTrap | TradingAlarm/Data/Models/TimeString.swift:13-25 | wherever the initialiser as written does not trap, it gives what the intended one gives, nil input included |
| TimeStrings.AsWrittenTrapsOnNonNumericPiece | TradingAlarm/Data/Models/TimeString.swift:19-23 | a well-shaped string with a non-numeric hour or minute makes the code as written index past the end of `intArr` |
| TimeStrings.AsWrittenTrapExample | TradingAlarm/Data/Models/TimeString.swift:19-23 | "ab:00:00" traps as written and is rejected by the intended parser |
| TimeStrings.ParseNineOClock | TradingAlarmTests/TradingAlarmTests.swift:24 | "9:00:00" reads as 9 h 00 |
| TimeStrings.ParseTwoSeventeen | TradingAlarmTests/TradingAlarmTests.swift:25 | "02:17:00" reads as 2 h 17 |
| TimeStrings.ParseFourTwenty | TradingAlarmTests/TradingAlarmTests.swift:27 | "04:20:00" parses, and its hour is not 12 |
| TimeIntervals.OneHourIsThreeThousandSixHundredSeconds | TradingAlarm/Extensions/TimeIntervalExtensions.swift:12-13 | a minute is 60 seconds and an hour 3600 |
| TimeIntervals.MinutesAdditive | TradingAlarm/Extensions/TimeIntervalExtensions.swift:15-17 | `minutes(a + b) == minutes(a) + minutes(b)` |
| TimeIntervals.MinutesOfAnHour | TradingAlarm/Extensions/TimeIntervalExtensions.swift:13-17 | `minutes(60)` is `oneHour` and `minutes(1)` is `oneMinute` |
| TimeIntervals.MinutesStrictlyMonotonic | TradingAlarm/Extensions/TimeIntervalExtensions.swift:15-17 | more minutes give a strictly longer interval |
| TimeIntervals.Minutes | TradingAlarm/Extensions/TimeIntervalExtensions.swift:15-17 | `minutes(_:)` in whole seconds; its properties are MinutesAdditive, MinutesOfAnHour and MinutesStrictlyMonotonic |
| AlarmModel.KeyNameInjective | TradingAlarm/Data/Models/Alarm.swift:25-34 | no two coding keys read the same JSON field |
| AlarmModel.AlarmObjectFields | TradingAlarm/Data/Models/Alarm.swift:25-34 | each field is read from its renamed key ("id", "title", "desc", "time") or its own name |
| AlarmModel.DecodeAlarmObject | TradingAlarm/Data/Models/Alarm.swift:36-52 | an alarm written with the renamed keys, whose time string parses to a time of day that exists, decodes back to itself, whatever fresh id is on offer |
| AlarmModel.DecodeDefaults | TradingAlarm/Data/Models/Alarm.swift:39-51 | an object holding only an accepted "time" decodes to the fresh id, no title or description, repeating, enabled, sound "happybells" on, or stops at the force unwrap when that time of day does not exist |
| AlarmModel.NullIsMissing | TradingAlarm/Data/Models/Alarm.swift:39-51 | an optional field set to null decodes as if missing |
| AlarmModel.TimeIsRequired | TradingAlarm/Data/Models/Alarm.swift:43-46 | a missing "time" throws `keyNotFound`, a null one `valueNotFound`, a string `TimeString` rejects stops the process, and so does an hour or minute out of range, before any later field is read |
| AlarmModel.DecodedTime | TradingAlarm/Data/Models/Alarm.swift:43-46 | a decoded alarm's hour is in 0...23 and its minute in 0...59, and its time is the day start plus that hour and minute, at second 0 |
| AlarmModel.DecodedStringFields | TradingAlarm/Data/Models/Alarm.swift:39-41 | each optional string field of a decoded alarm, on its own: a string present is taken, missing or null gives its default (the fresh id, nil, nil, "happybells"), and no other JSON value decodes |
| AlarmModel.DecodedFlags | TradingAlarm/Data/Models/Alarm.swift:48-51 | each flag of a decoded alarm, on its own: a boolean present is taken, missing or null gives `true`, and no other JSON value decodes |
| AlarmModel.WellTypedObjectDecodes | TradingAlarm/Data/Models/Alarm.swift:36-52 | conversely, an object whose optional fields are each missing, null or of their type, and whose "time" parses to a time of day that exists, decodes |
| AlarmModel.DecodeAlarm | TradingAlarm/Data/Models/Alarm.swift:36-52 | the decoder itself: fields in source order, each failure where the source fails; its properties are the lemmas above |
| AlarmModel.TimeOnDay | TradingAlarm/Data/Models/Alarm.swift:46 | the calendar's date on the current day: nil for an hour outside 0...23, a minute outside 0...59 or a second outside 0...59 |
| AlarmModel.DecodeAlarms | TradingAlarm/Data/Models/Alarm.swift:10-12 | the document decoder: a required "alarms" array; its properties are DecodeAlarmList and DecodeAlarmListElement |
| AlarmModel.AlarmObjectFirstFields | TradingAlarm/Data/Models/Alarm.swift:26-29 | "id", "title", "desc" and "time" are read from their renamed keys |
| AlarmModel.AlarmObjectLastFields | TradingAlarm/Data/Models/Alarm.swift:30-33 | the flags and the sound name are read from their own names |
| AlarmModel.DecodeEach | TradingAlarm/Data/Models/Alarm.swift:10-12 | a decoded array has one result per element |
| AlarmModel.DecodeEachElement | TradingAlarm/Data/Models/Alarm.swift:10-12 | an array decodes only when every element does, and result `i` is what element `i` decodes to |
| AlarmModel.DecodeAlarmList | TradingAlarm/Data/Models/Alarm.swift:10-12 | a decoded document has one alarm per element |
| AlarmModel.DecodeAlarmListElement | TradingAlarm/Data/Models/Alarm.swift:10-12 | every element of a decoded document is an object, and alarm `i` is element `i` decoded with the `i`-th fresh id |
| DataManagers.Filter | TradingAlarm/DataManager.swift:61 | `filter` keeps only elements that satisfy the predicate and is never longer than its input |
| DataManagers.FilterMembers | TradingAlarm/DataManager.swift:61 | an element is in the filter exactly when it is in the input and satisfies the predicate |
| DataManagers.FilterConcat | TradingAlarm/DataManager.swift:61 | filtering keeps the order: it distributes over concatenation |
| DataManagers.FilterPartition | TradingAlarm/DataManager.swift:39-51 | a predicate and its negation split a list with nothing lost or counted twice |
| DataManagers.EnabledAlarms | TradingAlarm/DataManager.swift:60-62 | `enabledAlarms`; EnabledAlarmsExactly states what it holds |
| DataManagers.InactiveDailyAlarms | TradingAlarm/DataManager.swift:39-41 | `inactiveDailyAlarms` at one instant; EnabledSplitsIntoInactiveAndFuture states what it holds |
| DataManagers.FutureAlarms | TradingAlarm/DataManager.swift:51 | the future alarms at one instant; EnabledSplitsIntoInactiveAndFuture states what they are |
| DataManagers.LastDeliveredAlarm | TradingAlarm/DataManager.swift:44-46 | `lastDeliveredAlarm`; LastDeliveredIsPastAndEnabled and LastDeliveredAfterAppend state what it is |
| DataManagers.ActiveDailyAlarms | TradingAlarm/DataManager.swift:50-57 | `activeDailyAlarms` at one instant; ActiveDailyAlarmsShape states its shape |
| DataManagers.UpdatedWith | TradingAlarm/DataManager.swift:131-134 | the list `updateAlarmWith` writes; UpdatedWithReplacesFirstMatch and FetchAfterUpdate state what it is |
| DataManagers.EnabledAlarmsExactly | TradingAlarm/DataManager.swift:60-62 | `enabledAlarms` holds exactly the enabled alarms, in their original order |
| DataManagers.EnabledSplitsIntoInactiveAndFuture | TradingAlarm/DataManager.swift:39-51 | `inactiveDailyAlarms` holds the enabled alarms before now, the future alarms those at or after now, and together they are all the enabled alarms |
| DataManagers.LastDeliveredIsPastAndEnabled | TradingAlarm/DataManager.swift:44-46 | `lastDeliveredAlarm` is nil exactly when no enabled alarm is past; otherwise it is an enabled past alarm of the list |
| DataManagers.LastDeliveredAfterAppend | TradingAlarm/DataManager.swift:44-46 | "last" is last in list order: appending an enabled past alarm makes it the answer, and appending any other alarm changes nothing |
| DataManagers.ActiveDailyAlarmsShape | TradingAlarm/DataManager.swift:50-57 | `activeDailyAlarms` is the future alarms in order, followed by the last delivered alarm when there is one |
| DataManagers.FirstIndexWithId | TradingAlarm/DataManager.swift:132 | `firstIndex(where:)` finds an index holding the id with none before it, or nil when no alarm has the id |
| DataManagers.FirstIndexIsTheFirstMatch | TradingAlarm/DataManager.swift:132 | any index holding the id with none before it is the one found |
| DataManagers.FetchAlarmWith | TradingAlarm/DataManager.swift:127-129 | `fetchAlarmWith(id:)` finds something exactly when some alarm has the id, and returns the first such alarm |
| DataManagers.UpdatedWithReplacesFirstMatch | TradingAlarm/DataManager.swift:131-134 | the update keeps the length, replaces only the first alarm with the id, and changes nothing when none has it |
| DataManagers.FetchAfterUpdate | TradingAlarm/DataManager.swift:127-134 | after an update, fetching by that id gives the updated alarm |
| DataManagers.DataManager.constructor | TradingAlarm/DataManager.swift:20-24 | a new manager has its mode, no alarms and nothing scheduled |
| DataManagers.DataManager.DidSetAlarms | TradingAlarm/DataManager.swift:25-30 | the observer schedules `activeDailyAlarms` exactly when the day is a trading day and the mode is `.production` |
| DataManagers.DataManager.SetAlarms | TradingAlarm/DataManager.swift:24-30 | assigning `alarms` stores them and runs the observer on the new list |
| DataManagers.DataManager.FetchAlarm | TradingAlarm/DataManager.swift:127-129 | a fetched alarm has the id and is one of the stored alarms |
| DataManagers.DataManager.UpdateAlarmWith | TradingAlarm/DataManager.swift:131-134 | the stored list becomes the updated list; with no match nothing is written and nothing scheduled, otherwise the observer runs |
| Lifecycle.StatusOfCases | TradingAlarm/AppLifecycleManager.swift:162-172 | the state mapping is total: only `.active` gives `.foreground`, only `.inactive` gives `.foregroundInactive`, and every other state gives `.background` |
| Lifecycle.StatusOf | TradingAlarm/AppLifecycleManager.swift:162-172 | `AppForegroundStatus.init(_:)`; StatusOfCases states the mapping |
| Lifecycle.Step | TradingAlarm/AppLifecycleManager.swift:85-136 | one observer run on the status; ReplayIsLastSetStatus relates it to the events |
| Lifecycle.Replay | TradingAlarm/AppLifecycleManager.swift:81-137 | the status after a run of notifications; ReplayIsLastSetStatus and ReplayIgnoresNonSetting state what it is |
| Lifecycle.EventsOf | TradingAlarm/AppLifecycleManager.swift:85-136 | each notification delivered sends exactly one event, its own |
| Lifecycle.EventMatchesStatus | TradingAlarm/AppLifecycleManager.swift:85-136 | every observer sends the event that stands for the status it sets, and none sends `.applicationWillRestoreFromBluetooth` |
| Lifecycle.ReplayIsLastSetStatus | TradingAlarm/AppLifecycleManager.swift:81-137 | the status after any run of notifications is the one set by the last status-setting event sent, or `.background` |
| Lifecycle.ReplayIgnoresNonSetting | TradingAlarm/AppLifecycleManager.swift:96-136 | will-enter-foreground and will-terminate leave the status alone wherever they arrive |
| Lifecycle.AppLifecycleManager.constructor | TradingAlarm/AppLifecycleManager.swift:81-137 | a new manager is in the background, has sent nothing, and has its five observers in order |
| Lifecycle.AppLifecycleManager.SendAppLifecycleEvent | TradingAlarm/AppLifecycleManager.swift:76-78 | the event is appended to the stream; the status then still matches the stream when the event sets no status or the status it already has, and otherwise no longer does |
| Lifecycle.AppLifecycleManager.DidBecomeActive | TradingAlarm/AppLifecycleManager.swift:92-93 | in any state, the status becomes `.foreground`, `.applicationDidBecomeActive` is sent, and the status matches the stream again |
| Lifecycle.AppLifecycleManager.WillEnterForeground | TradingAlarm/AppLifecycleManager.swift:103 | in any state, `.applicationWillEnterForeground` is sent and the status is unchanged, so a status that matched the stream still does |
| Lifecycle.AppLifecycleManager.WillResignActive | TradingAlarm/AppLifecycleManager.swift:113-114 | in any state, the status becomes `.foregroundInactive`, `.applicationWillResignActive` is sent, and the status matches the stream again |
| Lifecycle.AppLifecycleManager.DidEnterBackground | TradingAlarm/AppLifecycleManager.swift:124-125 | in any state, the status becomes `.background`, `.applicationDidEnterBackground` is sent, and the status matches the stream again |
| Lifecycle.AppLifecycleManager.WillTerminate | TradingAlarm/AppLifecycleManager.swift:135 | in any state, `.applicationWillTerminate` is sent and the status is unchanged, so a status that matched the stream still does |
| Lifecycle.AppLifecycleManager.Receive | TradingAlarm/AppLifecycleManager.swift:85-136 | delivering a notification in any state runs its observer: the status takes one `Step` and the notification's event is sent; afterwards the status matches the stream when the observer sets a status or it matched before |
| AtomicDictionaries.PairsToMapLaterWins | TradingAlarm/AtomicDictionary.swift:88-93 | a literal's dictionary has exactly the keys of its pairs, and a repeated key takes the later pair's value |
| AtomicDictionaries.AtomicDictionary.constructor | TradingAlarm/AtomicDictionary.swift:20 | `init()` is empty |
| AtomicDictionaries.AtomicDictionary.FromMap | TradingAlarm/AtomicDictionary.swift:22-24 | `init(_:)` holds the given dictionary |
| AtomicDictionaries.AtomicDictionary.FromLiteral | TradingAlarm/AtomicDictionary.swift:88-93 | the literal initialiser stores the pairs one by one, in order |
| AtomicDictionaries.AtomicDictionary.Get | TradingAlarm/AtomicDictionary.swift:26-31 | the getter gives the stored value, or nil exactly when the key is absent |
| AtomicDictionaries.AtomicDictionary.Keys | TradingAlarm/AtomicDictionary.swift:45-49 | `keys`; KeysAndValuesExact states what it holds |
| AtomicDictionaries.AtomicDictionary.Values | TradingAlarm/AtomicDictionary.swift:39-43 | `values`, as a set; KeysAndValuesExact states what it holds |
| AtomicDictionaries.AtomicDictionary.Set | TradingAlarm/AtomicDictionary.swift:32-36 | afterwards the key reads back the assigned value (nil removes it), and no other key changes |
| AtomicDictionaries.AtomicDictionary.Merge | TradingAlarm/AtomicDictionary.swift:55-61 | absent keys are added with the other value; keys present in both keep the first value |
| AtomicDictionaries.AtomicDictionary.RemoveValue | TradingAlarm/AtomicDictionary.swift:70-74 | returns the previous value (nil if absent); the key is absent afterwards and nothing else changes |
| AtomicDictionaries.AtomicDictionary.RemoveAll | TradingAlarm/AtomicDictionary.swift:76-80 | afterwards the dictionary and its keys are empty |
| AtomicDictionaries.AtomicDictionary.Copy | TradingAlarm/AtomicDictionary.swift:82-84 | the copy is a new object with the same contents |
| AtomicDictionaries.KeysAndValuesExact | TradingAlarm/AtomicDictionary.swift:39-49 | `keys` holds exactly the keys that read a value, and `values` exactly the values some key reads |
| AtomicDictionaries.CopyThenSet | TradingAlarm/AtomicDictionary.swift:82-84 | writing to a copy leaves the original unchanged |
| Injection.PublisherKey | TradingAlarm/Injection.swift:12-14 | the publisher key is the property name, owner type and publisher type, joined by '-' |
| Injection.PublisherKeyInjective | TradingAlarm/Injection.swift:12-14 | when no part contains '-', the key determines all three parts |
| Injection.AppId | TradingAlarm/Injection.swift:32-43 | `appId` is between 0 and 3 |
| Injection.AppIdIdentifiesCase | TradingAlarm/Injection.swift:32-43 | `appId` tells the four cases apart, and nothing more |
| Injection.CheckChild | TradingAlarm/Injection.swift:170-177 | a property fails exactly when it is a raw publisher, or a registrable one outside a container |
| Injection.CheckChildrenFirstOffender | TradingAlarm/Injection.swift:167-178 | the properties pass exactly when none offends; otherwise the first offender's error is thrown, the container test before the publisher test |
| Injection.ValidationOrder | TradingAlarm/Injection.swift:161-179 | nil passes; a non-`Injectable` fails `classNotInjectable` first; a non-object passes; otherwise the properties decide |
| Injection.Validation | TradingAlarm/Injection.swift:161-179 | `assertInjectable(_:)` as a function; ValidationOrder and CheckChildrenFirstOffender state its order |
| Injection.Sources | TradingAlarm/Injection.swift:283-294 | a slot's history starts with the subject it was created with |
| Injection.Current | TradingAlarm/Injection.swift:285-288 | a slot's current subject is the last it has held |
| Injection.EmptyRegistryInv | TradingAlarm/Injection.swift:92-100 | the empty registry keeps the invariant |
| Injection.Get | TradingAlarm/Injection.swift:182-189 | the getter finds a value exactly when one is stored under the key, and returns it |
| Injection.CountMocks | TradingAlarm/Injection.swift:113-117 | the count never exceeds the number of keys |
| Injection.CountMocksIsNumberOfMockKeys | TradingAlarm/Injection.swift:113-117 | `mockCount` is the number of keys starting with "Mock", whatever order `reduce` visits them in |
| Injection.IsMockedIffMockCountPositive | TradingAlarm/Injection.swift:105-117 | `isMocked` holds exactly when `mockCount > 0` |
| Injection.IsMocked | TradingAlarm/Injection.swift:106-110 | `isMocked`; IsMockedIffMockCountPositive relates it to the count |
| Injection.MockCount | TradingAlarm/Injection.swift:113-117 | `mockCount`; CountMocksIsNumberOfMockKeys states what it counts |
| Injection.EmbedPublisher | TradingAlarm/Injection.swift:278-295 | after a registration the slot exists and its current subject is the one registered; no other slot changes |
| Injection.RegisterSwitchToLatest | TradingAlarm/Injection.swift:301-307 | a flattened stream is registered once: the first registration wins and is never replaced |
| Injection.SendKeepsNoRepeats | TradingAlarm/Injection.swift:286-290 | sending a subject other than the current one appends it and keeps the slot free of repeats |
| Injection.EmbedPublisherSlots | TradingAlarm/Injection.swift:283-294 | the first registration stores the subject; a later one sends it only when its id differs; a slot never holds the same subject twice in a row |
| Injection.RegisterStreamKeepsInv | TradingAlarm/Injection.swift:514-523 | a property fails to register exactly when it is a `ValuePublisher` with no initial value; otherwise the invariant holds, the slot holds its subject, and no flattened stream is replaced |
| Injection.RegisterStream | TradingAlarm/Injection.swift:514-523 | registering one stream property; RegisterStreamKeepsInv states when it fails and what it keeps |
| Injection.RegisterChildrenFails | TradingAlarm/Injection.swift:56-63 | registering a container fails exactly when one of its `ValuePublisher` properties has no initial value |
| Injection.RegisterChildrenKeepsInv | TradingAlarm/Injection.swift:56-63 | registering a container keeps the invariant, leaves values and queues alone, and replaces no flattened stream |
| Injection.RegisterChildren | TradingAlarm/Injection.swift:56-63 | registering a container's properties in order; RegisterChildrenFails and RegisterChildrenKeepsInv state what it does |
| Injection.StoredValues | TradingAlarm/Injection.swift:213 | storing puts the value under its key, nil removes the key, and no other key changes |
| Injection.StoreSpec | TradingAlarm/Injection.swift:210-214 | the store step; SetValidatesStoresResumes states what it does |
| Injection.SetSpec | TradingAlarm/Injection.swift:190-215 | the setter on the registry state; ReleaseSetOnOccupiedKeyIsIgnored, InjectionErrorSetIsIgnored and SetValidatesStoresResumes state its cases |
| Injection.ReleaseSetOnOccupiedKeyIsIgnored | TradingAlarm/Injection.swift:194-196 | in release mode, assigning to an occupied key changes nothing: no validation, no registration, no resume |
| Injection.InjectionErrorSetIsIgnored | TradingAlarm/Injection.swift:192 | assigning an `InjectionError` while anything is registered changes nothing |
| Injection.SetValidatesStoresResumes | TradingAlarm/Injection.swift:198-214 | otherwise the setter validates (a failure stops the process), registers the container, stores the value (overwriting in debug mode), then resumes that key's queue; nothing else changes |
| Injection.InsertOnOccupiedKey | TradingAlarm/Injection.swift:225-234 | on an occupied key the factory is not called; debug mode returns the stored value, release mode throws `alreadyInjected` with the key |
| Injection.InsertOnFreeKey | TradingAlarm/Injection.swift:236-258 | on a free key the factory is called; the value is validated, registered, stored and returned, and no queue is resumed; an `InjectionError` while anything is registered is dropped and nil returned |
| Injection.InsertSpec | TradingAlarm/Injection.swift:225-259 | `insert` on the registry state; InsertOnOccupiedKey and InsertOnFreeKey state its cases |
| Injection.InsertForDebugModes | TradingAlarm/Injection.swift:268-274 | in release mode nil is returned without calling the factory or changing anything; in debug mode it is `insert` |
| Injection.InsertForDebugSpec | TradingAlarm/Injection.swift:268-274 | `insertForDebug` on the registry state; InsertForDebugModes states its cases |
| Injection.ResolveCreatesQueueOnce | TradingAlarm/Injection.swift:316-334 | a read returns the stored value and changes nothing; a debug-mode miss aborts and changes nothing; a release-mode miss with no queue waits on a new suspended queue for its key; only that queue is ever added, and a second read finds it and changes nothing more |
| Injection.ResolveSpec | TradingAlarm/Injection.swift:314-334 | the read on the registry state; ResolveCreatesQueueOnce states its cases |
| Injection.StoredValueReachesWaitingReader | TradingAlarm/Injection.swift:324-340 | a reader left waiting is resumed by the next assignment to its key, and its read finds the value |
| Injection.NilAssignmentStrandsReaders | TradingAlarm/Injection.swift:336-340 | assigning nil to a key with a waiting reader resumes its queue with nothing stored, so the read and every later read of that key stop the process |
| Injection.OperationsKeepInv | TradingAlarm/Injection.swift:182-259 | the setter, `insert`, `insertForDebug` and resolution all keep the invariant |
| InjectedValuesRegistry.AssertInjectable | TradingAlarm/Injection.swift:161-179 | the loop over the properties throws what the validation function says |
| InjectedValuesRegistry.InjectionQueue.constructor | TradingAlarm/Injection.swift:66-79 | a new queue is suspended |
| InjectedValuesRegistry.InjectionQueue.Resume | TradingAlarm/Injection.swift:81-86 | afterwards the queue is not suspended, whatever it was before |
| InjectedValuesRegistry.InjectedValues.constructor | TradingAlarm/Injection.swift:92-100 | the registry starts empty and keeps the invariant |
| InjectedValuesRegistry.InjectedValues.Get | TradingAlarm/Injection.swift:182-189 | the getter is the exact-key lookup; `InjectedOrNil.wrappedValue` is the same read |
| InjectedValuesRegistry.InjectedValues.RegisterEmbeddedPublisher | TradingAlarm/Injection.swift:278-295 | the slots become what `EmbedPublisher` says |
| InjectedValuesRegistry.InjectedValues.RegisterSwitchToLatest | TradingAlarm/Injection.swift:301-307 | the flattened streams become what the first-wins registration says |
| InjectedValuesRegistry.InjectedValues.RegisterPublisherAndSwitchToLatest | TradingAlarm/Injection.swift:514-523 | registering a property traps or updates the state exactly as `RegisterStream` says |
| InjectedValuesRegistry.InjectedValues.ForceRegisterValuePublishers | TradingAlarm/Injection.swift:56-63 | the loop registers the properties in declaration order, as `RegisterChildren` says |
| InjectedValuesRegistry.InjectedValues.Set | TradingAlarm/Injection.swift:190-215 | the setter's outcome and new state are those of `SetSpec`, and the invariant is kept |
| InjectedValuesRegistry.InjectedValues.Store | TradingAlarm/Injection.swift:210-214 | the store step's outcome and new state are those of `StoreSpec` |
| InjectedValuesRegistry.InjectedValues.StoreValue | TradingAlarm/Injection.swift:213 | the values become `StoredValues` of the old ones |
| InjectedValuesRegistry.InjectedValues.ResumeQueue | TradingAlarm/Injection.swift:214 | only the key's own queue, if it has one, stops being suspended |
| InjectedValuesRegistry.InjectedValues.Insert | TradingAlarm/Injection.swift:225-259 | `insert`'s outcome, factory call and new state are those of `InsertSpec` |
| InjectedValuesRegistry.InjectedValues.InsertForDebug | TradingAlarm/Injection.swift:268-274 | `insertForDebug`'s outcome, factory call and new state are those of `InsertForDebugSpec` |
| InjectedValuesRegistry.InjectedValues.Resolve | TradingAlarm/Injection.swift:314-334 | the read's outcome and new state are those of `ResolveSpec`; an existing queue object is reused; a waiting reader waits on a suspended queue |
| InjectedValuesRegistry.InjectedValues.ReadAfterResume | TradingAlarm/Injection.swift:337-340 | the read after a resume finds the stored value, or stops the process |
| InjectedValuesRegistry.RegisterIfContainerKeepsInv | TradingAlarm/Injection.swift:210-212 | registering an accepted container keeps the invariant and leaves values and queues alone |
| InjectedValuesRegistry.RegisterChildrenStopsAtTrap | TradingAlarm/Injection.swift:56-63 | once a property traps, registering the container fails |
| InjectedValuesRegistry.ValuePublisher.constructor | TradingAlarm/Injection.swift:569 | `init()` has no initial value and no subject |
| InjectedValuesRegistry.ValuePublisher.WithValue | TradingAlarm/Injection.swift:572-574 | `init(_:)` sets the initial value |
| InjectedValuesRegistry.ValuePublisher.SetWrappedValue | TradingAlarm/Injection.swift:539-545 | the first value assigned becomes the initial value for good, and every value is sent to the subject |
| InjectedValuesRegistry.ValuePublisher.GetWrappedValue | TradingAlarm/Injection.swift:467-470 | the getter creates the subject from the initial value on first use, and traps exactly when neither exists |

## Left out

- Concurrency: the reader/writer queue of `AtomicDictionary`, the
  dispatch queues that readers block on, and the 10-second "stuck"
  diagnostic. Calls are modelled one at a time; a reader that would block
  gets a `Waiting` outcome, and the queue it waits on is its flag.
- Combine delivery: `CurrentValueSubject`, `PassthroughSubject`,
  `switchToLatest` and subscriber retention. A slot records the ids of the
  subjects it has held, and a flattened stream records the slot it follows.
- `Mirror` reflection and Swift's dynamic casts. A candidate value is a
  record of the answers to the casts the registry makes.
- `resolve`'s fallback to the first stored value of a compatible type. The
  getter looks up the exact key; a type-compatibility relation on type
  names is not modelled.
- The detection of `isDebugMode`: `isatty`, the random `appId`, the decoy
  `InjectionError` read, and `initializeFramework`. The mode is a
  constructor parameter.
- `printKeys`, which is console output.
- `publisherSubjects`, which no operation uses.
- The `OptionalValuePublisher` and `PassThroughPublisher` classes. They are
  the `OptionalValueStream` and `PassThroughStream` kinds of a property
  declaration, and neither can trap.
- `EmbeddedPublisher.wrappedValue`, `internalPublisher`,
  `projectedValue` and the private `anyPublisher` getters. These are
  Combine plumbing, including a force cast.
- AnyIdentifiablePublisher equality, which compares fresh UUIDs. Subject
  ids are modelled as natural numbers.
- Injection.MockCount: a ghost function, because the order `reduce` visits
  the keys in is unspecified. The count is proved independent of that
  order.
- InjectedValuesRegistry.InjectedValues.Set: nothing is promised about the state after an abort outcome, because the process ends there.
- InjectedValuesRegistry.InjectedValues.Store: nothing is promised about the state after an abort outcome, because the process ends there.
- InjectedValuesRegistry.InjectedValues.Insert: nothing is promised about the state after an abort outcome, because the process ends there.
- InjectedValuesRegistry.InjectedValues.InsertForDebug: nothing is promised about the state after an abort outcome, because the process ends there.
- AtomicDictionaries.AtomicDictionary.Values: the set of stored values.
  Swift's `Values` collection also has an order and repeats a value held
  by several keys.
- `debugDescription`, which is only text.
- `Date.now`, `Calendar.current` and `isTradingDay`. The current instant, the
  start of the day and the trading-day answer are inputs.
- `alarmTime` as a `Date`. It is whole seconds from a reference instant.
- AlarmModel.TimeOnDay: the instant is the day start plus hours, minutes
  and seconds, so a day on which daylight saving time begins or ends is not
  modelled, and every alarm of a document shares one `dayStart` where the
  source reads `Date()` once per alarm.
- DataManagers.ActiveDailyAlarms: the clock is read once per call. The
  source reads `Date.now` once per element in each filter closure and again
  when `activeDailyAlarms` recomputes `inactiveDailyAlarms`, so an alarm
  whose time passes between two reads can appear there twice, once as a
  future alarm and once as the last delivered one.
- DataManagers.ActiveDailyAlarmsShape: stated at one instant, for the same
  reason; the duplicate that separate clock reads allow is not captured.
- DataManagers.InactiveDailyAlarms: one `now` for the whole filter, where the
  source reads the clock once per element.
- TimeIntervals.Minutes: `TimeInterval` is a `Double` and the model counts
  whole seconds with unbounded integers. Beyond 2^53 seconds the source's
  product is no longer exact, and the model does not capture that rounding.
- TimeIntervals.OneMinute and TimeIntervals.OneHour are constants, whereas
  `oneMinute` and `oneHour` are mutable `static var`s that other code
  could reassign; no code in the repository does.
- `setAlarms(mode:)`, `readLocalJSONFile` and `parse(data:)`: bundle and file
  I/O and `JSONDecoder` plumbing. `DataManager.SetAlarms` models the
  assignment they end with, and `AlarmModel.DecodeAlarms` the decoding.
- The `AlarmScheduler` behind the `didSet` observer. It is a log of the
  lists it is asked to schedule.
- `activeDailyAlarms` appends to a local copy. It is modelled as a
  function, because no state outside the call changes.
- JSON number forms, escapes and other container errors of
  `JSONDecoder`. JSON is a value datatype, and a non-object element throws a
  type mismatch.
- The watchOS variant of `AppLifecycleManager`. The iOS mapping and
  observers are modelled.
- The notification-centre registration itself and `[weak self]`. Delivering
  a notification is a call to its handler.

## Findings

| source | as written | input that shows it | evidently intended | confidence | as-written member | corrected member |
|---|---|---|---|---|---|---|
| TradingAlarm/Data/Models/TimeString.swift:20 | the second guard re-checks `components.count`, already known to be 2, so a piece that `Int(_:)` rejects leaves `intArr` short and `intArr[0]` or `intArr[1]` is read out of range | `"ab:00:00"` | the guard checks `intArr.count == 2` and returns nil | not executed | TimeStrings.AsWrittenTrapExample | TimeStrings.Parse |
