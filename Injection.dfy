/**
  The type-keyed service registry: `InjectedValues`, the `Injected` and
  `InjectedOrNil` property wrappers, `InjectionQueue` and the publisher slots
  that keep a container's streams alive across re-injection.

  This module holds the registry's state as a value and every operation on
  it as a function from the old state to an outcome and the new state; the
  classes in `InjectedValuesRegistry` perform the same operations in place
  and are proved against these functions.

  Abstractions:
  - A type is known by its name, which is also its key (`key(T.self)`).
  - A candidate object is a record of what the validation and the
    registration ask of it: whether it is `Injectable`, whether the cast to
    `AnyObject` succeeds, whether it is an `InjectableContainer`, whether it
    is an `InjectionError`, and the kinds of its stored properties in
    declaration order.
  - A publisher slot (`publishers[k]`, a `CurrentValueSubject` of subjects)
    is the list of identifiers of the subjects it has held, first the one it
    was created with, then each one sent to it.
  - A `switchToLatests` entry is the key of the slot its stream flattens.
  - A queue is its `isSuspended` flag; a suspended queue blocks readers.
*/
module Injection {
  import opened Wrappers
  import opened Text

  // ---------------------------------------------------------------------
  // Keys
  // ---------------------------------------------------------------------

  /** `key(_:_:propertyName:)`: the key of a publisher declared by `propertyName` on the
      owning type, for a given publisher type. */
  function PublisherKey(owner: string, publisherType: string, propertyName: string): (k: string)
    ensures |k| == |propertyName| + |owner| + |publisherType| + 2
  {
    propertyName + "-" + owner + "-" + publisherType
  }

  /** When no name contains '-', a publisher key determines its three parts. */
  lemma PublisherKeyInjective(owner1: string, type1: string, name1: string,
                              owner2: string, type2: string, name2: string)
    requires '-' !in owner1 && '-' !in type1 && '-' !in name1
    requires '-' !in owner2 && '-' !in type2 && '-' !in name2
    requires PublisherKey(owner1, type1, name1) == PublisherKey(owner2, type2, name2)
    ensures owner1 == owner2 && type1 == type2 && name1 == name2
  {
    JoinThree(name1, owner1, type1, '-');
    JoinThree(name2, owner2, type2, '-');
    assert FreeOf([name1, owner1, type1], '-');
    assert FreeOf([name2, owner2, type2], '-');
    SplitJoin([name1, owner1, type1], '-');
    SplitJoin([name2, owner2, type2], '-');
  }

  // ---------------------------------------------------------------------
  // Errors
  // ---------------------------------------------------------------------

  datatype InjectionError =
    | AlreadyInjected(typeName: string)
    | ClassNotInjectable
    | InjectableContainerRequired
    | WrongPublisherType

  /** `InjectionError.appId`. */
  function AppId(e: InjectionError): (r: int)
    ensures 0 <= r <= 3
  {
    match e
    case AlreadyInjected(_) => 0
    case ClassNotInjectable => 1
    case InjectableContainerRequired => 2
    case WrongPublisherType => 3
  }

  /** `appId` tells the four cases apart, and only the cases: every `alreadyInjected` has 0. */
  lemma AppIdIdentifiesCase(e1: InjectionError, e2: InjectionError)
    ensures AppId(e1) == AppId(e2) <==>
              (e1.AlreadyInjected? && e2.AlreadyInjected?) || (!e1.AlreadyInjected? && e1 == e2)
  {
  }

  // ---------------------------------------------------------------------
  // Candidates
  // ---------------------------------------------------------------------

  /** The three property wrappers that register publishers. */
  datatype StreamKind = ValueStream | OptionalValueStream | PassThroughStream

  /** A `ValuePublisher`, `OptionalValuePublisher` or `PassThroughPublisher` property:
      `owner` is its `T`, `payload` the name of its `Value` type, `propertyLabel` the property's
      label, `sourceId` the `id` of its (lazily created) subject, and `hasInitialValue` whether
      that subject can be created (for a `ValuePublisher`: `initialValue` is set or the subject
      already exists). */
  datatype StreamDecl = StreamDecl(
    kind: StreamKind,
    owner: string,
    payload: string,
    propertyLabel: Option<string>,
    sourceId: nat,
    hasInitialValue: bool)

  /** What a stored property of a candidate is, as far as the registry cares. */
  datatype Child =
    | Registrable(decl: StreamDecl)   // conforms to RegistrablePublisherProtocol
    | RawPublisher                    // a Combine `Publisher` or an `@Published` property
    | OtherChild

  datatype Candidate = Candidate(
    isInjectable: bool,
    isReference: bool,
    isContainer: bool,
    isInjectionError: bool,
    children: seq<Child>)

  // ---------------------------------------------------------------------
  // Validation (`assertInjectable`)
  // ---------------------------------------------------------------------

  /** Whether a property makes validation fail. */
  predicate Offending(c: Child, isContainer: bool) {
    c.RawPublisher? || (c.Registrable? && !isContainer)
  }

  /** The two checks applied to one property, the container test first. */
  function CheckChild(c: Child, isContainer: bool): (r: Outcome<InjectionError>)
    ensures r.Fail? <==> Offending(c, isContainer)
  {
    if c.Registrable? && !isContainer then Fail(InjectableContainerRequired)
    else if c.RawPublisher? then Fail(WrongPublisherType)
    else Pass
  }

  /** The properties checked in order; the first failure is thrown. */
  function CheckChildren(children: seq<Child>, isContainer: bool): Outcome<InjectionError>
    decreases |children|
  {
    if children == [] then Pass
    else match CheckChild(children[0], isContainer)
      case Fail(e) => Fail(e)
      case Pass => CheckChildren(children[1..], isContainer)
  }

  /** `assertInjectable(_:)`. */
  function Validation(newValue: Option<Candidate>): Outcome<InjectionError> {
    match newValue
    case None => Pass
    case Some(c) =>
      if !c.isInjectable then Fail(ClassNotInjectable)
      else if !c.isReference then Pass
      else CheckChildren(c.children, c.isContainer)
  }

  /** The properties fail exactly when one offends, and then with the error of the first
      offending one: `injectableContainerRequired` for a registrable publisher outside a container
      (even when the same object also holds a raw publisher further on), `wrongPublisherType` for a
      raw publisher. */
  lemma {:induction false} CheckChildrenFirstOffender(children: seq<Child>, isContainer: bool)
    ensures CheckChildren(children, isContainer).Pass? <==>
              forall i :: 0 <= i < |children| ==> !Offending(children[i], isContainer)
    ensures forall i :: (0 <= i < |children| && Offending(children[i], isContainer) &&
                         forall j :: 0 <= j < i ==> !Offending(children[j], isContainer)) ==>
              CheckChildren(children, isContainer) == CheckChild(children[i], isContainer)
    decreases |children|
  {
    if children != [] {
      var tail := children[1..];
      CheckChildrenFirstOffender(tail, isContainer);
      assert forall i :: 1 <= i < |children| ==> children[i] == tail[i - 1];
      if !Offending(children[0], isContainer) {
        forall i | 0 <= i < |children| && Offending(children[i], isContainer) &&
                   (forall j :: 0 <= j < i ==> !Offending(children[j], isContainer))
          ensures CheckChildren(children, isContainer) == CheckChild(children[i], isContainer)
        {
          assert i >= 1;
          assert forall j :: 0 <= j < i - 1 ==> !Offending(tail[j], isContainer);
        }
      }
    }
  }

  /** The order of the checks: nil passes; a value that is not `Injectable` fails first; a value
      that is not an object passes; otherwise the properties decide. */
  lemma ValidationOrder(newValue: Option<Candidate>)
    ensures newValue.None? ==> Validation(newValue) == Pass
    ensures newValue.Some? && !newValue.value.isInjectable ==> Validation(newValue) == Fail(ClassNotInjectable)
    ensures Validation(newValue).Pass? <==>
              newValue.None? ||
              (newValue.value.isInjectable &&
               (!newValue.value.isReference ||
                forall i :: 0 <= i < |newValue.value.children| ==>
                  !Offending(newValue.value.children[i], newValue.value.isContainer)))
  {
    if newValue.Some? {
      CheckChildrenFirstOffender(newValue.value.children, newValue.value.isContainer);
    }
  }

  // ---------------------------------------------------------------------
  // Registry state
  // ---------------------------------------------------------------------

  /** A publisher slot: the subject it was created with, then every subject sent to it. */
  datatype Slot = Slot(initial: nat, sent: seq<nat>)

  /** Every subject the slot has held, oldest first. */
  function Sources(s: Slot): (r: seq<nat>)
    ensures |r| == |s.sent| + 1 && r[0] == s.initial
  {
    [s.initial] + s.sent
  }

  /** The identifier of the subject the slot currently holds. */
  function Current(s: Slot): (id: nat)
    ensures id == Sources(s)[|Sources(s)| - 1]
  {
    if s.sent == [] then s.initial else s.sent[|s.sent| - 1]
  }

  /** No subject is sent to a slot that already holds it. */
  predicate NoRepeats(s: Slot) {
    var src := Sources(s);
    forall i, j :: 0 <= i < |src| && 0 <= j < |src| && j == i + 1 ==> src[i] != src[j]
  }

  datatype RegistryState = RegistryState(
    values: map<string, Candidate>,
    publishers: map<string, Slot>,
    switchToLatests: map<string, string>,
    queues: map<string, bool>)   // key |-> isSuspended

  /** What every operation keeps: slots never repeat a subject, and every flattened stream
      follows a slot that exists. */
  predicate Inv(st: RegistryState) {
    && (forall k :: k in st.publishers ==> NoRepeats(st.publishers[k]))
    && (forall k :: k in st.switchToLatests ==> st.switchToLatests[k] in st.publishers)
  }

  const EmptyRegistry: RegistryState := RegistryState(map[], map[], map[], map[])

  lemma EmptyRegistryInv()
    ensures Inv(EmptyRegistry)
  {
  }

  /** The subscript getter, looking up the exact key; `InjectedOrNil.wrappedValue` is this. */
  function Get(st: RegistryState, key: string): (r: Option<Candidate>)
    ensures r.Some? <==> key in st.values
    ensures r.Some? ==> r.value == st.values[key]
  {
    if key in st.values then Some(st.values[key]) else None
  }

  /** `isMocked`. */
  predicate IsMocked(st: RegistryState) {
    exists k :: k in st.values && "Mock" <= k
  }

  /** The keys that start with "Mock". */
  function MockKeys(keys: set<string>): set<string> {
    set k | k in keys && "Mock" <= k
  }

  /** Some key of a non-empty set: the order `reduce` visits the keys in is not specified. */
  ghost function AnyKey(keys: set<string>): (k: string)
    requires keys != {}
    ensures k in keys
  {
    var k :| k in keys; k
  }

  /** The `reduce` of `mockCount`: one for each key that starts with "Mock". */
  ghost function CountMocks(keys: set<string>): (n: nat)
    ensures n <= |keys|
    decreases |keys|
  {
    if keys == {} then 0
    else
      var k := AnyKey(keys);
      (if "Mock" <= k then 1 else 0) + CountMocks(keys - {k})
  }

  /** `mockCount`. */
  ghost function MockCount(st: RegistryState): nat {
    CountMocks(st.values.Keys)
  }

  /** The reduction counts exactly the keys that start with "Mock". */
  lemma {:induction false} CountMocksIsNumberOfMockKeys(keys: set<string>)
    ensures CountMocks(keys) == |MockKeys(keys)|
    decreases |keys|
  {
    if keys != {} {
      var k := AnyKey(keys);
      CountMocksIsNumberOfMockKeys(keys - {k});
      var rest := MockKeys(keys - {k});
      assert k !in rest;
      assert MockKeys(keys) == rest + (if "Mock" <= k then {k} else {});
    }
  }

  /** `isMocked` holds exactly when `mockCount` is positive. */
  lemma IsMockedIffMockCountPositive(st: RegistryState)
    ensures IsMocked(st) <==> MockCount(st) > 0
  {
    CountMocksIsNumberOfMockKeys(st.values.Keys);
    var mocks := MockKeys(st.values.Keys);
    if IsMocked(st) {
      var k :| k in st.values && "Mock" <= k;
      assert k in mocks;
    } else {
      assert mocks == {};
    }
  }

  // ---------------------------------------------------------------------
  // Publisher registration
  // ---------------------------------------------------------------------

  /** `"\(PT.self)"` for the subject type of each property wrapper. */
  function SubjectTypeName(kind: StreamKind, payload: string): string {
    match kind
    case ValueStream => "ValuePublisherSubject<" + payload + ">"
    case OptionalValueStream => "OptionalValuePublisherSubject<" + payload + ">"
    case PassThroughStream => "PassThroughPublisherSubject<" + payload + ">"
  }

  /** `"\(PT.self)"` for the flattened stream type. */
  function StreamTypeName(payload: string): string {
    "AnyIdentifiablePublisher<AnyPublisher<" + payload + ", Never>>"
  }

  /** The property name used in the keys, with the fallback for a missing label. */
  function PropertyName(d: StreamDecl): string {
    d.propertyLabel.GetOr("missingPropertyName")
  }

  function SlotKey(d: StreamDecl): string {
    PublisherKey(d.owner, SubjectTypeName(d.kind, d.payload), PropertyName(d))
  }

  function StreamKey(d: StreamDecl): string {
    PublisherKey(d.owner, StreamTypeName(d.payload), PropertyName(d))
  }

  /** `registerEmbeddedPublisher`: the first registration creates the slot; a later one sends
      the new subject only when its identifier differs from the current one. */
  function EmbedPublisher(publishers: map<string, Slot>, key: string, id: nat): (r: map<string, Slot>)
    ensures r.Keys == publishers.Keys + {key}
    ensures forall k :: k in publishers && k != key ==> r[k] == publishers[k]
    ensures Current(r[key]) == id
  {
    if key !in publishers then publishers[key := Slot(id, [])]
    else
      var slot := publishers[key];
      if Current(slot) != id then publishers[key := slot.(sent := slot.sent + [id])]
      else publishers
  }

  /** `registerSwitchToLatest`: first registration wins. */
  function RegisterSwitchToLatest(switchToLatests: map<string, string>, key: string, slotKey: string): (r: map<string, string>)
    ensures r.Keys == switchToLatests.Keys + {key}
    ensures forall k :: k in switchToLatests ==> r[k] == switchToLatests[k]
  {
    if key in switchToLatests then switchToLatests else switchToLatests[key := slotKey]
  }

  /** `registerPublisherAndSwitchToLatest(propertyName:)`; None when the lazy subject of a
      `ValuePublisher` is created with no initial value (a force unwrap of nil). */
  function RegisterStream(st: RegistryState, d: StreamDecl): Option<RegistryState> {
    if d.kind == ValueStream && !d.hasInitialValue then None
    else
      Some(st.(publishers := EmbedPublisher(st.publishers, SlotKey(d), d.sourceId),
               switchToLatests := RegisterSwitchToLatest(st.switchToLatests, StreamKey(d), SlotKey(d))))
  }

  function RegisterChild(st: RegistryState, c: Child): Option<RegistryState> {
    match c
    case Registrable(d) => RegisterStream(st, d)
    case _ => Some(st)
  }

  /** `forceRegisterValuePublishers()`: the properties registered in declaration order. */
  function RegisterChildren(st: RegistryState, children: seq<Child>): Option<RegistryState>
    decreases |children|
  {
    if children == [] then Some(st)
    else match RegisterChildren(st, children[..|children| - 1])
      case None => None
      case Some(st1) => RegisterChild(st1, children[|children| - 1])
  }

  /** Sending a subject other than the current one keeps a slot free of repeats. */
  lemma SendKeepsNoRepeats(slot: Slot, id: nat)
    requires NoRepeats(slot) && Current(slot) != id
    ensures NoRepeats(slot.(sent := slot.sent + [id]))
    ensures Sources(slot.(sent := slot.sent + [id])) == Sources(slot) + [id]
  {
    assert Sources(slot.(sent := slot.sent + [id])) == Sources(slot) + [id];
  }

  /** A slot is created holding the first subject; re-registering the subject it holds changes
      nothing, and registering another one sends it, so a slot never holds the same subject twice
      in a row. */
  lemma EmbedPublisherSlots(publishers: map<string, Slot>, key: string, id: nat)
    requires key in publishers ==> NoRepeats(publishers[key])
    ensures key !in publishers ==> EmbedPublisher(publishers, key, id)[key] == Slot(id, [])
    ensures key in publishers && Current(publishers[key]) == id ==> EmbedPublisher(publishers, key, id) == publishers
    ensures key in publishers && Current(publishers[key]) != id ==>
              EmbedPublisher(publishers, key, id)[key] == publishers[key].(sent := publishers[key].sent + [id])
    ensures NoRepeats(EmbedPublisher(publishers, key, id)[key])
  {
    if key in publishers && Current(publishers[key]) != id {
      SendKeepsNoRepeats(publishers[key], id);
    }
  }

  /** Registering a stream keeps the invariant, keeps every other slot, and never replaces a
      flattened stream that was already registered. */
  lemma RegisterStreamKeepsInv(st: RegistryState, d: StreamDecl)
    requires Inv(st)
    ensures RegisterStream(st, d).Some? <==> d.kind != ValueStream || d.hasInitialValue
    ensures RegisterStream(st, d).Some? ==>
              var st1 := RegisterStream(st, d).value;
              && Inv(st1)
              && st1.values == st.values && st1.queues == st.queues
              && Current(st1.publishers[SlotKey(d)]) == d.sourceId
              && (forall k :: k in st.switchToLatests ==> k in st1.switchToLatests && st1.switchToLatests[k] == st.switchToLatests[k])
              && StreamKey(d) in st1.switchToLatests
  {
    if d.kind != ValueStream || d.hasInitialValue {
      EmbedPublisherSlots(st.publishers, SlotKey(d), d.sourceId);
    }
  }

  /** The properties whose registration stops the process. */
  predicate Traps(c: Child) {
    c.Registrable? && c.decl.kind == ValueStream && !c.decl.hasInitialValue
  }

  /** Registering the properties fails exactly when some `ValuePublisher` property has no
      initial value. */
  lemma {:induction false} RegisterChildrenFails(st: RegistryState, children: seq<Child>)
    ensures RegisterChildren(st, children).None? <==> exists i :: 0 <= i < |children| && Traps(children[i])
    decreases |children|
  {
    if children != [] {
      var init := children[..|children| - 1];
      var last := children[|children| - 1];
      RegisterChildrenFails(st, init);
      assert forall i :: 0 <= i < |init| ==> init[i] == children[i];
      assert children[|children| - 1] == last;
      if RegisterChildren(st, init).None? {
        var i :| 0 <= i < |init| && Traps(init[i]);
        assert Traps(children[i]);
      }
    }
  }

  /** Registering all the properties keeps the invariant, touches neither the stored values nor
      the queues, and replaces no flattened stream already registered. */
  lemma {:induction false} RegisterChildrenKeepsInv(st: RegistryState, children: seq<Child>)
    requires Inv(st)
    ensures RegisterChildren(st, children).Some? ==>
              var st1 := RegisterChildren(st, children).value;
              Inv(st1) && st1.values == st.values && st1.queues == st.queues &&
              (forall k :: k in st.switchToLatests ==> k in st1.switchToLatests && st1.switchToLatests[k] == st.switchToLatests[k])
    decreases |children|
  {
    if children != [] {
      var init := children[..|children| - 1];
      var last := children[|children| - 1];
      RegisterChildrenKeepsInv(st, init);
      if RegisterChildren(st, init).Some? {
        var st1 := RegisterChildren(st, init).value;
        if last.Registrable? {
          RegisterStreamKeepsInv(st1, last.decl);
        }
      }
    }
  }

  // ---------------------------------------------------------------------
  // The subscript setter
  // ---------------------------------------------------------------------

  /** Why the process stops. */
  datatype AbortReason =
    | Invalid(error: InjectionError)   // a failed validation, reported by fatalError
    | MissingInitialValue              // `initialValue!` on a ValuePublisher with none
    | MissingInjection                 // a debug-mode read of a missing value
    | NilUnwrap                        // `InjectedValues[T.self]!` after a resumed queue

  datatype SetOutcome = Ignored | Stored | SetAborted(reason: AbortReason)

  datatype SetResult = SetResult(outcome: SetOutcome, state: RegistryState)

  /** The registration an accepted value performs before it is stored. */
  function RegisterIfContainer(st: RegistryState, newValue: Option<Candidate>): Option<RegistryState> {
    if newValue.Some? && newValue.value.isContainer then RegisterChildren(st, newValue.value.children)
    else Some(st)
  }

  /** What the setter does with a value that passed validation: register its publishers, store
      it (nil removes the key), then resume the key's queue. */
  function StoreSpec(st: RegistryState, key: string, newValue: Option<Candidate>): SetResult {
    match RegisterIfContainer(st, newValue)
    case None => SetResult(SetAborted(MissingInitialValue), st)
    case Some(st1) =>
      var queues := if key in st1.queues then st1.queues[key := false] else st1.queues;
      SetResult(Stored, st1.(values := StoredValues(st1.values, key, newValue), queues := queues))
  }

  /** The values after storing `newValue` under `key`: nil removes the key. */
  function StoredValues(values: map<string, Candidate>, key: string, newValue: Option<Candidate>): (r: map<string, Candidate>)
    ensures newValue.Some? ==> key in r && r[key] == newValue.value
    ensures newValue.None? ==> key !in r
    ensures forall k :: k != key ==> (k in r <==> k in values)
    ensures forall k :: k != key && k in r ==> r[k] == values[k]
  {
    match newValue
    case Some(c) => values[key := c]
    case None => values - {key}
  }

  /** `InjectedValues[T.self] = newValue`, for the type named `key`. */
  function SetSpec(st: RegistryState, isDebugMode: bool, key: string, newValue: Option<Candidate>): SetResult {
    if newValue.Some? && newValue.value.isInjectionError && st.values != map[] then SetResult(Ignored, st)
    else if !isDebugMode && key in st.values then SetResult(Ignored, st)
    else match Validation(newValue)
      case Fail(e) => SetResult(SetAborted(Invalid(e)), st)
      case Pass => StoreSpec(st, key, newValue)
  }

  /** In release mode, assigning a key that already holds a value changes nothing: no
      validation, no registration, no resume. */
  lemma ReleaseSetOnOccupiedKeyIsIgnored(st: RegistryState, key: string, newValue: Option<Candidate>)
    requires key in st.values
    ensures SetSpec(st, false, key, newValue) == SetResult(Ignored, st)
  {
  }

  /** An `InjectionError` assigned while anything is registered changes nothing. */
  lemma InjectionErrorSetIsIgnored(st: RegistryState, isDebugMode: bool, key: string, c: Candidate)
    requires c.isInjectionError && st.values != map[]
    ensures SetSpec(st, isDebugMode, key, Some(c)) == SetResult(Ignored, st)
  {
  }

  /** When the setter goes ahead it validates, registers the properties, stores the value under
      its key (overwriting in debug mode; nil removes the key) and then resumes that key's queue;
      nothing else in the values or queues changes. A failed check stops the process. */
  lemma SetValidatesStoresResumes(st: RegistryState, isDebugMode: bool, key: string, newValue: Option<Candidate>)
    requires Inv(st)
    requires !(newValue.Some? && newValue.value.isInjectionError && st.values != map[])
    requires isDebugMode || key !in st.values
    ensures Validation(newValue).Fail? ==>
              SetSpec(st, isDebugMode, key, newValue).outcome == SetAborted(Invalid(Validation(newValue).error))
    ensures Validation(newValue).Pass? && RegisterIfContainer(st, newValue).Some? ==>
              var r := SetSpec(st, isDebugMode, key, newValue);
              && r.outcome == Stored
              && Inv(r.state)
              && Get(r.state, key) == newValue
              && (forall k :: k != key ==> Get(r.state, k) == Get(st, k))
              && r.state.queues.Keys == st.queues.Keys
              && (key in st.queues ==> !r.state.queues[key])
              && (forall k :: k in st.queues && k != key ==> r.state.queues[k] == st.queues[k])
    ensures Validation(newValue).Pass? && RegisterIfContainer(st, newValue).None? ==>
              SetSpec(st, isDebugMode, key, newValue).outcome == SetAborted(MissingInitialValue)
  {
    if newValue.Some? && newValue.value.isContainer {
      RegisterChildrenKeepsInv(st, newValue.value.children);
    }
  }

  // ---------------------------------------------------------------------
  // insert and insertForDebug
  // ---------------------------------------------------------------------

  datatype InsertOutcome =
    | Returned(value: Option<Candidate>)
    | Threw(error: InjectionError)
    | InsertAborted(reason: AbortReason)

  /** The outcome, whether the factory closure was called, and the new state. */
  datatype InsertResult = InsertResult(outcome: InsertOutcome, factoryCalled: bool, state: RegistryState)

  /** `insert(_:for:)` for the type named `key`; `made` is what the factory returns when called. */
  function InsertSpec(st: RegistryState, isDebugMode: bool, key: string, made: Candidate): InsertResult {
    if key in st.values then
      if isDebugMode then InsertResult(Returned(Get(st, key)), false, st)
      else InsertResult(Threw(AlreadyInjected(key)), false, st)
    else if made.isInjectionError && st.values != map[] then InsertResult(Returned(None), true, st)
    else match Validation(Some(made))
      case Fail(e) => InsertResult(InsertAborted(Invalid(e)), true, st)
      case Pass =>
        match RegisterIfContainer(st, Some(made))
        case None => InsertResult(InsertAborted(MissingInitialValue), true, st)
        case Some(st1) => InsertResult(Returned(Some(made)), true, st1.(values := st1.values[key := made]))
  }

  /** `insertForDebug(_:for:)`: `try? insert` in debug mode, nil otherwise. */
  function InsertForDebugSpec(st: RegistryState, isDebugMode: bool, key: string, made: Candidate): InsertResult {
    if isDebugMode then
      var r := InsertSpec(st, isDebugMode, key, made);
      match r.outcome
      case Threw(_) => r.(outcome := Returned(None))
      case _ => r
    else InsertResult(Returned(None), false, st)
  }

  /** On an occupied key `insert` never calls the factory: debug mode returns the stored value,
      release mode throws `alreadyInjected` with the key. */
  lemma InsertOnOccupiedKey(st: RegistryState, isDebugMode: bool, key: string, made: Candidate)
    requires key in st.values
    ensures var r := InsertSpec(st, isDebugMode, key, made);
      && !r.factoryCalled && r.state == st
      && r.outcome == (if isDebugMode then Returned(Some(st.values[key])) else Threw(AlreadyInjected(key)))
  {
  }

  /** On a free key `insert` calls the factory, validates, registers, stores and returns the new
      value; unlike the setter it resumes no queue. An `InjectionError` made while anything is
      registered is dropped and nil returned. */
  lemma InsertOnFreeKey(st: RegistryState, isDebugMode: bool, key: string, made: Candidate)
    requires Inv(st) && key !in st.values
    ensures InsertSpec(st, isDebugMode, key, made).factoryCalled
    ensures made.isInjectionError && st.values != map[] ==>
              InsertSpec(st, isDebugMode, key, made) == InsertResult(Returned(None), true, st)
    ensures !(made.isInjectionError && st.values != map[]) && Validation(Some(made)).Fail? ==>
              InsertSpec(st, isDebugMode, key, made).outcome == InsertAborted(Invalid(Validation(Some(made)).error))
    ensures !(made.isInjectionError && st.values != map[]) && Validation(Some(made)).Pass? &&
            RegisterIfContainer(st, Some(made)).Some? ==>
              var r := InsertSpec(st, isDebugMode, key, made);
              && r.outcome == Returned(Some(made))
              && Inv(r.state)
              && Get(r.state, key) == Some(made)
              && (forall k :: k != key ==> Get(r.state, k) == Get(st, k))
              && r.state.queues == st.queues
  {
    if made.isContainer {
      RegisterChildrenKeepsInv(st, made.children);
    }
  }

  /** `insertForDebug` in release mode returns nil without calling the factory or changing
      anything; in debug mode it is `insert`, which never throws there. */
  lemma InsertForDebugModes(st: RegistryState, isDebugMode: bool, key: string, made: Candidate)
    ensures !isDebugMode ==> InsertForDebugSpec(st, isDebugMode, key, made) == InsertResult(Returned(None), false, st)
    ensures isDebugMode ==> InsertForDebugSpec(st, isDebugMode, key, made) == InsertSpec(st, isDebugMode, key, made)
  {
  }

  // ---------------------------------------------------------------------
  // Resolution (`Injected.wrappedValue`)
  // ---------------------------------------------------------------------

  datatype ResolveOutcome = Present(value: Candidate) | Waiting | ResolveAborted(reason: AbortReason)

  datatype ResolveResult = ResolveResult(outcome: ResolveOutcome, state: RegistryState)

  /** `Injected<T>.wrappedValue` for the type named `key`: the stored value; in debug mode a
      missing value stops the process; in release mode the reader waits on the key's queue,
      which is created suspended the first time. A queue that was already resumed does not block,
      and the read behind it finds nothing. */
  function ResolveSpec(st: RegistryState, isDebugMode: bool, key: string): ResolveResult {
    if key in st.values then ResolveResult(Present(st.values[key]), st)
    else if isDebugMode then ResolveResult(ResolveAborted(MissingInjection), st)
    else if key !in st.queues then ResolveResult(Waiting, st.(queues := st.queues[key := true]))
    else if st.queues[key] then ResolveResult(Waiting, st)
    else ResolveResult(ResolveAborted(NilUnwrap), st)
  }

  /** The read a waiting reader performs once its queue is resumed. */
  function ResumeRead(st: RegistryState, key: string): ResolveOutcome {
    if key in st.values then Present(st.values[key]) else ResolveAborted(NilUnwrap)
  }

  /** A read returns the stored value; a debug-mode miss stops the process; a release-mode miss
      waits on the key's queue, made suspended the first time. Resolution only ever adds that one
      queue, and a second resolution of the same key finds it and changes nothing more. */
  lemma ResolveCreatesQueueOnce(st: RegistryState, isDebugMode: bool, key: string)
    requires Inv(st)
    ensures var r := ResolveSpec(st, isDebugMode, key);
      && (key in st.values ==> r == ResolveResult(Present(st.values[key]), st))
      && (key !in st.values && isDebugMode ==> r == ResolveResult(ResolveAborted(MissingInjection), st))
      && (key !in st.values && !isDebugMode && key !in st.queues ==>
            r.outcome == Waiting && r.state.queues == st.queues[key := true])
      && Inv(r.state)
      && r.state.values == st.values && r.state.publishers == st.publishers
      && r.state.switchToLatests == st.switchToLatests
      && r.state.queues.Keys <= st.queues.Keys + {key}
      && (forall k :: k in st.queues ==> r.state.queues[k] == st.queues[k])
      && (r.outcome == Waiting ==> key in r.state.queues && r.state.queues[key])
      && ResolveSpec(r.state, isDebugMode, key) == ResolveResult(r.outcome, r.state)
  {
  }

  /** The wait/notify protocol: a reader left waiting on a key is resumed by the next assignment
      that stores a value under it, and its read then finds that value. */
  lemma StoredValueReachesWaitingReader(st: RegistryState, key: string, c: Candidate)
    requires Inv(st)
    requires ResolveSpec(st, false, key).outcome == Waiting
    requires SetSpec(ResolveSpec(st, false, key).state, false, key, Some(c)).outcome == Stored
    ensures var after := SetSpec(ResolveSpec(st, false, key).state, false, key, Some(c)).state;
      && key in after.queues && !after.queues[key]
      && ResumeRead(after, key) == Present(c)
      && ResolveSpec(after, false, key).outcome == Present(c)
  {
    var waiting := ResolveSpec(st, false, key).state;
    ResolveCreatesQueueOnce(st, false, key);
    SetValidatesStoresResumes(waiting, false, key, Some(c));
  }

  /** Assigning nil to a key someone waits on resumes its queue with nothing stored: the waiting
      read finds nil, and so does every later resolution of that key. */
  lemma NilAssignmentStrandsReaders(st: RegistryState, key: string)
    requires Inv(st)
    requires ResolveSpec(st, false, key).outcome == Waiting
    ensures var after := SetSpec(ResolveSpec(st, false, key).state, false, key, None);
      && after.outcome == Stored
      && ResumeRead(after.state, key) == ResolveAborted(NilUnwrap)
      && ResolveSpec(after.state, false, key).outcome == ResolveAborted(NilUnwrap)
  {
    var waiting := ResolveSpec(st, false, key).state;
    ResolveCreatesQueueOnce(st, false, key);
    SetValidatesStoresResumes(waiting, false, key, None);
  }

  /** Every operation keeps the invariant. */
  lemma OperationsKeepInv(st: RegistryState, isDebugMode: bool, key: string, newValue: Option<Candidate>, made: Candidate)
    requires Inv(st)
    ensures Inv(SetSpec(st, isDebugMode, key, newValue).state)
    ensures Inv(InsertSpec(st, isDebugMode, key, made).state)
    ensures Inv(InsertForDebugSpec(st, isDebugMode, key, made).state)
    ensures Inv(ResolveSpec(st, isDebugMode, key).state)
  {
    if newValue.Some? && newValue.value.isContainer {
      RegisterChildrenKeepsInv(st, newValue.value.children);
    }
    if made.isContainer {
      RegisterChildrenKeepsInv(st, made.children);
    }
  }
}
