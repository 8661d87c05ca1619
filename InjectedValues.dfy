/**
  The registry as the source runs it: `InjectedValues` with the maps its
  operations update in place, the `InjectionQueue` objects readers wait on,
  and the `ValuePublisher` property wrapper. Each operation is proved to do
  what the matching function of `Injection` says, so every property proved
  there holds of these objects.

  The debug-mode flag is fixed when the registry is created. Abort outcomes
  stand for `fatalError` and the traps of force unwraps; the process ends
  there, so on those paths nothing is promised about the maps.
*/
module InjectedValuesRegistry {
  import opened Wrappers
  import opened Injection

  /** `assertInjectable(_:)`: the checks in order, walking the properties of an object. */
  method AssertInjectable(newValue: Option<Candidate>) returns (r: Outcome<InjectionError>)
    ensures r == Validation(newValue)
  {
    if newValue.Some? && !newValue.value.isInjectable {
      return Fail(ClassNotInjectable);
    }
    if newValue.Some? && newValue.value.isReference {
      var c := newValue.value;
      var i := 0;
      while i < |c.children|
        invariant 0 <= i <= |c.children|
        invariant CheckChildren(c.children[i..], c.isContainer) == CheckChildren(c.children, c.isContainer)
      {
        assert c.children[i..][0] == c.children[i];
        assert c.children[i..][1..] == c.children[i + 1..];
        var child := c.children[i];
        if child.Registrable? && !c.isContainer {
          return Fail(InjectableContainerRequired);
        }
        if child.RawPublisher? {
          return Fail(WrongPublisherType);
        }
        i := i + 1;
      }
    }
    return Pass;
  }

  /** `InjectionQueue`: created suspended; readers block on it until it is resumed. */
  class InjectionQueue {
    var isSuspended: bool

    constructor ()
      ensures isSuspended
    {
      isSuspended := true;
    }

    /** `resume()`: idempotent; the first call clears `isSuspended`. */
    method Resume()
      modifies this
      ensures !isSuspended
    {
      if isSuspended {
        isSuspended := false;
      }
    }
  }

  class InjectedValues {
    /** Whether re-injection is allowed and a missing injection stops the process. */
    const isDebugMode: bool
    var values: map<string, Candidate>
    var publishers: map<string, Slot>
    var switchToLatests: map<string, string>
    var queues: map<string, InjectionQueue>

    /** The registry's contents as a value. */
    function State(): RegistryState
      reads this, queues.Values
    {
      RegistryState(values, publishers, switchToLatests, map k | k in queues :: queues[k].isSuspended)
    }

    /** Each key has its own queue object, and the state keeps `Inv`. */
    predicate Valid()
      reads this, queues.Values
    {
      && (forall k1, k2 :: k1 in queues && k2 in queues && k1 != k2 ==> queues[k1] != queues[k2])
      && Inv(State())
    }

    constructor (isDebugMode: bool)
      ensures Valid() && State() == EmptyRegistry && this.isDebugMode == isDebugMode
    {
      this.isDebugMode := isDebugMode;
      values := map[];
      publishers := map[];
      switchToLatests := map[];
      queues := map[];
    }

    /** `InjectedValues[T.self]` read, and `InjectedOrNil.wrappedValue`. */
    function Get(key: string): (r: Option<Candidate>)
      reads this
      ensures r == Injection.Get(RegistryState(values, publishers, switchToLatests, map[]), key)
    {
      if key in values then Some(values[key]) else None
    }

    /** `registerEmbeddedPublisher(_:for:propertyName:)`. */
    method RegisterEmbeddedPublisher(key: string, id: nat)
      modifies this`publishers
      ensures publishers == EmbedPublisher(old(publishers), key, id)
    {
      if key in publishers {
        var currentPublisher := publishers[key];
        if Current(currentPublisher) != id {
          publishers := publishers[key := currentPublisher.(sent := currentPublisher.sent + [id])];
        }
        return;
      }
      publishers := publishers[key := Slot(id, [])];
    }

    /** `registerSwitchToLatest(_:for:propertyName:)`. */
    method RegisterSwitchToLatest(key: string, slotKey: string)
      modifies this`switchToLatests
      ensures switchToLatests == Injection.RegisterSwitchToLatest(old(switchToLatests), key, slotKey)
    {
      if key in switchToLatests {
        return;
      }
      switchToLatests := switchToLatests[key := slotKey];
    }

    /** `registerPublisherAndSwitchToLatest(propertyName:)`; false when it traps. */
    method RegisterPublisherAndSwitchToLatest(d: StreamDecl) returns (ok: bool)
      modifies this`publishers, this`switchToLatests
      ensures ok == RegisterStream(old(State()), d).Some?
      ensures ok ==> State() == RegisterStream(old(State()), d).value
    {
      if d.kind == ValueStream && !d.hasInitialValue {
        return false;
      }
      RegisterEmbeddedPublisher(SlotKey(d), d.sourceId);
      RegisterSwitchToLatest(StreamKey(d), SlotKey(d));
      return true;
    }

    /** `forceRegisterValuePublishers()`: registers the container's publishers in declaration
        order; false when one of them traps. */
    method ForceRegisterValuePublishers(children: seq<Child>) returns (ok: bool)
      modifies this`publishers, this`switchToLatests
      ensures ok == RegisterChildren(old(State()), children).Some?
      ensures ok ==> State() == RegisterChildren(old(State()), children).value
    {
      var i := 0;
      while i < |children|
        invariant 0 <= i <= |children|
        invariant RegisterChildren(old(State()), children[..i]) == Some(State())
      {
        assert children[..i + 1][..i] == children[..i];
        var child := children[i];
        if child.Registrable? {
          var registered := RegisterPublisherAndSwitchToLatest(child.decl);
          if !registered {
            RegisterChildrenStopsAtTrap(old(State()), children, i + 1);
            return false;
          }
        }
        i := i + 1;
      }
      assert children[..i] == children;
      return true;
    }

    /** The subscript setter `InjectedValues[T.self] = newValue`, for the type named `key`. */
    method Set(key: string, newValue: Option<Candidate>) returns (outcome: SetOutcome)
      requires Valid()
      modifies this, queues.Values
      ensures outcome == SetSpec(old(State()), isDebugMode, key, newValue).outcome
      ensures !outcome.SetAborted? ==> Valid() && State() == SetSpec(old(State()), isDebugMode, key, newValue).state
      ensures queues == old(queues)
    {
      if newValue.Some? && newValue.value.isInjectionError && values != map[] {
        return Ignored;
      }
      if !isDebugMode && key in values {
        return Ignored;
      }
      var valid := AssertInjectable(newValue);
      if valid.Fail? {
        return SetAborted(Invalid(valid.error));
      }
      outcome := Store(key, newValue);
    }

    /** The rest of the setter, once the value has passed validation. */
    method Store(key: string, newValue: Option<Candidate>) returns (outcome: SetOutcome)
      requires Valid()
      modifies this, queues.Values
      ensures outcome == StoreSpec(old(State()), key, newValue).outcome
      ensures !outcome.SetAborted? ==> Valid() && State() == StoreSpec(old(State()), key, newValue).state
      ensures queues == old(queues)
    {
      ghost var st0 := State();
      if newValue.Some? && newValue.value.isContainer {
        var ok := ForceRegisterValuePublishers(newValue.value.children);
        if !ok {
          return SetAborted(MissingInitialValue);
        }
      }
      ghost var st1 := State();
      assert RegisterIfContainer(st0, newValue) == Some(st1);
      RegisterIfContainerKeepsInv(st0, newValue);
      StoreValue(key, newValue);
      assert State() == st1.(values := StoredValues(st1.values, key, newValue));
      ResumeQueue(key);
      return Stored;
    }

    /** The assignment to `values[key(T.self)]`; nil removes the key. */
    method StoreValue(key: string, newValue: Option<Candidate>)
      modifies this`values
      ensures values == StoredValues(old(values), key, newValue)
    {
      match newValue {
        case Some(c) => values := values[key := c];
        case None => values := values - {key};
      }
    }

    /** `queues[key(T.self)]?.resume()`. */
    method ResumeQueue(key: string)
      requires forall k1, k2 :: k1 in queues && k2 in queues && k1 != k2 ==> queues[k1] != queues[k2]
      modifies queues.Values
      ensures State() == old(State()).(queues := if key in old(queues) then old(State()).queues[key := false]
                                                   else old(State()).queues)
      ensures Valid() <==> old(Valid())
    {
      ghost var before := State();
      if key in queues {
        var queue := queues[key];
        queue.Resume();
        assert forall k :: k in queues && k != key ==> queues[k].isSuspended == before.queues[k];
        assert State().queues == before.queues[key := false];
      }
    }

    /** `insert(_:for:)`, for the type named `key`; `made` is the factory's result, and
        `factoryCalled` says whether the factory ran. */
    method Insert(key: string, made: Candidate) returns (outcome: InsertOutcome, factoryCalled: bool)
      requires Valid()
      modifies this`values, this`publishers, this`switchToLatests
      ensures outcome == InsertSpec(old(State()), isDebugMode, key, made).outcome
      ensures factoryCalled == InsertSpec(old(State()), isDebugMode, key, made).factoryCalled
      ensures !outcome.InsertAborted? ==> Valid() && State() == InsertSpec(old(State()), isDebugMode, key, made).state
    {
      if isDebugMode {
        if key in values {
          return Returned(Get(key)), false;
        }
      } else {
        if key in values {
          return Threw(AlreadyInjected(key)), false;
        }
      }
      var injectedValue := made;
      factoryCalled := true;
      if injectedValue.isInjectionError && values != map[] {
        return Returned(None), factoryCalled;
      }
      var valid := AssertInjectable(Some(injectedValue));
      if valid.Fail? {
        return InsertAborted(Invalid(valid.error)), factoryCalled;
      }
      ghost var st0 := State();
      if injectedValue.isContainer {
        var ok := ForceRegisterValuePublishers(injectedValue.children);
        if !ok {
          return InsertAborted(MissingInitialValue), factoryCalled;
        }
      }
      assert RegisterIfContainer(st0, Some(injectedValue)) == Some(State());
      RegisterIfContainerKeepsInv(st0, Some(injectedValue));
      values := values[key := injectedValue];
      return Returned(Some(injectedValue)), factoryCalled;
    }

    /** `insertForDebug(_:for:)`. */
    method InsertForDebug(key: string, made: Candidate) returns (outcome: InsertOutcome, factoryCalled: bool)
      requires Valid()
      modifies this`values, this`publishers, this`switchToLatests
      ensures outcome == InsertForDebugSpec(old(State()), isDebugMode, key, made).outcome
      ensures factoryCalled == InsertForDebugSpec(old(State()), isDebugMode, key, made).factoryCalled
      ensures !outcome.InsertAborted? ==> Valid() && State() == InsertForDebugSpec(old(State()), isDebugMode, key, made).state
    {
      if isDebugMode {
        outcome, factoryCalled := Insert(key, made);
        if outcome.Threw? {
          outcome := Returned(None);
        }
        return;
      }
      return Returned(None), false;
    }

    /** `Injected<T>.wrappedValue`, for the type named `key`, up to the point where the reader
        blocks: `Waiting` means it waits on `queues[key]`, which is suspended. */
    method Resolve(key: string) returns (outcome: ResolveOutcome)
      requires Valid()
      modifies this`queues
      ensures outcome == ResolveSpec(old(State()), isDebugMode, key).outcome
      ensures Valid() && State() == ResolveSpec(old(State()), isDebugMode, key).state
      ensures key in old(queues) ==> queues == old(queues)
      ensures outcome.Waiting? ==> key in queues && queues[key].isSuspended
    {
      var value := Get(key);
      if value.Some? {
        return Present(value.value);
      }
      if isDebugMode {
        return ResolveAborted(MissingInjection);
      }
      ghost var before := State();
      if key !in queues {
        var queue := new InjectionQueue();
        queues := queues[key := queue];
        assert State().queues == before.queues[key := true];
      }
      if queues[key].isSuspended {
        return Waiting;
      }
      return ResolveAborted(NilUnwrap);
    }

    /** The read a waiting reader performs once `queues[key]` is resumed. */
    function ReadAfterResume(key: string): (r: ResolveOutcome)
      reads this, queues.Values
      ensures r == ResumeRead(State(), key)
      ensures r.Present? ==> key in values && r.value == values[key]
    {
      if key in values then Present(values[key]) else ResolveAborted(NilUnwrap)
    }
  }

  /** The registration step of the setter and of `insert` keeps the invariant and leaves the
      values and queues alone. */
  lemma RegisterIfContainerKeepsInv(st: RegistryState, newValue: Option<Candidate>)
    requires Inv(st) && RegisterIfContainer(st, newValue).Some?
    ensures var st1 := RegisterIfContainer(st, newValue).value;
      Inv(st1) && st1.values == st.values && st1.queues == st.queues
  {
    if newValue.Some? && newValue.value.isContainer {
      RegisterChildrenKeepsInv(st, newValue.value.children);
    }
  }

  /** Once a property traps, registering any longer prefix traps too. */
  lemma {:induction false} RegisterChildrenStopsAtTrap(st: RegistryState, children: seq<Child>, n: nat)
    requires 0 < n <= |children|
    requires Traps(children[n - 1])
    ensures RegisterChildren(st, children).None?
  {
    RegisterChildrenFails(st, children);
    assert Traps(children[n - 1]);
  }

  /** `ValuePublisher`: the property wrapper behind a published value of a container. Its
      subject is created on first use from `initialValue`; `subjectValue` is the subject's
      current value, or None while the subject does not exist. */
  class ValuePublisher<V> {
    var initialValue: Option<V>
    var subjectValue: Option<V>

    /** `init()`. */
    constructor ()
      ensures initialValue == None && subjectValue == None
    {
      initialValue := None;
      subjectValue := None;
    }

    /** `init(_:)`. */
    constructor WithValue(wrappedValue: V)
      ensures initialValue == Some(wrappedValue) && subjectValue == None
    {
      initialValue := Some(wrappedValue);
      subjectValue := None;
    }

    /** Whether the subject can be created without trapping (`hasInitialValue` of its
        declaration). */
    predicate CanCreateSubject()
      reads this
    {
      initialValue.Some? || subjectValue.Some?
    }

    /** The `wrappedValue` setter: the first value assigned becomes the initial value for good,
        and every value assigned is sent to the subject. */
    method SetWrappedValue(newValue: V)
      modifies this
      ensures initialValue == (if old(initialValue).None? then Some(newValue) else old(initialValue))
      ensures subjectValue == Some(newValue)
      ensures CanCreateSubject()
    {
      if initialValue.None? {
        initialValue := Some(newValue);
      }
      if subjectValue.None? {
        subjectValue := initialValue;
      }
      subjectValue := Some(newValue);
    }

    /** The `wrappedValue` getter: the subject's value, creating the subject from `initialValue`
        first when it does not exist; None when that would unwrap a missing initial value. */
    method GetWrappedValue() returns (r: Option<V>)
      modifies this
      ensures r.None? <==> !old(CanCreateSubject())
      ensures old(subjectValue).Some? ==> r == old(subjectValue) && subjectValue == old(subjectValue)
      ensures old(subjectValue).None? ==> r == initialValue && subjectValue == initialValue
      ensures initialValue == old(initialValue)
    {
      if subjectValue.None? {
        subjectValue := initialValue;
      }
      r := subjectValue;
    }
  }
}
