/**
  `DataManager`: the store of alarms and the selections made from it.

  The selections are functions of the alarm list and of the current instant
  `now` (the clock is an input). The manager itself is a class whose `alarms`
  field the source assigns; every assignment runs the `didSet` observer,
  which asks the scheduler to schedule the active alarms when the day is a
  trading day (an input: the calendar test is not modelled) and the mode is
  `.production`. The requests made of the scheduler are kept, in order, in
  `scheduled`.
*/
module DataManagers {
  import opened Wrappers
  import opened AlarmModel

  datatype DataMode = Production | DebugMultipleRelativeTimesToNow | DebugSingle

  // ---------------------------------------------------------------------
  // Filtering, as Swift's `filter`
  // ---------------------------------------------------------------------

  /** The elements that satisfy `p`, in their original order. */
  function Filter<T>(s: seq<T>, p: T -> bool): (r: seq<T>)
    ensures |r| <= |s|
    ensures forall i :: 0 <= i < |r| ==> p(r[i])
    decreases |s|
  {
    if s == [] then []
    else (if p(s[0]) then [s[0]] else []) + Filter(s[1..], p)
  }

  /** The filter keeps exactly the elements that satisfy the predicate. */
  lemma {:induction false} FilterMembers<T>(s: seq<T>, p: T -> bool)
    ensures forall x :: x in Filter(s, p) <==> x in s && p(x)
    decreases |s|
  {
    if s != [] {
      FilterMembers(s[1..], p);
      assert s == [s[0]] + s[1..];
    }
  }

  /** Filtering keeps the order: the filter of a concatenation is the concatenation of the filters. */
  lemma {:induction false} FilterConcat<T>(a: seq<T>, b: seq<T>, p: T -> bool)
    ensures Filter(a + b, p) == Filter(a, p) + Filter(b, p)
    decreases |a|
  {
    if a == [] {
      assert a + b == b;
    } else {
      FilterConcat(a[1..], b, p);
      assert (a + b)[0] == a[0];
      assert (a + b)[1..] == a[1..] + b;
    }
  }

  /** A predicate and its negation split a sequence: together they keep every element once. */
  lemma {:induction false} FilterPartition<T>(s: seq<T>, p: T -> bool, q: T -> bool)
    requires forall x :: q(x) == !p(x)
    ensures |Filter(s, p)| + |Filter(s, q)| == |s|
    decreases |s|
  {
    if s != [] {
      FilterPartition(s[1..], p, q);
    }
  }

  // ---------------------------------------------------------------------
  // The selections (computed properties of DataManager)
  // ---------------------------------------------------------------------

  /** `enabledAlarms`: the alarms the user has not disabled. */
  function EnabledAlarms(alarms: seq<Alarm>): seq<Alarm> {
    Filter(alarms, (a: Alarm) => a.alarmEnabled)
  }

  /** `inactiveDailyAlarms`: the enabled alarms whose time is already past. */
  function InactiveDailyAlarms(alarms: seq<Alarm>, now: int): seq<Alarm> {
    Filter(EnabledAlarms(alarms), (a: Alarm) => a.alarmTime < now)
  }

  /** The enabled alarms that are still to come (`alarmTime >= now`). */
  function FutureAlarms(alarms: seq<Alarm>, now: int): seq<Alarm> {
    Filter(EnabledAlarms(alarms), (a: Alarm) => a.alarmTime >= now)
  }

  /** `lastDeliveredAlarm`: the last inactive alarm, if there is one. */
  function LastDeliveredAlarm(alarms: seq<Alarm>, now: int): Option<Alarm> {
    var inactive := InactiveDailyAlarms(alarms, now);
    if inactive == [] then None else Some(inactive[|inactive| - 1])
  }

  /** `activeDailyAlarms`: the future alarms followed by the last delivered one. */
  function ActiveDailyAlarms(alarms: seq<Alarm>, now: int): seq<Alarm> {
    var futureAlarms := FutureAlarms(alarms, now);
    match LastDeliveredAlarm(alarms, now)
    case Some(last) => futureAlarms + [last]
    case None => futureAlarms
  }

  /** `firstIndex(where: { $0.alarmId == id })`. */
  function FirstIndexWithId(alarms: seq<Alarm>, id: string): (r: Option<nat>)
    ensures r.Some? ==> r.value < |alarms| && alarms[r.value].alarmId == id
    ensures r.Some? ==> forall j :: 0 <= j < r.value ==> alarms[j].alarmId != id
    ensures r.None? ==> forall j :: 0 <= j < |alarms| ==> alarms[j].alarmId != id
    decreases |alarms|
  {
    if alarms == [] then None
    else if alarms[0].alarmId == id then Some(0)
    else match FirstIndexWithId(alarms[1..], id)
      case None => None
      case Some(i) => Some(i + 1)
  }

  /** `fetchAlarmWith(id:)`: the first alarm with the given identifier. */
  function FetchAlarmWith(alarms: seq<Alarm>, id: string): (r: Option<Alarm>)
    ensures r.Some? <==> exists j :: 0 <= j < |alarms| && alarms[j].alarmId == id
    ensures r.Some? ==> r.value.alarmId == id && r.value in alarms
    ensures r.Some? ==> exists j :: 0 <= j < |alarms| && alarms[j] == r.value &&
                          forall k :: 0 <= k < j ==> alarms[k].alarmId != id
  {
    match FirstIndexWithId(alarms, id)
    case None => None
    case Some(i) => Some(alarms[i])
  }

  /** The list `updateAlarmWith(updatedAlarm:)` leaves: the first alarm with the same identifier replaced. */
  function UpdatedWith(alarms: seq<Alarm>, updatedAlarm: Alarm): seq<Alarm> {
    match FirstIndexWithId(alarms, updatedAlarm.alarmId)
    case None => alarms
    case Some(i) => alarms[i := updatedAlarm]
  }

  // ---------------------------------------------------------------------
  // Properties of the selections
  // ---------------------------------------------------------------------

  /** `enabledAlarms` keeps exactly the enabled alarms, in order: it distributes over concatenation. */
  lemma EnabledAlarmsExactly(alarms: seq<Alarm>, more: seq<Alarm>)
    ensures forall a :: a in EnabledAlarms(alarms) <==> a in alarms && a.alarmEnabled
    ensures EnabledAlarms(alarms + more) == EnabledAlarms(alarms) + EnabledAlarms(more)
  {
    FilterMembers(alarms, (a: Alarm) => a.alarmEnabled);
    FilterConcat(alarms, more, (a: Alarm) => a.alarmEnabled);
  }

  /** Every enabled alarm is either inactive or still to come, never both. */
  lemma EnabledSplitsIntoInactiveAndFuture(alarms: seq<Alarm>, now: int)
    ensures |InactiveDailyAlarms(alarms, now)| + |FutureAlarms(alarms, now)| == |EnabledAlarms(alarms)|
    ensures forall a :: a in InactiveDailyAlarms(alarms, now) <==> a in alarms && a.alarmEnabled && a.alarmTime < now
    ensures forall a :: a in FutureAlarms(alarms, now) <==> a in alarms && a.alarmEnabled && a.alarmTime >= now
  {
    FilterPartition(EnabledAlarms(alarms), (a: Alarm) => a.alarmTime < now, (a: Alarm) => a.alarmTime >= now);
    FilterMembers(alarms, (a: Alarm) => a.alarmEnabled);
    FilterMembers(EnabledAlarms(alarms), (a: Alarm) => a.alarmTime < now);
    FilterMembers(EnabledAlarms(alarms), (a: Alarm) => a.alarmTime >= now);
  }

  /** The last delivered alarm is absent exactly when no enabled alarm is past; otherwise it is an
      enabled, past alarm of the list. */
  lemma LastDeliveredIsPastAndEnabled(alarms: seq<Alarm>, now: int)
    ensures LastDeliveredAlarm(alarms, now).None? <==> forall a :: a in alarms ==> !(a.alarmEnabled && a.alarmTime < now)
    ensures LastDeliveredAlarm(alarms, now).Some? ==>
              var a := LastDeliveredAlarm(alarms, now).value;
              a in alarms && a.alarmEnabled && a.alarmTime < now
  {
    var inactive := InactiveDailyAlarms(alarms, now);
    FilterMembers(alarms, (a: Alarm) => a.alarmEnabled);
    FilterMembers(EnabledAlarms(alarms), (a: Alarm) => a.alarmTime < now);
    if inactive != [] {
      assert inactive[|inactive| - 1] in inactive;
    }
  }

  /** "Last" means last in list order: appending an alarm makes it the last delivered one exactly
      when it is enabled and past, and leaves the answer alone otherwise. */
  lemma LastDeliveredAfterAppend(alarms: seq<Alarm>, x: Alarm, now: int)
    ensures LastDeliveredAlarm(alarms + [x], now) ==
              if x.alarmEnabled && x.alarmTime < now then Some(x) else LastDeliveredAlarm(alarms, now)
  {
    var enabled := (a: Alarm) => a.alarmEnabled;
    var past := (a: Alarm) => a.alarmTime < now;
    FilterConcat(alarms, [x], enabled);
    assert Filter([x], enabled) == if x.alarmEnabled then [x] else [] by {
      assert [x][1..] == [];
    }
    FilterConcat(EnabledAlarms(alarms), Filter([x], enabled), past);
    if x.alarmEnabled {
      assert Filter([x], past) == if x.alarmTime < now then [x] else [] by {
        assert [x][1..] == [];
      }
    } else {
      assert EnabledAlarms(alarms + [x]) == EnabledAlarms(alarms) + [];
    }
  }

  /** The active alarms are the future alarms, in order, then the last delivered alarm if any:
      one more than the future alarms exactly when some enabled alarm is past; all of them enabled. */
  lemma ActiveDailyAlarmsShape(alarms: seq<Alarm>, now: int)
    ensures var active := ActiveDailyAlarms(alarms, now);
      var future := FutureAlarms(alarms, now);
      && active[..|future|] == future
      && |active| == |future| + (if InactiveDailyAlarms(alarms, now) == [] then 0 else 1)
      && (forall a :: a in active ==> a in alarms && a.alarmEnabled)
      && (LastDeliveredAlarm(alarms, now).Some? ==> active[|active| - 1] == LastDeliveredAlarm(alarms, now).value)
      && (forall i :: 0 <= i < |future| ==> active[i].alarmTime >= now)
  {
    EnabledSplitsIntoInactiveAndFuture(alarms, now);
    LastDeliveredIsPastAndEnabled(alarms, now);
    var future := FutureAlarms(alarms, now);
    forall i | 0 <= i < |future| ensures future[i].alarmTime >= now {
      assert future[i] in future;
    }
  }

  /** The first index is determined: any index holding the identifier, with none before it, is the one found. */
  lemma {:induction false} FirstIndexIsTheFirstMatch(alarms: seq<Alarm>, id: string, i: nat)
    requires i < |alarms| && alarms[i].alarmId == id
    requires forall j :: 0 <= j < i ==> alarms[j].alarmId != id
    ensures FirstIndexWithId(alarms, id) == Some(i)
    decreases i
  {
    if alarms[0].alarmId != id {
      FirstIndexIsTheFirstMatch(alarms[1..], id, i - 1);
    }
  }

  /** `updateAlarmWith` keeps the length, replaces only the first alarm with the same identifier,
      and changes nothing when no alarm has that identifier. */
  lemma UpdatedWithReplacesFirstMatch(alarms: seq<Alarm>, updatedAlarm: Alarm)
    ensures |UpdatedWith(alarms, updatedAlarm)| == |alarms|
    ensures (forall j :: 0 <= j < |alarms| ==> alarms[j].alarmId != updatedAlarm.alarmId) ==>
              UpdatedWith(alarms, updatedAlarm) == alarms
    ensures forall i :: (0 <= i < |alarms| && alarms[i].alarmId == updatedAlarm.alarmId &&
                         forall j :: 0 <= j < i ==> alarms[j].alarmId != updatedAlarm.alarmId) ==>
              UpdatedWith(alarms, updatedAlarm) == alarms[i := updatedAlarm]
  {
    forall i | 0 <= i < |alarms| && alarms[i].alarmId == updatedAlarm.alarmId &&
               (forall j :: 0 <= j < i ==> alarms[j].alarmId != updatedAlarm.alarmId)
      ensures FirstIndexWithId(alarms, updatedAlarm.alarmId) == Some(i)
    {
      FirstIndexIsTheFirstMatch(alarms, updatedAlarm.alarmId, i);
    }
  }

  /** After an update, fetching by the updated alarm's identifier gives the updated alarm whenever
      some alarm had that identifier. */
  lemma FetchAfterUpdate(alarms: seq<Alarm>, updatedAlarm: Alarm)
    requires FetchAlarmWith(alarms, updatedAlarm.alarmId).Some?
    ensures FetchAlarmWith(UpdatedWith(alarms, updatedAlarm), updatedAlarm.alarmId) == Some(updatedAlarm)
  {
    var id := updatedAlarm.alarmId;
    var i := FirstIndexWithId(alarms, id).value;
    var after := UpdatedWith(alarms, updatedAlarm);
    assert after == alarms[i := updatedAlarm];
    FirstIndexIsTheFirstMatch(after, id, i);
  }

  // ---------------------------------------------------------------------
  // The manager
  // ---------------------------------------------------------------------

  class DataManager {
    /** Which set of default alarms is in use. */
    var mode: DataMode
    /** The stored alarms (the `alarms` property and its wrapper). */
    var alarms: Alarms
    /** Each list handed to `alarmScheduler.schedule(alarms:)`, oldest first. */
    var scheduled: seq<seq<Alarm>>

    /** The manager before its first load: loading the JSON file is not modelled. */
    constructor (mode: DataMode)
      ensures this.mode == mode && alarms == Alarms([]) && scheduled == []
    {
      this.mode := mode;
      alarms := Alarms([]);
      scheduled := [];
    }

    /** `allAlarms`. */
    function AllAlarms(): seq<Alarm>
      reads this
    {
      alarms.alarms
    }

    /** The `didSet` observer of `alarms`. */
    method DidSetAlarms(isTradingDay: bool, now: int)
      modifies this`scheduled
      ensures scheduled == old(scheduled) +
        (if isTradingDay && mode == Production then [ActiveDailyAlarms(alarms.alarms, now)] else [])
    {
      if isTradingDay && mode == Production {
        scheduled := scheduled + [ActiveDailyAlarms(alarms.alarms, now)];
      }
    }

    /** Assigning `alarms` (as `parse(data:)` does once the file is decoded). */
    method SetAlarms(newAlarms: Alarms, isTradingDay: bool, now: int)
      modifies this`alarms, this`scheduled
      ensures alarms == newAlarms && mode == old(mode)
      ensures scheduled == old(scheduled) +
        (if isTradingDay && mode == Production then [ActiveDailyAlarms(newAlarms.alarms, now)] else [])
    {
      alarms := newAlarms;
      DidSetAlarms(isTradingDay, now);
    }

    /** `fetchAlarmWith(id:)`. */
    function FetchAlarm(id: string): (r: Option<Alarm>)
      reads this
      ensures r.Some? ==> r.value.alarmId == id && r.value in alarms.alarms
    {
      FetchAlarmWith(alarms.alarms, id)
    }

    /** `updateAlarmWith(updatedAlarm:)`: writing `alarms.alarms[index]` runs the `didSet` observer;
        when no alarm matches nothing is written and nothing is scheduled. */
    method UpdateAlarmWith(updatedAlarm: Alarm, isTradingDay: bool, now: int)
      modifies this`alarms, this`scheduled
      ensures alarms.alarms == UpdatedWith(old(alarms.alarms), updatedAlarm)
      ensures FirstIndexWithId(old(alarms.alarms), updatedAlarm.alarmId).None? ==>
                scheduled == old(scheduled)
      ensures FirstIndexWithId(old(alarms.alarms), updatedAlarm.alarmId).Some? ==>
                scheduled == old(scheduled) +
                  (if isTradingDay && mode == Production then [ActiveDailyAlarms(alarms.alarms, now)] else [])
    {
      var index := FirstIndexWithId(alarms.alarms, updatedAlarm.alarmId);
      if index.None? {
        return;
      }
      alarms := alarms.(alarms := alarms.alarms[index.value := updatedAlarm]);
      DidSetAlarms(isTradingDay, now);
    }
  }
}
