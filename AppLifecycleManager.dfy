/**
  `AppLifecycleManager`: reduces the application's lifecycle notifications to
  a stream of `AppLifecycleEvent`s and keeps track of whether the app is in
  the foreground.

  The manager registers one observer per notification when it is created.
  Each observer sends its event and three of them also set
  `appForegroundStatus`. The stream is modelled by `events`, the log of every
  event sent, oldest first; the observers by `observers`, the notifications
  observed, in registration order. Delivering a notification is calling the
  matching handler. The iOS variant is modelled.
*/
module Lifecycle {
  import opened Wrappers

  datatype AppLifecycleEvent =
    | ApplicationDidBecomeActive
    | ApplicationWillEnterForeground
    | ApplicationWillResignActive
    | ApplicationDidEnterBackground
    | ApplicationWillTerminate
    | ApplicationWillRestoreFromBluetooth

  datatype AppForegroundStatus = Foreground | ForegroundInactive | Background

  /** `UIApplication.State`, including the values a later system may add. */
  datatype ApplicationState = Active | Inactive | BackgroundState | UnknownState(rawValue: int)

  /** The notifications the manager observes. */
  datatype Notification =
    | DidBecomeActiveNotification
    | WillEnterForegroundNotification
    | WillResignActiveNotification
    | DidEnterBackgroundNotification
    | WillTerminateNotification

  /** `AppForegroundStatus.init(_:)`. */
  function StatusOf(state: ApplicationState): AppForegroundStatus {
    match state
    case Active => Foreground
    case Inactive => ForegroundInactive
    case BackgroundState => Background
    case UnknownState(_) => Background
  }

  /** The mapping is total and onto: only `.active` gives `.foreground`, only `.inactive` gives
      `.foregroundInactive`, and every other state gives `.background`. */
  lemma StatusOfCases(state: ApplicationState)
    ensures StatusOf(state) == Foreground <==> state == Active
    ensures StatusOf(state) == ForegroundInactive <==> state == Inactive
    ensures StatusOf(state) == Background <==> state != Active && state != Inactive
  {
  }

  /** The observers `init` registers, in the order it registers them. */
  const Observed: seq<Notification> := [
    DidBecomeActiveNotification,
    WillEnterForegroundNotification,
    WillResignActiveNotification,
    DidEnterBackgroundNotification,
    WillTerminateNotification
  ]

  /** The event each observer sends. */
  function EventOf(n: Notification): AppLifecycleEvent {
    match n
    case DidBecomeActiveNotification => ApplicationDidBecomeActive
    case WillEnterForegroundNotification => ApplicationWillEnterForeground
    case WillResignActiveNotification => ApplicationWillResignActive
    case DidEnterBackgroundNotification => ApplicationDidEnterBackground
    case WillTerminateNotification => ApplicationWillTerminate
  }

  /** The status an observer assigns, if it assigns one. */
  function StatusSetBy(n: Notification): Option<AppForegroundStatus> {
    match n
    case DidBecomeActiveNotification => Some(Foreground)
    case WillResignActiveNotification => Some(ForegroundInactive)
    case DidEnterBackgroundNotification => Some(Background)
    case _ => None
  }

  /** One observer run: the new status. */
  function Step(status: AppForegroundStatus, n: Notification): AppForegroundStatus {
    StatusSetBy(n).GetOr(status)
  }

  /** The status after a run of notifications delivered to a fresh manager, one step at a time. */
  function Replay(ns: seq<Notification>): AppForegroundStatus
    decreases |ns|
  {
    if ns == [] then Background else Step(Replay(ns[..|ns| - 1]), ns[|ns| - 1])
  }

  /** The events sent for a run of notifications. */
  function EventsOf(ns: seq<Notification>): (es: seq<AppLifecycleEvent>)
    ensures |es| == |ns|
    ensures forall i :: 0 <= i < |ns| ==> es[i] == EventOf(ns[i])
    decreases |ns|
  {
    if ns == [] then [] else EventsOf(ns[..|ns| - 1]) + [EventOf(ns[|ns| - 1])]
  }

  /** The status an event stands for: which observer sent it, and what that observer assigns. */
  function StatusSetByEvent(e: AppLifecycleEvent): Option<AppForegroundStatus> {
    match e
    case ApplicationDidBecomeActive => Some(Foreground)
    case ApplicationWillResignActive => Some(ForegroundInactive)
    case ApplicationDidEnterBackground => Some(Background)
    case _ => None
  }

  /** Reading the status off the event stream: the one set by the last status-setting event, or
      `.background` when none has been sent. */
  function LastSetStatus(events: seq<AppLifecycleEvent>): AppForegroundStatus
    decreases |events|
  {
    if events == [] then Background
    else match StatusSetByEvent(events[|events| - 1])
      case Some(s) => s
      case None => LastSetStatus(events[..|events| - 1])
  }

  /** Every observer sends the event matching the status it sets. */
  lemma EventMatchesStatus(n: Notification)
    ensures StatusSetByEvent(EventOf(n)) == StatusSetBy(n)
    ensures EventOf(n) != ApplicationWillRestoreFromBluetooth
  {
  }

  /** The status can always be read off the events sent: stepping through the observers gives the
      status set by the last status-setting event. */
  lemma {:induction false} ReplayIsLastSetStatus(ns: seq<Notification>)
    ensures Replay(ns) == LastSetStatus(EventsOf(ns))
    decreases |ns|
  {
    if ns != [] {
      var init := ns[..|ns| - 1];
      var last := ns[|ns| - 1];
      ReplayIsLastSetStatus(init);
      var es := EventsOf(ns);
      assert es[..|es| - 1] == EventsOf(init);
      assert es[|es| - 1] == EventOf(last);
      EventMatchesStatus(last);
    }
  }

  /** Notifications that set no status (will-enter-foreground, will-terminate) leave it alone,
      wherever they arrive. */
  lemma {:induction false} ReplayIgnoresNonSetting(ns: seq<Notification>, n: Notification, more: seq<Notification>)
    requires StatusSetBy(n).None?
    ensures Replay(ns + [n] + more) == Replay(ns + more)
    decreases |more|
  {
    if more == [] {
      assert ns + [n] + more == ns + [n];
      assert (ns + [n])[..|ns + [n]| - 1] == ns;
      assert ns + more == ns;
    } else {
      var init := more[..|more| - 1];
      var last := more[|more| - 1];
      ReplayIgnoresNonSetting(ns, n, init);
      assert (ns + [n] + more)[..|ns + [n] + more| - 1] == ns + [n] + init;
      assert (ns + more)[..|ns + more| - 1] == ns + init;
    }
  }

  class AppLifecycleManager {
    /** `appForegroundStatus`. */
    var appForegroundStatus: AppForegroundStatus
    /** Every event sent on `appLifecycleEventSubject`, oldest first. */
    var events: seq<AppLifecycleEvent>
    /** The notifications observed, in the order their observers were appended. */
    var observers: seq<Notification>

    /** The status is always the one the event stream reports, and the five observers are in place. */
    predicate Valid()
      reads this
    {
      observers == Observed && appForegroundStatus == LastSetStatus(events)
    }

    /** `init`: starts in the background, and appends the five observers in order. */
    constructor ()
      ensures Valid()
      ensures appForegroundStatus == Background && events == [] && observers == Observed
    {
      appForegroundStatus := Background;
      events := [];
      observers := [];
      observers := observers + [DidBecomeActiveNotification];
      observers := observers + [WillEnterForegroundNotification];
      observers := observers + [WillResignActiveNotification];
      observers := observers + [DidEnterBackgroundNotification];
      observers := observers + [WillTerminateNotification];
    }

    /** `sendAppLifecycleEvent(_:)`. */
    method SendAppLifecycleEvent(event: AppLifecycleEvent)
      modifies this`events
      ensures events == old(events) + [event]
      ensures old(Valid()) && (StatusSetByEvent(event).None? || StatusSetByEvent(event) == Some(appForegroundStatus)) ==> Valid()
    {
      events := events + [event];
      assert events[..|events| - 1] == old(events);
    }

    /** The observers run whatever was sent before: the three that assign a status restore
        `Valid()` outright, the two that do not keep it. */
    method DidBecomeActive()
      requires observers == Observed
      modifies this`appForegroundStatus, this`events
      ensures Valid()
      ensures appForegroundStatus == Foreground
      ensures events == old(events) + [ApplicationDidBecomeActive]
    {
      appForegroundStatus := Foreground;
      events := events + [ApplicationDidBecomeActive];
    }

    method WillEnterForeground()
      requires observers == Observed
      modifies this`events
      ensures old(Valid()) ==> Valid()
      ensures appForegroundStatus == old(appForegroundStatus)
      ensures events == old(events) + [ApplicationWillEnterForeground]
    {
      events := events + [ApplicationWillEnterForeground];
      assert events[..|events| - 1] == old(events);
    }

    method WillResignActive()
      requires observers == Observed
      modifies this`appForegroundStatus, this`events
      ensures Valid()
      ensures appForegroundStatus == ForegroundInactive
      ensures events == old(events) + [ApplicationWillResignActive]
    {
      appForegroundStatus := ForegroundInactive;
      events := events + [ApplicationWillResignActive];
    }

    method DidEnterBackground()
      requires observers == Observed
      modifies this`appForegroundStatus, this`events
      ensures Valid()
      ensures appForegroundStatus == Background
      ensures events == old(events) + [ApplicationDidEnterBackground]
    {
      appForegroundStatus := Background;
      events := events + [ApplicationDidEnterBackground];
    }

    method WillTerminate()
      requires observers == Observed
      modifies this`events
      ensures old(Valid()) ==> Valid()
      ensures appForegroundStatus == old(appForegroundStatus)
      ensures events == old(events) + [ApplicationWillTerminate]
    {
      events := events + [ApplicationWillTerminate];
      assert events[..|events| - 1] == old(events);
    }

    /** Delivers a notification to its observer. */
    method Receive(n: Notification)
      requires observers == Observed
      modifies this`appForegroundStatus, this`events
      ensures StatusSetBy(n).Some? || old(Valid()) ==> Valid()
      ensures appForegroundStatus == Step(old(appForegroundStatus), n)
      ensures events == old(events) + [EventOf(n)]
    {
      match n
      case DidBecomeActiveNotification => DidBecomeActive();
      case WillEnterForegroundNotification => WillEnterForeground();
      case WillResignActiveNotification => WillResignActive();
      case DidEnterBackgroundNotification => DidEnterBackground();
      case WillTerminateNotification => WillTerminate();
    }
  }
}
