/**
 * The controller object: the fields the application updates in place, and
 * its methods, each proved to change those fields exactly as the matching
 * function of `Session` (commands) or `Link` (one BLE supervision cycle)
 * says. GUI widgets, the converter and the radio are not fields: their
 * effects arrive as parameters (`outcome`, `connectOk`, `discovery`,
 * `writeOk`) or leave as a returned trace of `Link.LinkEvent`s.
 */
module Controller {
  import opened Wrappers
  import Session
  import Link

  class PresentationSystem {
    // Command side: debounce stamp, mode, list box, slides, status bar.
    var lastCommandTime: Option<real>
    var presentationMode: bool
    var listSize: nat
    var selection: Option<nat>
    var currentSlide: nat
    var slideCount: nat
    var status: Session.Status
    // Link side.
    var connected: bool
    var peripheral: Option<Link.Peripheral>

    /** The command-side fields as a value. */
    function Snapshot(): Session.Session
      reads this
    {
      Session.Session(lastCommandTime, presentationMode, listSize, selection, currentSlide, slideCount, status)
    }

    /** The object invariant: a valid session, and a peripheral exactly while connected. */
    ghost predicate Valid()
      reads this
    {
      Session.Valid(Snapshot()) && (connected <==> peripheral.Some?)
    }

    /**
     * Start-up with `presentationCount` files found in the presentation
     * directory: the first one is selected, nothing is connected.
     */
    constructor (presentationCount: nat)
      ensures Valid()
      ensures Snapshot() == Session.Initial(presentationCount)
      ensures !connected && peripheral.None?
    {
      lastCommandTime := None;
      presentationMode := false;
      listSize := presentationCount;
      selection := if presentationCount > 0 then Some(0) else None;
      currentSlide := 0;
      slideCount := 0;
      status := if presentationCount > 0 then Session.FoundPresentations(presentationCount) else Session.NoPresentations;
      connected := false;
      peripheral := None;
    }

    /** A command from the remote or the keyboard, at time `now`. */
    method HandleCommand(command: string, now: real, outcome: Session.LoadOutcome)
      requires Valid()
      modifies this
      ensures Valid()
      ensures Snapshot() == Session.Dispatch(old(Snapshot()), command, now, outcome)
      ensures connected == old(connected) && peripheral == old(peripheral)
    {
      if lastCommandTime.Some? && now - lastCommandTime.value < Session.DebounceWindow {
        return;
      }
      lastCommandTime := Some(now);
      if !presentationMode {
        if command == Session.Up {
          if selection.Some? && selection.value > 0 {
            selection := Some(selection.value - 1);
          }
        } else if command == Session.Down {
          if selection.Some? && selection.value < listSize - 1 {
            selection := Some(selection.value + 1);
          }
        } else if command == Session.Select {
          StartPresentation(outcome);
        }
      } else {
        if command == Session.Up {
          ShowPreviousSlide();
        } else if command == Session.Down {
          ShowNextSlide();
        } else if command == Session.Select {
          EndPresentation();
        }
      }
    }

    /** Start the selected presentation; with nothing selected, nothing happens. */
    method StartPresentation(outcome: Session.LoadOutcome)
      modifies this
      ensures old(Valid()) ==> Valid()
      ensures Snapshot() == Session.Start(old(Snapshot()), outcome)
      ensures connected == old(connected) && peripheral == old(peripheral)
    {
      if selection.Some? {
        status := Session.Starting(selection.value);
        presentationMode := true;
        LoadPresentation(outcome);
      }
    }

    /** Rebuild the slide list from the converter's outcome. */
    method LoadPresentation(outcome: Session.LoadOutcome)
      modifies this
      ensures old(Valid()) ==> Valid()
      ensures Snapshot() == Session.Load(old(Snapshot()), outcome)
      ensures connected == old(connected) && peripheral == old(peripheral)
    {
      slideCount := 0;
      match outcome {
        case Converted(pages) =>
          slideCount := pages;
          if slideCount > 0 {
            currentSlide := 0;
            ShowCurrentSlide();
          }
        case ConversionFailed(pagesBeforeError) =>
          slideCount := pagesBeforeError;
          status := Session.LoadError;
          EndPresentation();
      }
    }

    /** The status-bar part of showing the slide under the cursor. */
    method ShowCurrentSlide()
      modifies this
      ensures old(Valid()) ==> Valid()
      ensures Snapshot() == Session.ShowCurrentSlide(old(Snapshot()))
      ensures connected == old(connected) && peripheral == old(peripheral)
    {
      if currentSlide < slideCount {
        status := Session.SlideShown(currentSlide + 1, slideCount);
      }
    }

    method ShowNextSlide()
      modifies this
      ensures old(Valid()) ==> Valid()
      ensures Snapshot() == Session.NextSlide(old(Snapshot()))
      ensures connected == old(connected) && peripheral == old(peripheral)
    {
      if currentSlide < slideCount - 1 {
        currentSlide := currentSlide + 1;
        ShowCurrentSlide();
      }
    }

    method ShowPreviousSlide()
      modifies this
      ensures old(Valid()) ==> Valid()
      ensures Snapshot() == Session.PreviousSlide(old(Snapshot()))
      ensures connected == old(connected) && peripheral == old(peripheral)
    {
      if currentSlide > 0 {
        currentSlide := currentSlide - 1;
        ShowCurrentSlide();
      }
    }

    method EndPresentation()
      modifies this
      ensures old(Valid()) ==> Valid()
      ensures Snapshot() == Session.End(old(Snapshot()))
      ensures connected == old(connected) && peripheral == old(peripheral)
    {
      presentationMode := false;
      status := Session.PresentationEnded;
    }

    /**
     * One pass of the BLE supervision loop: connect if not connected,
     * subscribe to notifications, and (once the link fails) clean up.
     */
    method MaintainCycle(connectOk: (nat, Link.AddrType) -> bool, discovery: Link.Discovery, writeOk: nat -> bool)
        returns (exit: Link.CycleExit, events: seq<Link.LinkEvent>)
      requires Valid()
      modifies this`connected, this`peripheral
      ensures Valid()
      ensures Link.CycleResult(connected, peripheral, exit, events)
           == Link.Cycle(old(connected), old(peripheral), connectOk, discovery, writeOk)
    {
      if connected {
        exit, events := Link.Idle, [];
        return;
      }
      events := ConnectWithRetry(connectOk);
      if !connected {
        exit := Link.ConnectFailed;
        var tail := ErrorCleanup();
        events := events + tail;
        return;
      }
      events := events + [Link.ShowConnected, Link.Sleep(Link.SettleDelay)];
      match discovery {
        case DiscoveryFailed =>
          exit := Link.SetupFailed;
        case Discovered(charHandle, descriptors) =>
          var handle := FindCccdHandle(descriptors, charHandle);
          var enabled, written := EnableNotifications(handle, writeOk);
          events := events + written;
          exit := if enabled then Link.LinkLost else Link.SubscribeFailed;
      }
      var tail := ErrorCleanup();
      events := events + tail;
    }

    /** Up to three connect attempts, two seconds apart; the first success connects. */
    method ConnectWithRetry(connectOk: (nat, Link.AddrType) -> bool) returns (events: seq<Link.LinkEvent>)
      requires !connected
      modifies this`connected, this`peripheral
      ensures old(Valid()) ==> Valid()
      ensures connected == Link.Connect(connectOk).peripheral.Some?
      ensures peripheral == if connected then Link.Connect(connectOk).peripheral else old(peripheral)
      ensures events == Link.Connect(connectOk).events
    {
      events := [];
      var retry: nat := 0;
      while retry < Link.MaxRetries
        invariant retry <= Link.MaxRetries
        invariant !connected && peripheral == old(peripheral)
        invariant forall i :: 0 <= i < retry ==> Link.AttemptOutcome(connectOk, i).None?
        invariant retry < Link.MaxRetries ==> events == Link.Failures(connectOk, retry)
        invariant retry == Link.MaxRetries ==> events == Link.Connect(connectOk).events
        invariant retry == Link.MaxRetries ==> Link.Connect(connectOk).peripheral.None?
      {
        var outcome, attempted := ConnectAttempt(connectOk, retry);
        events := events + attempted;
        if outcome.Some? {
          peripheral := Some(Link.Peripheral(outcome.value));
          connected := true;
          Link.ConnectAfterFailures(connectOk, retry);
          Link.ConnectFromStep(connectOk, retry);
          break;
        }
        if retry < Link.MaxRetries - 1 {
          events := events + [Link.Sleep(Link.RetryDelay)];
        } else {
          Link.ConnectAfterFailures(connectOk, retry);
          Link.ConnectFromStep(connectOk, retry);
        }
        retry := retry + 1;
      }
    }

    /** One connect attempt: address type RANDOM, and PUBLIC if RANDOM raises. */
    static method ConnectAttempt(connectOk: (nat, Link.AddrType) -> bool, attempt: nat)
        returns (outcome: Option<Link.AddrType>, events: seq<Link.LinkEvent>)
      ensures outcome == Link.AttemptOutcome(connectOk, attempt)
      ensures events == Link.AttemptEvents(connectOk, attempt)
    {
      events := [Link.ConnectCall(attempt, Link.Random)];
      if connectOk(attempt, Link.Random) {
        outcome := Some(Link.Random);
      } else {
        events := events + [Link.ConnectCall(attempt, Link.Public)];
        outcome := if connectOk(attempt, Link.Public) then Some(Link.Public) else None;
      }
    }

    /** The error path: mark disconnected, disconnect and forget the peripheral, cool down. */
    method ErrorCleanup() returns (events: seq<Link.LinkEvent>)
      modifies this`connected, this`peripheral
      ensures Session.Valid(Snapshot()) ==> Valid()
      ensures !connected && peripheral.None?
      ensures events == [Link.ShowDisconnected]
                        + (if old(peripheral).Some? then [Link.Disconnect] else [])
                        + [Link.Sleep(Link.CooldownDelay)]
    {
      connected := false;
      events := [Link.ShowDisconnected];
      if peripheral.Some? {
        events := events + [Link.Disconnect];
        peripheral := None;
      }
      events := events + [Link.Sleep(Link.CooldownDelay)];
    }

    /** The first descriptor with the CCCD UUID gives the handle; otherwise the characteristic handle + 1. */
    static method FindCccdHandle(descriptors: seq<Link.Descriptor>, charHandle: nat) returns (handle: nat)
      ensures handle == Link.CccdHandle(descriptors, charHandle)
    {
      var cccd: Option<nat> := None;
      var i := 0;
      while i < |descriptors|
        invariant 0 <= i <= |descriptors|
        invariant cccd.None?
        invariant Link.CccdHandle(descriptors[i..], charHandle) == Link.CccdHandle(descriptors, charHandle)
      {
        if descriptors[i].uuid == Link.CccdUuid {
          cccd := Some(descriptors[i].handle);
          break;
        }
        i := i + 1;
      }
      if cccd.None? {
        handle := charHandle + 1;
      } else {
        handle := cccd.value;
      }
    }

    /** Write the enable-notifications value, up to three times, half a second apart. */
    static method EnableNotifications(handle: nat, writeOk: nat -> bool)
        returns (enabled: bool, events: seq<Link.LinkEvent>)
      ensures enabled == Link.Notify(writeOk, handle).enabled
      ensures events == Link.Notify(writeOk, handle).events
    {
      enabled, events := false, [];
      var attempt: nat := 0;
      while attempt < Link.MaxNotifyRetries
        invariant attempt <= Link.MaxNotifyRetries
        invariant !enabled
        invariant forall i :: 0 <= i < attempt ==> !writeOk(i)
        invariant attempt < Link.MaxNotifyRetries ==> events == Link.WriteFailures(handle, attempt)
        invariant attempt == Link.MaxNotifyRetries ==> events == Link.Notify(writeOk, handle).events
        invariant attempt == Link.MaxNotifyRetries ==> !Link.Notify(writeOk, handle).enabled
      {
        events := events + [Link.WriteCccd(handle, Link.EnableNotificationValue)];
        if writeOk(attempt) {
          enabled := true;
          Link.NotifyAfterFailures(writeOk, handle, attempt);
          Link.NotifyFromStep(writeOk, handle, attempt);
          break;
        }
        if attempt < Link.MaxNotifyRetries - 1 {
          events := events + [Link.Sleep(Link.NotifyRetryDelay)];
        } else {
          Link.NotifyAfterFailures(writeOk, handle, attempt);
          Link.NotifyFromStep(writeOk, handle, attempt);
        }
        attempt := attempt + 1;
      }
    }
  }

  /**
   * Three DOWN presses from the keyboard at 10.0, 10.5 and 11.5 seconds on a
   * list of five presentations: the debounce drops the second, so the
   * selection moves from item 0 to item 2.
   */
  method DebouncedDownScenario() returns (selected: Option<nat>)
    ensures selected == Some(2)
  {
    var app := new PresentationSystem(5);
    app.HandleCommand(Session.Down, 10.0, Session.Converted(0));
    app.HandleCommand(Session.Down, 10.5, Session.Converted(0));
    app.HandleCommand(Session.Down, 11.5, Session.Converted(0));
    selected := app.selection;
  }
}
