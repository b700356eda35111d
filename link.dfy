/**
 * One cycle of the BLE supervision loop, as pure functions of abstract
 * transport outcomes: the connect retry with address-type fallback, the
 * search for the Client Characteristic Configuration descriptor (CCCD), the
 * retried enable-notifications write and the error-path cleanup.
 *
 * The radio is replaced by its answers: `connectOk(attempt, addrType)`
 * says whether that connect call succeeds, `writeOk(k)` whether the k-th
 * descriptor write succeeds, and a `Discovery` says what service and
 * characteristic lookup found. What the cycle does to the outside world
 * (sleeps, status posts to the UI, writes, the disconnect) is recorded as
 * a trace of `LinkEvent`s.
 */
module Link {
  import opened Wrappers

  /** The address type passed to the connect call. */
  datatype AddrType = Random | Public

  /** A connected peripheral, remembered with the address type that worked. */
  datatype Peripheral = Peripheral(addrType: AddrType)

  /** A GATT descriptor: its full 128-bit UUID and its attribute handle. */
  datatype Descriptor = Descriptor(uuid: nat, handle: nat)

  /**
   * Service and characteristic lookup: it raises (service not found, no
   * matching characteristic, descriptor listing failed), or it yields the
   * characteristic's handle and its descriptors in discovery order.
   */
  datatype Discovery = DiscoveryFailed | Discovered(charHandle: nat, descriptors: seq<Descriptor>)

  /** What one cycle does outside the controller's own fields, in order. */
  datatype LinkEvent =
    | ConnectCall(attempt: nat, addrType: AddrType)
    | Sleep(seconds: real)
    | ShowConnected
    | WriteCccd(handle: nat, value: seq<bv8>)
    | Disconnect
    | ShowDisconnected

  /** How far a cycle got before it took the error path. */
  datatype CycleExit =
    | Idle              // already connected: the cycle does nothing
    | ConnectFailed     // every connect attempt failed
    | SetupFailed       // service, characteristic or descriptor lookup raised
    | SubscribeFailed   // every enable-notifications write failed
    | LinkLost          // notifications were enabled; the wait loop later raised

  const MaxRetries: nat := 3
  const RetryDelay: real := 2.0
  const SettleDelay: real := 0.5
  const MaxNotifyRetries: nat := 3
  const NotifyRetryDelay: real := 0.5
  const CooldownDelay: real := 2.0

  /**
   * The Bluetooth Base UUID 00000000-0000-1000-8000-00805F9B34FB; a 16-bit
   * UUID xxxx stands for 0000xxxx-0000-1000-8000-00805F9B34FB (Bluetooth
   * Core Specification, Vol 3, Part B, section 2.5.1).
   */
  const BaseUuid: nat := 0x0000_0000_0000_1000_8000_0080_5F9B_34FB

  function FromShortUuid(short: nat): (u: nat)
    requires short < 0x1_0000
    ensures u % 0x1_0000_0000_0000_0000_0000_0000 == BaseUuid
    ensures u / 0x1_0000_0000_0000_0000_0000_0000 == short
  {
    short * 0x1_0000_0000_0000_0000_0000_0000 + BaseUuid
  }

  /** The Client Characteristic Configuration descriptor is 0x2902. */
  const CccdUuid: nat := FromShortUuid(0x2902)

  /**
   * The value written to the CCCD: two octets, little-endian, bit 0 enables
   * notifications and bit 1 indications (Bluetooth Core Specification,
   * Vol 3, Part G, section 3.3.3.3). `01 00` is the 16-bit value 1:
   * notifications on, indications off.
   */
  const EnableNotificationValue: seq<bv8> := [0x01, 0x00]

  /** The number of events of a trace that satisfy `p`. */
  function Count(events: seq<LinkEvent>, p: LinkEvent -> bool): (n: nat)
    ensures n <= |events|
    decreases |events|
  {
    if events == [] then 0 else (if p(events[0]) then 1 else 0) + Count(events[1..], p)
  }

  lemma {:induction false} CountAppend(a: seq<LinkEvent>, b: seq<LinkEvent>, p: LinkEvent -> bool)
    ensures Count(a + b, p) == Count(a, p) + Count(b, p)
    decreases |a|
  {
    if a == [] {
      assert a + b == b;
    } else {
      assert (a + b)[1..] == a[1..] + b;
      CountAppend(a[1..], b, p);
    }
  }

  /** A connect attempt: its first call (address type RANDOM). */
  predicate IsAttempt(e: LinkEvent) { e.ConnectCall? && e.addrType == Random }
  predicate IsSleep(e: LinkEvent) { e.Sleep? }
  predicate IsWrite(e: LinkEvent) { e.WriteCccd? }
  predicate IsShowConnected(e: LinkEvent) { e.ShowConnected? }

  // ---------------------------------------------------------------------
  // Connect with retry and address-type fallback

  /** One attempt: RANDOM, and PUBLIC only when RANDOM fails. */
  function AttemptOutcome(connectOk: (nat, AddrType) -> bool, attempt: nat): (o: Option<AddrType>)
    ensures o.None? <==> !connectOk(attempt, Random) && !connectOk(attempt, Public)
    ensures o == Some(Public) ==> !connectOk(attempt, Random)
  {
    if connectOk(attempt, Random) then Some(Random)
    else if connectOk(attempt, Public) then Some(Public)
    else None
  }

  function AttemptEvents(connectOk: (nat, AddrType) -> bool, attempt: nat): (ev: seq<LinkEvent>)
    ensures |ev| == if connectOk(attempt, Random) then 1 else 2
    ensures ev[0] == ConnectCall(attempt, Random)
    ensures |ev| == 2 ==> ev[1] == ConnectCall(attempt, Public)
  {
    [ConnectCall(attempt, Random)] + if connectOk(attempt, Random) then [] else [ConnectCall(attempt, Public)]
  }

  datatype ConnectResult = ConnectResult(peripheral: Option<Peripheral>, events: seq<LinkEvent>)

  /** Attempts `retry`, `retry` + 1, ... below `MaxRetries`, sleeping between two attempts. */
  function ConnectFrom(connectOk: (nat, AddrType) -> bool, retry: nat): (r: ConnectResult)
    requires retry < MaxRetries
    decreases MaxRetries - retry
  {
    var ev := AttemptEvents(connectOk, retry);
    match AttemptOutcome(connectOk, retry)
    case Some(t) => ConnectResult(Some(Peripheral(t)), ev)
    case None =>
      if retry < MaxRetries - 1 then
        var rest := ConnectFrom(connectOk, retry + 1);
        ConnectResult(rest.peripheral, ev + [Sleep(RetryDelay)] + rest.events)
      else
        ConnectResult(None, ev)
  }

  function Connect(connectOk: (nat, AddrType) -> bool): (r: ConnectResult)
  {
    ConnectFrom(connectOk, 0)
  }

  /** One step of `ConnectFrom`: the attempt at `retry`, then either the end or a sleep and the rest. */
  lemma ConnectFromStep(connectOk: (nat, AddrType) -> bool, retry: nat)
    requires retry < MaxRetries
    ensures var ev := AttemptEvents(connectOk, retry);
      ConnectFrom(connectOk, retry) ==
        if AttemptOutcome(connectOk, retry).Some? then
          ConnectResult(Some(Peripheral(AttemptOutcome(connectOk, retry).value)), ev)
        else if retry < MaxRetries - 1 then
          ConnectResult(ConnectFrom(connectOk, retry + 1).peripheral,
                        ev + [Sleep(RetryDelay)] + ConnectFrom(connectOk, retry + 1).events)
        else ConnectResult(None, ev)
  {
  }

  /** The events of `n` failed attempts, each followed by the retry delay. */
  function Failures(connectOk: (nat, AddrType) -> bool, n: nat): (ev: seq<LinkEvent>)
  {
    if n == 0 then [] else Failures(connectOk, n - 1) + AttemptEvents(connectOk, n - 1) + [Sleep(RetryDelay)]
  }

  /** After `n` failed attempts the connect phase is those failures followed by `ConnectFrom(n)`. */
  lemma {:induction false} ConnectAfterFailures(connectOk: (nat, AddrType) -> bool, n: nat)
    requires n < MaxRetries
    requires forall i :: 0 <= i < n ==> AttemptOutcome(connectOk, i).None?
    ensures Connect(connectOk).events == Failures(connectOk, n) + ConnectFrom(connectOk, n).events
    ensures Connect(connectOk).peripheral == ConnectFrom(connectOk, n).peripheral
  {
    if n > 0 {
      ConnectAfterFailures(connectOk, n - 1);
      assert AttemptOutcome(connectOk, n - 1).None?;
      ConnectFromStep(connectOk, n - 1);
      var done := Failures(connectOk, n - 1);
      var ev := AttemptEvents(connectOk, n - 1);
      var s := [Sleep(RetryDelay)];
      var rest := ConnectFrom(connectOk, n).events;
      assert ConnectFrom(connectOk, n - 1).events == ev + s + rest;
      assert Failures(connectOk, n) == done + ev + s;
      Regroup(done, ev, s, rest);
    }
  }

  lemma Regroup(a: seq<LinkEvent>, b: seq<LinkEvent>, c: seq<LinkEvent>, d: seq<LinkEvent>)
    ensures a + (b + c + d) == a + b + c + d
  {
  }

  /** Every PUBLIC call follows, immediately, the failed RANDOM call of the same attempt. */
  ghost predicate FallbackOnlyAfterRandom(connectOk: (nat, AddrType) -> bool, ev: seq<LinkEvent>)
  {
    forall k :: 0 <= k < |ev| && ev[k].ConnectCall? && ev[k].addrType == Public ==>
      k > 0 && ev[k - 1] == ConnectCall(ev[k].attempt, Random) && !connectOk(ev[k].attempt, Random)
  }

  /** The first attempt, from `retry` on, that connects; `None` when all the remaining ones fail. */
  function FirstConnected(connectOk: (nat, AddrType) -> bool, retry: nat): (f: Option<nat>)
    requires retry <= MaxRetries
    ensures f.Some? ==> retry <= f.value < MaxRetries && AttemptOutcome(connectOk, f.value).Some?
    decreases MaxRetries - retry
  {
    if retry == MaxRetries then None
    else if AttemptOutcome(connectOk, retry).Some? then Some(retry)
    else FirstConnected(connectOk, retry + 1)
  }

  lemma {:induction false} FirstConnectedIsFirst(connectOk: (nat, AddrType) -> bool, retry: nat)
    requires retry <= MaxRetries
    ensures var f := FirstConnected(connectOk, retry);
      && (f.None? <==> forall i :: retry <= i < MaxRetries ==> AttemptOutcome(connectOk, i).None?)
      && (f.Some? ==> && retry <= f.value < MaxRetries && AttemptOutcome(connectOk, f.value).Some?
                      && forall j :: retry <= j < f.value ==> AttemptOutcome(connectOk, j).None?)
    decreases MaxRetries - retry
  {
    if retry < MaxRetries && AttemptOutcome(connectOk, retry).None? {
      FirstConnectedIsFirst(connectOk, retry + 1);
    }
  }

  /** `ConnectFrom` connects at the first successful attempt, after one attempt and one sleep per failure. */
  lemma {:induction false} ConnectFromCounts(connectOk: (nat, AddrType) -> bool, retry: nat)
    requires retry < MaxRetries
    ensures var r := ConnectFrom(connectOk, retry);
      var f := FirstConnected(connectOk, retry);
      && (f.Some? ==> && r.peripheral == Some(Peripheral(AttemptOutcome(connectOk, f.value).value))
                      && Count(r.events, IsAttempt) == f.value - retry + 1
                      && Count(r.events, IsSleep) == f.value - retry)
      && (f.None? ==> && r.peripheral.None?
                      && Count(r.events, IsAttempt) == MaxRetries - retry
                      && Count(r.events, IsSleep) == MaxRetries - 1 - retry)
    decreases MaxRetries - retry
  {
    AttemptEventCounts(connectOk, retry);
    ConnectFromStep(connectOk, retry);
    if AttemptOutcome(connectOk, retry).None? && retry < MaxRetries - 1 {
      ConnectFromCounts(connectOk, retry + 1);
      RetryCounts(AttemptEvents(connectOk, retry), [Sleep(RetryDelay)], ConnectFrom(connectOk, retry + 1).events,
                  IsAttempt);
    }
  }

  /** A failed try and the sleep after it add one try (counted by `p`) and one sleep to what follows. */
  lemma RetryCounts(ev: seq<LinkEvent>, s: seq<LinkEvent>, rest: seq<LinkEvent>, p: LinkEvent -> bool)
    requires Count(ev, IsSleep) == 0 && Count(ev, p) == 1
    requires |s| == 1 && s[0].Sleep? && !p(s[0])
    ensures Count(ev + s + rest, IsSleep) == Count(rest, IsSleep) + 1
    ensures Count(ev + s + rest, p) == Count(rest, p) + 1
  {
    assert s[1..] == [];
    assert Count(s, IsSleep) == 1 && Count(s, p) == 0;
    CountAppend3(ev, s, rest, IsSleep);
    CountAppend3(ev, s, rest, p);
  }

  lemma CountAppend3(a: seq<LinkEvent>, b: seq<LinkEvent>, c: seq<LinkEvent>, p: LinkEvent -> bool)
    ensures Count(a + b + c, p) == Count(a, p) + Count(b, p) + Count(c, p)
  {
    CountAppend(a, b, p);
    CountAppend(a + b, c, p);
  }

  /** Whether `ConnectFrom` connects, and at which attempt, with what it costs in attempts and sleeps. */
  lemma ConnectFromSuccess(connectOk: (nat, AddrType) -> bool, retry: nat)
    requires retry < MaxRetries
    ensures var r := ConnectFrom(connectOk, retry);
      && (r.peripheral.Some? <==> exists i :: retry <= i < MaxRetries && AttemptOutcome(connectOk, i).Some?)
      && (r.peripheral.Some? ==>
            exists i :: retry <= i < MaxRetries
              && AttemptOutcome(connectOk, i) == Some(r.peripheral.value.addrType)
              && (forall j :: retry <= j < i ==> AttemptOutcome(connectOk, j).None?)
              && Count(r.events, IsAttempt) == i - retry + 1
              && Count(r.events, IsSleep) == i - retry)
      && (r.peripheral.None? ==>
            Count(r.events, IsAttempt) == MaxRetries - retry && Count(r.events, IsSleep) == MaxRetries - 1 - retry)
  {
    FirstConnectedIsFirst(connectOk, retry);
    ConnectFromCounts(connectOk, retry);
  }

  lemma AttemptEventCounts(connectOk: (nat, AddrType) -> bool, attempt: nat)
    ensures Count(AttemptEvents(connectOk, attempt), IsSleep) == 0
    ensures Count(AttemptEvents(connectOk, attempt), IsAttempt) == 1
  {
    var ev := AttemptEvents(connectOk, attempt);
    assert ev[1..] != [] ==> ev[1..][1..] == [];
  }

  /** The shape of `ConnectFrom`'s trace: where it starts, how it ends, what it sleeps, which attempts it makes. */
  lemma {:induction false} ConnectFromShape(connectOk: (nat, AddrType) -> bool, retry: nat)
    requires retry < MaxRetries
    ensures var ev := ConnectFrom(connectOk, retry).events;
      && |ev| > 0 && ev[0] == ConnectCall(retry, Random)
      && !ev[|ev| - 1].Sleep?
      && ConnectShaped(ev, retry)
    decreases MaxRetries - retry
  {
    var ev := AttemptEvents(connectOk, retry);
    assert ConnectShaped(ev, retry);
    if AttemptOutcome(connectOk, retry).None? && retry < MaxRetries - 1 {
      ConnectFromShape(connectOk, retry + 1);
      var rest := ConnectFrom(connectOk, retry + 1).events;
      ShapedConcat(ev, [Sleep(RetryDelay)], rest, retry);
    }
  }

  /** Connect calls for attempts from `retry` up to the last, and retry sleeps: nothing else. */
  ghost predicate ConnectShaped(ev: seq<LinkEvent>, retry: nat)
  {
    forall k :: 0 <= k < |ev| ==>
      (ev[k].ConnectCall? && retry <= ev[k].attempt < MaxRetries) || ev[k] == Sleep(RetryDelay)
  }

  lemma ShapedConcat(a: seq<LinkEvent>, b: seq<LinkEvent>, c: seq<LinkEvent>, retry: nat)
    requires ConnectShaped(a, retry) && b == [Sleep(RetryDelay)] && ConnectShaped(c, retry + 1)
    ensures ConnectShaped(a + b + c, retry)
  {
    var all := a + b + c;
    forall k | 0 <= k < |all|
      ensures (all[k].ConnectCall? && retry <= all[k].attempt < MaxRetries) || all[k] == Sleep(RetryDelay)
    {
      if k < |a| {
        assert all[k] == a[k];
      } else if k > |a| {
        assert all[k] == c[k - |a| - 1];
      }
    }
  }

  /** In `ConnectFrom`'s trace, PUBLIC is only ever the fallback of a failed RANDOM. */
  lemma {:induction false} ConnectFromFallback(connectOk: (nat, AddrType) -> bool, retry: nat)
    requires retry < MaxRetries
    ensures FallbackOnlyAfterRandom(connectOk, ConnectFrom(connectOk, retry).events)
    decreases MaxRetries - retry
  {
    var ev := AttemptEvents(connectOk, retry);
    if AttemptOutcome(connectOk, retry).None? && retry < MaxRetries - 1 {
      var rest := ConnectFrom(connectOk, retry + 1).events;
      ConnectFromFallback(connectOk, retry + 1);
      ConnectFromShape(connectOk, retry + 1);
      var all := ev + [Sleep(RetryDelay)] + rest;
      assert all[|ev|] == Sleep(RetryDelay);
      assert all[|ev| + 1] == ConnectCall(retry + 1, Random);
      forall k | 0 <= k < |all| && all[k].ConnectCall? && all[k].addrType == Public
        ensures k > 0 && all[k - 1] == ConnectCall(all[k].attempt, Random) && !connectOk(all[k].attempt, Random)
      {
        if k > |ev| + 1 {
          assert all[k] == rest[k - |ev| - 1];
          assert all[k - 1] == rest[k - |ev| - 2];
        } else if k < |ev| {
          assert all[k] == ev[k];
        }
      }
    }
  }

  /** A cycle's connect phase succeeds exactly when some attempt succeeds, and then at the first one. */
  lemma ConnectFirstSuccess(connectOk: (nat, AddrType) -> bool)
    ensures var r := Connect(connectOk);
      && (r.peripheral.Some? <==> exists i :: 0 <= i < MaxRetries && AttemptOutcome(connectOk, i).Some?)
      && (r.peripheral.Some? ==>
            exists i :: 0 <= i < MaxRetries
              && AttemptOutcome(connectOk, i) == Some(r.peripheral.value.addrType)
              && (forall j :: 0 <= j < i ==> AttemptOutcome(connectOk, j).None?)
              && Count(r.events, IsAttempt) == i + 1
              && Count(r.events, IsSleep) == i)
  {
    ConnectFromSuccess(connectOk, 0);
  }

  /**
   * At most three attempts, sleeping 2 seconds only between two of them
   * (never after the last), with PUBLIC tried only after a failed RANDOM.
   */
  lemma ConnectRetryBounds(connectOk: (nat, AddrType) -> bool)
    ensures var r := Connect(connectOk);
      && Count(r.events, IsAttempt) <= MaxRetries
      && Count(r.events, IsSleep) == Count(r.events, IsAttempt) - 1
      && r.events != [] && !r.events[|r.events| - 1].Sleep?
      && (forall k :: 0 <= k < |r.events| && r.events[k].Sleep? ==> r.events[k].seconds == RetryDelay)
      && (forall k :: 0 <= k < |r.events| && r.events[k].ConnectCall? ==> r.events[k].attempt < MaxRetries)
      && FallbackOnlyAfterRandom(connectOk, r.events)
      && (r.peripheral.None? ==> Count(r.events, IsAttempt) == MaxRetries)
      && r.events[0] == ConnectCall(0, Random)
      && SleepsBetweenAttempts(r.events)
  {
    ConnectFromSuccess(connectOk, 0);
    ConnectFromShape(connectOk, 0);
    ConnectFromFallback(connectOk, 0);
    ConnectFromOrder(connectOk, 0);
  }

  /**
   * Every sleep sits between two connect calls: after a call of some attempt
   * and right before the RANDOM call of the next attempt.
   */
  ghost predicate SleepsBetweenAttempts(ev: seq<LinkEvent>)
  {
    forall k :: 0 <= k < |ev| && ev[k].Sleep? ==>
      && 0 < k < |ev| - 1 && ev[k - 1].ConnectCall?
      && ev[k + 1] == ConnectCall(ev[k - 1].attempt + 1, Random)
  }

  lemma {:induction false} ConnectFromOrder(connectOk: (nat, AddrType) -> bool, retry: nat)
    requires retry < MaxRetries
    ensures SleepsBetweenAttempts(ConnectFrom(connectOk, retry).events)
    decreases MaxRetries - retry
  {
    var ev := AttemptEvents(connectOk, retry);
    ConnectFromStep(connectOk, retry);
    if AttemptOutcome(connectOk, retry).None? && retry < MaxRetries - 1 {
      ConnectFromOrder(connectOk, retry + 1);
      ConnectFromShape(connectOk, retry + 1);
      SleepBetweenAttempts(ev, [Sleep(RetryDelay)], ConnectFrom(connectOk, retry + 1).events, retry);
    }
  }

  /** A failed attempt, one sleep, then the trace from the next attempt on. */
  lemma SleepBetweenAttempts(a: seq<LinkEvent>, s: seq<LinkEvent>, c: seq<LinkEvent>, retry: nat)
    requires 0 < |a| <= 2 && forall k :: 0 <= k < |a| ==> a[k].ConnectCall? && a[k].attempt == retry
    requires s == [Sleep(RetryDelay)]
    requires |c| > 0 && c[0] == ConnectCall(retry + 1, Random) && SleepsBetweenAttempts(c)
    ensures SleepsBetweenAttempts(a + s + c)
  {
    var all := a + s + c;
    forall k | 0 <= k < |all| && all[k].Sleep?
      ensures && 0 < k < |all| - 1 && all[k - 1].ConnectCall?
              && all[k + 1] == ConnectCall(all[k - 1].attempt + 1, Random)
    {
      if k == |a| {
        assert all[k - 1] == a[|a| - 1];
        assert all[k + 1] == c[0];
      } else if k > |a| {
        var j := k - |a| - 1;
        assert all[k] == c[j];
        assert all[k - 1] == c[j - 1];
        assert all[k + 1] == c[j + 1];
      }
    }
  }

  /** Two failed attempts and a third that succeeds: connected, after exactly two retry sleeps. */
  lemma ConnectThirdTime(connectOk: (nat, AddrType) -> bool)
    requires forall t :: connectOk(0, t) == false && connectOk(1, t) == false
    requires connectOk(2, Random)
    ensures Connect(connectOk).peripheral == Some(Peripheral(Random))
    ensures Count(Connect(connectOk).events, IsSleep) == 2
    ensures Count(Connect(connectOk).events, IsAttempt) == 3
  {
    ConnectFromSuccess(connectOk, 0);
    assert AttemptOutcome(connectOk, 0).None? && AttemptOutcome(connectOk, 1).None?;
  }

  // ---------------------------------------------------------------------
  // CCCD handle

  /** The handle of the first CCCD among the descriptors, else the characteristic handle + 1. */
  function CccdHandle(descriptors: seq<Descriptor>, charHandle: nat): (h: nat)
    decreases |descriptors|
  {
    if descriptors == [] then charHandle + 1
    else if descriptors[0].uuid == CccdUuid then descriptors[0].handle
    else CccdHandle(descriptors[1..], charHandle)
  }

  lemma {:induction false} CccdHandleIsFirstCccd(descriptors: seq<Descriptor>, charHandle: nat)
    ensures (forall i :: 0 <= i < |descriptors| ==> descriptors[i].uuid != CccdUuid) ==>
              CccdHandle(descriptors, charHandle) == charHandle + 1
    ensures forall i :: 0 <= i < |descriptors| && descriptors[i].uuid == CccdUuid
              && (forall j :: 0 <= j < i ==> descriptors[j].uuid != CccdUuid)
              ==> CccdHandle(descriptors, charHandle) == descriptors[i].handle
    decreases |descriptors|
  {
    if descriptors != [] {
      CccdHandleIsFirstCccd(descriptors[1..], charHandle);
      forall i | 0 <= i < |descriptors| && descriptors[i].uuid == CccdUuid
        && (forall j :: 0 <= j < i ==> descriptors[j].uuid != CccdUuid)
        ensures CccdHandle(descriptors, charHandle) == descriptors[i].handle
      {
        if i > 0 {
          assert descriptors[1..][i - 1] == descriptors[i];
          forall j | 0 <= j < i - 1 ensures descriptors[1..][j].uuid != CccdUuid {
            assert descriptors[1..][j] == descriptors[j + 1];
          }
        }
      }
      if forall i :: 0 <= i < |descriptors| ==> descriptors[i].uuid != CccdUuid {
        forall j | 0 <= j < |descriptors[1..]| ensures descriptors[1..][j].uuid != CccdUuid {
          assert descriptors[1..][j] == descriptors[j + 1];
        }
      }
    }
  }

  // ---------------------------------------------------------------------
  // Enable notifications, with retry

  datatype NotifyResult = NotifyResult(enabled: bool, events: seq<LinkEvent>)

  /** Writes `k`, `k` + 1, ... below `MaxNotifyRetries`, sleeping between two of them. */
  function NotifyFrom(writeOk: nat -> bool, handle: nat, k: nat): (r: NotifyResult)
    requires k < MaxNotifyRetries
    decreases MaxNotifyRetries - k
  {
    var ev := [WriteCccd(handle, EnableNotificationValue)];
    if writeOk(k) then NotifyResult(true, ev)
    else if k < MaxNotifyRetries - 1 then
      var rest := NotifyFrom(writeOk, handle, k + 1);
      NotifyResult(rest.enabled, ev + [Sleep(NotifyRetryDelay)] + rest.events)
    else NotifyResult(false, ev)
  }

  function Notify(writeOk: nat -> bool, handle: nat): (r: NotifyResult)
  {
    NotifyFrom(writeOk, handle, 0)
  }

  /** The first write, from `k` on, that succeeds; `None` when all the remaining ones fail. */
  function FirstWritten(writeOk: nat -> bool, k: nat): (f: Option<nat>)
    requires k <= MaxNotifyRetries
    ensures f.Some? ==> k <= f.value < MaxNotifyRetries && writeOk(f.value)
    decreases MaxNotifyRetries - k
  {
    if k == MaxNotifyRetries then None
    else if writeOk(k) then Some(k)
    else FirstWritten(writeOk, k + 1)
  }

  lemma {:induction false} FirstWrittenIsFirst(writeOk: nat -> bool, k: nat)
    requires k <= MaxNotifyRetries
    ensures var f := FirstWritten(writeOk, k);
      && (f.None? <==> forall i :: k <= i < MaxNotifyRetries ==> !writeOk(i))
      && (f.Some? ==> && k <= f.value < MaxNotifyRetries && writeOk(f.value)
                      && forall j :: k <= j < f.value ==> !writeOk(j))
    decreases MaxNotifyRetries - k
  {
    if k < MaxNotifyRetries && !writeOk(k) {
      FirstWrittenIsFirst(writeOk, k + 1);
    }
  }

  /** `NotifyFrom` stops at the first successful write, with one write per attempt and a sleep between two. */
  lemma {:induction false} NotifyFromCounts(writeOk: nat -> bool, handle: nat, k: nat)
    requires k < MaxNotifyRetries
    ensures var r := NotifyFrom(writeOk, handle, k);
      var f := FirstWritten(writeOk, k);
      && r.enabled == f.Some?
      && Count(r.events, IsWrite) == (if f.Some? then f.value - k + 1 else MaxNotifyRetries - k)
      && Count(r.events, IsSleep) == Count(r.events, IsWrite) - 1
    decreases MaxNotifyRetries - k
  {
    var ev := [WriteCccd(handle, EnableNotificationValue)];
    assert Count(ev, IsWrite) == 1 && Count(ev, IsSleep) == 0;
    NotifyFromStep(writeOk, handle, k);
    if !writeOk(k) && k < MaxNotifyRetries - 1 {
      NotifyFromCounts(writeOk, handle, k + 1);
      RetryCounts(ev, [Sleep(NotifyRetryDelay)], NotifyFrom(writeOk, handle, k + 1).events, IsWrite);
    }
  }

  /** `NotifyFrom` only writes the enable value to the one handle, and sleeps 0.5 s. */
  lemma {:induction false} NotifyFromEvents(writeOk: nat -> bool, handle: nat, k: nat)
    requires k < MaxNotifyRetries
    ensures forall e :: e in NotifyFrom(writeOk, handle, k).events ==>
              e == WriteCccd(handle, EnableNotificationValue) || e == Sleep(NotifyRetryDelay)
    decreases MaxNotifyRetries - k
  {
    if !writeOk(k) && k < MaxNotifyRetries - 1 {
      NotifyFromEvents(writeOk, handle, k + 1);
    }
  }

  /** One step of `NotifyFrom`: the write at `k`, then either the end or a sleep and the rest. */
  lemma NotifyFromStep(writeOk: nat -> bool, handle: nat, k: nat)
    requires k < MaxNotifyRetries
    ensures var w := [WriteCccd(handle, EnableNotificationValue)];
      NotifyFrom(writeOk, handle, k) ==
        if writeOk(k) then NotifyResult(true, w)
        else if k < MaxNotifyRetries - 1 then
          NotifyResult(NotifyFrom(writeOk, handle, k + 1).enabled,
                       w + [Sleep(NotifyRetryDelay)] + NotifyFrom(writeOk, handle, k + 1).events)
        else NotifyResult(false, w)
  {
  }

  /** The events of `n` failed CCCD writes, each followed by the notify retry delay. */
  function WriteFailures(handle: nat, n: nat): (ev: seq<LinkEvent>)
  {
    if n == 0 then []
    else WriteFailures(handle, n - 1) + [WriteCccd(handle, EnableNotificationValue), Sleep(NotifyRetryDelay)]
  }

  /** After `n` failed writes the subscription phase is those failures followed by `NotifyFrom(n)`. */
  lemma {:induction false} NotifyAfterFailures(writeOk: nat -> bool, handle: nat, n: nat)
    requires n < MaxNotifyRetries
    requires forall i :: 0 <= i < n ==> !writeOk(i)
    ensures Notify(writeOk, handle).events == WriteFailures(handle, n) + NotifyFrom(writeOk, handle, n).events
    ensures Notify(writeOk, handle).enabled == NotifyFrom(writeOk, handle, n).enabled
  {
    if n > 0 {
      NotifyAfterFailures(writeOk, handle, n - 1);
      assert !writeOk(n - 1);
      NotifyFromStep(writeOk, handle, n - 1);
      var done := WriteFailures(handle, n - 1);
      var w := [WriteCccd(handle, EnableNotificationValue)];
      var s := [Sleep(NotifyRetryDelay)];
      var rest := NotifyFrom(writeOk, handle, n).events;
      assert NotifyFrom(writeOk, handle, n - 1).events == w + s + rest;
      assert WriteFailures(handle, n) == done + w + s;
      Regroup(done, w, s, rest);
    }
  }

  lemma NotifyFromFacts(writeOk: nat -> bool, handle: nat, k: nat)
    requires k < MaxNotifyRetries
    ensures var r := NotifyFrom(writeOk, handle, k);
      && (r.enabled <==> exists i :: k <= i < MaxNotifyRetries && writeOk(i))
      && (r.enabled ==> exists i :: k <= i < MaxNotifyRetries && writeOk(i)
                          && (forall j :: k <= j < i ==> !writeOk(j))
                          && Count(r.events, IsWrite) == i - k + 1)
      && (!r.enabled ==> Count(r.events, IsWrite) == MaxNotifyRetries - k)
      && Count(r.events, IsSleep) == Count(r.events, IsWrite) - 1
      && (forall e :: e in r.events ==>
            e == WriteCccd(handle, EnableNotificationValue) || e == Sleep(NotifyRetryDelay))
      && r.events[0] == WriteCccd(handle, EnableNotificationValue)
      && SleepsBetweenWrites(r.events)
  {
    FirstWrittenIsFirst(writeOk, k);
    NotifyFromCounts(writeOk, handle, k);
    NotifyFromEvents(writeOk, handle, k);
    NotifyFromOrder(writeOk, handle, k);
  }

  /** Every sleep sits between two CCCD writes. */
  ghost predicate SleepsBetweenWrites(ev: seq<LinkEvent>)
  {
    forall k :: 0 <= k < |ev| && ev[k].Sleep? ==> 0 < k < |ev| - 1 && ev[k - 1].WriteCccd? && ev[k + 1].WriteCccd?
  }

  lemma {:induction false} NotifyFromOrder(writeOk: nat -> bool, handle: nat, k: nat)
    requires k < MaxNotifyRetries
    ensures var ev := NotifyFrom(writeOk, handle, k).events;
      |ev| > 0 && ev[0] == WriteCccd(handle, EnableNotificationValue) && SleepsBetweenWrites(ev)
    decreases MaxNotifyRetries - k
  {
    NotifyFromStep(writeOk, handle, k);
    if !writeOk(k) && k < MaxNotifyRetries - 1 {
      NotifyFromOrder(writeOk, handle, k + 1);
      SleepBetweenWrites([WriteCccd(handle, EnableNotificationValue)], [Sleep(NotifyRetryDelay)],
                         NotifyFrom(writeOk, handle, k + 1).events);
    }
  }

  /** A failed write, one sleep, then the trace from the next write on. */
  lemma SleepBetweenWrites(w: seq<LinkEvent>, s: seq<LinkEvent>, c: seq<LinkEvent>)
    requires |w| == 1 && w[0].WriteCccd? && |s| == 1 && s[0].Sleep?
    requires |c| > 0 && c[0].WriteCccd? && SleepsBetweenWrites(c)
    ensures SleepsBetweenWrites(w + s + c)
  {
    var all := w + s + c;
    forall k | 0 <= k < |all| && all[k].Sleep?
      ensures 0 < k < |all| - 1 && all[k - 1].WriteCccd? && all[k + 1].WriteCccd?
    {
      if k > 1 {
        assert all[k] == c[k - 2];
        assert all[k - 1] == c[k - 3];
        assert all[k + 1] == c[k - 1];
      }
    }
  }

  /** The write is tried at most three times, stops at the first success and fails only after three failures. */
  lemma NotifyRetry(writeOk: nat -> bool, handle: nat)
    ensures var r := Notify(writeOk, handle);
      && (r.enabled <==> exists i :: 0 <= i < MaxNotifyRetries && writeOk(i))
      && (r.enabled ==> exists i :: 0 <= i < MaxNotifyRetries && writeOk(i)
                          && (forall j :: 0 <= j < i ==> !writeOk(j))
                          && Count(r.events, IsWrite) == i + 1)
      && (!r.enabled ==> Count(r.events, IsWrite) == MaxNotifyRetries)
      && Count(r.events, IsWrite) <= MaxNotifyRetries
  {
    NotifyFromFacts(writeOk, handle, 0);
  }

  // ---------------------------------------------------------------------
  // One cycle

  datatype CycleResult = CycleResult(
    connected: bool, peripheral: Option<Peripheral>, exit: CycleExit, events: seq<LinkEvent>)

  /** The error path: mark disconnected, disconnect a peripheral if there is one, forget it, cool down. */
  function ErrorPath(peripheral: Option<Peripheral>, exit: CycleExit, events: seq<LinkEvent>): (r: CycleResult)
    ensures !r.connected && r.peripheral.None? && r.exit == exit
    ensures |r.events| > |events| && r.events[..|events|] == events
    ensures r.events[|r.events| - 1] == Sleep(CooldownDelay)
  {
    CycleResult(false, None, exit, events + ErrorTail(peripheral))
  }

  /** The events of the error path: the disconnected status, a disconnect when there is a peripheral, the cool-down. */
  function ErrorTail(peripheral: Option<Peripheral>): (ev: seq<LinkEvent>)
  {
    [ShowDisconnected] + (if peripheral.Some? then [Disconnect] else []) + [Sleep(CooldownDelay)]
  }

  /** The events of the subscription phase, empty when service discovery failed. */
  function Subscription(discovery: Discovery, writeOk: nat -> bool): (ev: seq<LinkEvent>)
  {
    if discovery.Discovered? then Notify(writeOk, CccdHandle(discovery.descriptors, discovery.charHandle)).events
    else []
  }

  /** The trace of a cycle that starts disconnected, phase by phase. */
  lemma CycleTrace(peripheral: Option<Peripheral>, connectOk: (nat, AddrType) -> bool,
                   discovery: Discovery, writeOk: nat -> bool)
    ensures var c := Connect(connectOk);
      Cycle(false, peripheral, connectOk, discovery, writeOk).events
        == if c.peripheral.None? then c.events + ErrorTail(peripheral)
           else c.events + [ShowConnected, Sleep(SettleDelay)] + Subscription(discovery, writeOk) + ErrorTail(c.peripheral)
  {
  }

  /**
   * One pass of the supervision loop from the fields `connected` and
   * `peripheral`. A cycle that gets past the subscription waits for
   * notifications until the link raises, so every cycle that does anything
   * ends on the error path.
   */
  function Cycle(connected: bool, peripheral: Option<Peripheral>,
                 connectOk: (nat, AddrType) -> bool, discovery: Discovery, writeOk: nat -> bool): (r: CycleResult)
    ensures connected ==> r == CycleResult(connected, peripheral, Idle, [])
    ensures !connected ==> !r.connected && r.peripheral.None? && r.exit != Idle
  {
    if connected then CycleResult(connected, peripheral, Idle, [])
    else
      var c := Connect(connectOk);
      match c.peripheral
      case None => ErrorPath(peripheral, ConnectFailed, c.events)
      case Some(p) =>
        var ev := c.events + [ShowConnected, Sleep(SettleDelay)];
        match discovery
        case DiscoveryFailed => ErrorPath(Some(p), SetupFailed, ev)
        case Discovered(h, descriptors) =>
          var n := Notify(writeOk, CccdHandle(descriptors, h));
          ErrorPath(Some(p), if n.enabled then LinkLost else SubscribeFailed, ev + n.events)
  }

  /** Notifications get enabled in a cycle exactly when connect, lookup and one of three writes succeed. */
  lemma CycleSubscribesIff(peripheral: Option<Peripheral>, connectOk: (nat, AddrType) -> bool,
                           discovery: Discovery, writeOk: nat -> bool)
    ensures Cycle(false, peripheral, connectOk, discovery, writeOk).exit == LinkLost <==>
              && (exists i :: 0 <= i < MaxRetries && AttemptOutcome(connectOk, i).Some?)
              && discovery.Discovered?
              && (exists k :: 0 <= k < MaxNotifyRetries && writeOk(k))
    ensures Cycle(false, peripheral, connectOk, discovery, writeOk).exit == ConnectFailed <==>
              forall i :: 0 <= i < MaxRetries ==> AttemptOutcome(connectOk, i).None?
  {
    ConnectFromSuccess(connectOk, 0);
    if discovery.Discovered? {
      NotifyFromFacts(writeOk, CccdHandle(discovery.descriptors, discovery.charHandle), 0);
    }
  }

  /**
   * The two other exits: setup fails exactly when a connect succeeds and the
   * service, characteristic or descriptor lookup raises; the subscription
   * fails exactly when the lookup works but all three enable writes fail.
   */
  lemma CycleExitCases(peripheral: Option<Peripheral>, connectOk: (nat, AddrType) -> bool,
                       discovery: Discovery, writeOk: nat -> bool)
    ensures Cycle(false, peripheral, connectOk, discovery, writeOk).exit == SetupFailed <==>
              Connect(connectOk).peripheral.Some? && discovery.DiscoveryFailed?
    ensures Cycle(false, peripheral, connectOk, discovery, writeOk).exit == SubscribeFailed <==>
              && Connect(connectOk).peripheral.Some? && discovery.Discovered?
              && (forall k :: 0 <= k < MaxNotifyRetries ==> !writeOk(k))
  {
    if discovery.Discovered? {
      NotifyFromFacts(writeOk, CccdHandle(discovery.descriptors, discovery.charHandle), 0);
    }
  }

  /** The connect phase only connects and sleeps: no status post, no write, no disconnect. */
  lemma ConnectTraceQuiet(connectOk: (nat, AddrType) -> bool)
    ensures forall e :: e in Connect(connectOk).events ==> e.ConnectCall? || e.Sleep?
    ensures var ev := Connect(connectOk).events;
      && ShowConnected !in ev && ShowDisconnected !in ev && Disconnect !in ev
      && Count(ev, IsShowConnected) == 0 && Count(ev, IsWrite) == 0
  {
    var ev := Connect(connectOk).events;
    ConnectFromShape(connectOk, 0);
    assert forall e :: e in ev ==> e.ConnectCall? || e.Sleep?;
    CountNone(ev, IsShowConnected);
    CountNone(ev, IsWrite);
  }

  /**
   * Starting from no peripheral: the connected status is shown once exactly
   * when a connect attempt succeeds, the peripheral is disconnected exactly
   * then, and the disconnected status is always shown.
   */
  lemma CycleCleanup(connectOk: (nat, AddrType) -> bool, discovery: Discovery, writeOk: nat -> bool)
    ensures var r := Cycle(false, None, connectOk, discovery, writeOk);
      && (Disconnect in r.events <==> Connect(connectOk).peripheral.Some?)
      && (ShowConnected in r.events <==> Connect(connectOk).peripheral.Some?)
      && Count(r.events, IsShowConnected) == (if Connect(connectOk).peripheral.Some? then 1 else 0)
      && ShowDisconnected in r.events
  {
    if Connect(connectOk).peripheral.None? {
      CycleCleanupNoConnect(connectOk, discovery, writeOk);
    } else {
      CycleCleanupConnected(connectOk, discovery, writeOk);
    }
  }

  lemma CycleCleanupNoConnect(connectOk: (nat, AddrType) -> bool, discovery: Discovery, writeOk: nat -> bool)
    requires Connect(connectOk).peripheral.None?
    ensures var r := Cycle(false, None, connectOk, discovery, writeOk);
      && Disconnect !in r.events && ShowConnected !in r.events
      && Count(r.events, IsShowConnected) == 0 && ShowDisconnected in r.events
  {
    CycleTrace(None, connectOk, discovery, writeOk);
    ConnectTraceQuiet(connectOk);
    QuietTail(Connect(connectOk).events, ErrorTail(None));
  }

  lemma CycleCleanupConnected(connectOk: (nat, AddrType) -> bool, discovery: Discovery, writeOk: nat -> bool)
    requires Connect(connectOk).peripheral.Some?
    ensures var r := Cycle(false, None, connectOk, discovery, writeOk);
      && Disconnect in r.events && ShowConnected in r.events
      && Count(r.events, IsShowConnected) == 1 && ShowDisconnected in r.events
  {
    var c := Connect(connectOk);
    CycleTrace(None, connectOk, discovery, writeOk);
    ConnectTraceQuiet(connectOk);
    if discovery.Discovered? {
      NotifyTraceQuiet(writeOk, CccdHandle(discovery.descriptors, discovery.charHandle));
    }
    ConnectedTrace(c.events, Subscription(discovery, writeOk), c.peripheral);
  }

  /** A quiet connect phase followed by the error path: one disconnected status and nothing else. */
  lemma QuietTail(pre: seq<LinkEvent>, tail: seq<LinkEvent>)
    requires Count(pre, IsShowConnected) == 0 && ShowDisconnected !in pre && Disconnect !in pre
    requires tail == ErrorTail(None)
    ensures Disconnect !in pre + tail && ShowConnected !in pre + tail && ShowDisconnected in pre + tail
    ensures Count(pre + tail, IsShowConnected) == 0
  {
    assert ShowConnected !in pre by {
      if ShowConnected in pre {
        CountPositive(pre, IsShowConnected, ShowConnected);
      }
    }
    assert (pre + tail)[|pre|] == ShowDisconnected;
    CountNone(tail, IsShowConnected);
    CountAppend(pre, tail, IsShowConnected);
  }

  /** A connect phase, the connected status, a quiet subscription and the error path with a disconnect. */
  lemma ConnectedTrace(pre: seq<LinkEvent>, sub: seq<LinkEvent>, peripheral: Option<Peripheral>)
    requires Count(pre, IsShowConnected) == 0
    requires forall e :: e in sub ==> e.WriteCccd? || e.Sleep?
    requires peripheral.Some?
    ensures var ev := pre + [ShowConnected, Sleep(SettleDelay)] + sub + ErrorTail(peripheral);
      && Disconnect in ev && ShowConnected in ev && ShowDisconnected in ev
      && Count(ev, IsShowConnected) == 1
  {
    var mid := [ShowConnected, Sleep(SettleDelay)];
    var post := ErrorTail(peripheral);
    var ev := pre + mid + sub + post;
    assert post == [ShowDisconnected, Disconnect, Sleep(CooldownDelay)];
    assert ev[|pre|] == ShowConnected;
    assert ev[|pre| + 2 + |sub|] == ShowDisconnected;
    assert ev[|pre| + 3 + |sub|] == Disconnect;
    CountNone(sub, IsShowConnected);
    CountNone(post, IsShowConnected);
    assert Count(mid, IsShowConnected) == 1 by {
      assert mid[1..] == [Sleep(SettleDelay)];
    }
    CountSplit4(pre, mid, sub, post, IsShowConnected);
  }

  /** A counted event makes the count positive. */
  lemma {:induction false} CountPositive(events: seq<LinkEvent>, p: LinkEvent -> bool, e: LinkEvent)
    requires e in events && p(e)
    ensures Count(events, p) > 0
    decreases |events|
  {
    if events[0] != e {
      CountPositive(events[1..], p, e);
    }
  }

  /** The subscription phase only writes and sleeps. */
  lemma NotifyTraceQuiet(writeOk: nat -> bool, handle: nat)
    ensures forall e :: e in Notify(writeOk, handle).events ==> e.WriteCccd? || e.Sleep?
  {
    NotifyFromFacts(writeOk, handle, 0);
  }

  lemma {:induction false} CountNone(events: seq<LinkEvent>, p: LinkEvent -> bool)
    requires forall e :: e in events ==> !p(e)
    ensures Count(events, p) == 0
    decreases |events|
  {
    if events != [] {
      assert forall e :: e in events[1..] ==> e in events;
      CountNone(events[1..], p);
    }
  }

  /**
   * Every descriptor write of a cycle goes to the CCCD handle the search
   * chose, carries the enable-notifications value, and there are at most three.
   */
  lemma CycleWrites(peripheral: Option<Peripheral>, connectOk: (nat, AddrType) -> bool,
                    charHandle: nat, descriptors: seq<Descriptor>, writeOk: nat -> bool)
    ensures var r := Cycle(false, peripheral, connectOk, Discovered(charHandle, descriptors), writeOk);
      && (forall e :: e in r.events && e.WriteCccd? ==>
            e.handle == CccdHandle(descriptors, charHandle) && e.value == EnableNotificationValue)
      && Count(r.events, IsWrite) <= MaxNotifyRetries
  {
    if Connect(connectOk).peripheral.None? {
      CycleWritesNoConnect(peripheral, connectOk, Discovered(charHandle, descriptors), writeOk);
    } else {
      CycleWritesConnected(peripheral, connectOk, charHandle, descriptors, writeOk);
    }
  }

  lemma CycleWritesNoConnect(peripheral: Option<Peripheral>, connectOk: (nat, AddrType) -> bool,
                             discovery: Discovery, writeOk: nat -> bool)
    requires Connect(connectOk).peripheral.None?
    ensures var r := Cycle(false, peripheral, connectOk, discovery, writeOk);
      && (forall e :: e in r.events ==> !e.WriteCccd?)
      && Count(r.events, IsWrite) == 0
  {
    CycleTrace(peripheral, connectOk, discovery, writeOk);
    ConnectTraceQuiet(connectOk);
    NoWritesBeforeTail(Connect(connectOk).events, ErrorTail(peripheral), peripheral);
  }

  /** A connect phase followed directly by the error path writes nothing. */
  lemma NoWritesBeforeTail(pre: seq<LinkEvent>, post: seq<LinkEvent>, peripheral: Option<Peripheral>)
    requires forall e :: e in pre ==> e.ConnectCall? || e.Sleep?
    requires post == ErrorTail(peripheral)
    ensures forall e :: e in pre + post ==> !e.WriteCccd?
    ensures Count(pre + post, IsWrite) == 0
  {
    assert forall e :: e in pre + post ==> e in pre || e in post;
    CountNone(pre + post, IsWrite);
  }

  lemma CycleWritesConnected(peripheral: Option<Peripheral>, connectOk: (nat, AddrType) -> bool,
                             charHandle: nat, descriptors: seq<Descriptor>, writeOk: nat -> bool)
    requires Connect(connectOk).peripheral.Some?
    ensures var r := Cycle(false, peripheral, connectOk, Discovered(charHandle, descriptors), writeOk);
      && (forall e :: e in r.events && e.WriteCccd? ==>
            e.handle == CccdHandle(descriptors, charHandle) && e.value == EnableNotificationValue)
      && Count(r.events, IsWrite) <= MaxNotifyRetries
  {
    var c := Connect(connectOk);
    var h := CccdHandle(descriptors, charHandle);
    CycleTrace(peripheral, connectOk, Discovered(charHandle, descriptors), writeOk);
    ConnectTraceQuiet(connectOk);
    NotifyWritesTarget(writeOk, h);
    WritesOnlyInSubscription(c.events, [ShowConnected, Sleep(SettleDelay)], Notify(writeOk, h).events,
                             ErrorTail(c.peripheral), c.peripheral, h);
  }

  /** Around a subscription phase that writes only the enable value to `h`, nothing else writes. */
  lemma WritesOnlyInSubscription(pre: seq<LinkEvent>, mid: seq<LinkEvent>, sub: seq<LinkEvent>, post: seq<LinkEvent>,
                                 peripheral: Option<Peripheral>, h: nat)
    requires forall e :: e in pre ==> e.ConnectCall? || e.Sleep?
    requires Count(pre, IsWrite) == 0
    requires forall e :: e in sub && e.WriteCccd? ==> e == WriteCccd(h, EnableNotificationValue)
    requires Count(sub, IsWrite) <= MaxNotifyRetries
    requires mid == [ShowConnected, Sleep(SettleDelay)] && post == ErrorTail(peripheral)
    ensures forall e :: e in pre + mid + sub + post && e.WriteCccd? ==> e == WriteCccd(h, EnableNotificationValue)
    ensures Count(pre + mid + sub + post, IsWrite) <= MaxNotifyRetries
  {
    assert forall e :: e in pre + mid + sub + post ==> e in pre || e in mid || e in sub || e in post;
    CountNone(mid, IsWrite);
    CountNone(post, IsWrite);
    CountSplit4(pre, mid, sub, post, IsWrite);
  }

  lemma CountSplit4(a: seq<LinkEvent>, b: seq<LinkEvent>, c: seq<LinkEvent>, d: seq<LinkEvent>, p: LinkEvent -> bool)
    ensures Count(a + b + c + d, p) == Count(a, p) + Count(b, p) + Count(c, p) + Count(d, p)
  {
    CountAppend(a, b, p);
    CountAppend(a + b, c, p);
    CountAppend(a + b + c, d, p);
  }

  /** The subscription phase writes the enable value to the one handle, at most three times. */
  lemma NotifyWritesTarget(writeOk: nat -> bool, handle: nat)
    ensures var n := Notify(writeOk, handle);
      && (forall e :: e in n.events && e.WriteCccd? ==> e == WriteCccd(handle, EnableNotificationValue))
      && Count(n.events, IsWrite) <= MaxNotifyRetries
  {
    NotifyFromFacts(writeOk, handle, 0);
  }
}
