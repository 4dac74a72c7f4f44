/**
 * The barcode cooldown of the camera screen (`handleBarcodeScan`). A scan
 * that arrives while a code is displayed is ignored. Otherwise the scan's
 * payload (or "" when it has none) becomes the displayed code and a timer is
 * scheduled to clear the display `CooldownMs` later. Every accepted scan
 * schedules its own timer, even one with an empty payload, so several clear
 * timers can be pending at once; whichever fires clears the display.
 *
 * Time is explicit: `Elapsed` advances the clock and `Expired` fires one
 * pending timer that is due.
 */
module Debounce {
  import opened Wrappers

  /** Delay of the clear timer, in milliseconds. */
  const CooldownMs := 2000

  /** `result?.data || ""`: the scanned text, or "" for a missing result or payload. */
  function PayloadText(payload: Option<string>): string
  {
    match payload
    case Some(text) => text
    case None => ""
  }

  /**
   * The screen's cooldown state: the displayed code ("" when none), the due
   * times of the pending clear timers in the order they were scheduled, and
   * the current time.
   */
  datatype Snapshot = Snapshot(code: string, pending: seq<int>, now: int)

  const Initial := Snapshot("", [], 0)

  datatype Event =
    | Scanned(payload: Option<string>)   // the camera reports a barcode
    | Elapsed(ms: nat)                   // the clock advances
    | Expired(index: nat)                // the pending timer at this index fires

  /** Timer `i` exists and its due time has come. */
  predicate IsDue(d: Snapshot, i: nat)
  {
    i < |d.pending| && d.pending[i] <= d.now
  }

  function Without(s: seq<int>, i: nat): seq<int>
    requires i < |s|
  {
    s[..i] + s[i + 1..]
  }

  /** One event's effect. An `Expired` naming no due timer is not an event and changes nothing. */
  function Step(d: Snapshot, e: Event): Snapshot
  {
    match e
    case Scanned(payload) =>
      if d.code != "" then d
      else d.(code := PayloadText(payload), pending := d.pending + [d.now + CooldownMs])
    case Elapsed(ms) =>
      d.(now := d.now + ms)
    case Expired(i) =>
      if IsDue(d, i) then d.(code := "", pending := Without(d.pending, i)) else d
  }

  /** The events processed one after another, each against the state the previous one left. */
  function Run(d: Snapshot, events: seq<Event>): Snapshot
    decreases |events|
  {
    if events == [] then d else Run(Step(d, events[0]), events[1..])
  }

  predicate Sorted(s: seq<int>)
  {
    forall i, j :: 0 <= i < j < |s| ==> s[i] <= s[j]
  }

  /**
   * What every reachable state satisfies: timers are due in the order they
   * were scheduled, none is due later than one cooldown from now, and a
   * displayed code always has a pending timer that will clear it.
   */
  predicate Consistent(d: Snapshot)
  {
    Sorted(d.pending) &&
    (forall i :: 0 <= i < |d.pending| ==> d.pending[i] <= d.now + CooldownMs) &&
    (d.code != "" ==> d.pending != [])
  }

  lemma StepKeepsConsistent(d: Snapshot, e: Event)
    requires Consistent(d)
    ensures Consistent(Step(d, e))
  {
  }

  lemma {:induction false} RunKeepsConsistent(d: Snapshot, events: seq<Event>)
    requires Consistent(d)
    ensures Consistent(Run(d, events))
    decreases |events|
  {
    if events != [] {
      StepKeepsConsistent(d, events[0]);
      RunKeepsConsistent(Step(d, events[0]), events[1..]);
    }
  }

  /** Every state reachable from the initial one is consistent. */
  lemma ReachableIsConsistent(events: seq<Event>)
    ensures Consistent(Run(Initial, events))
  {
    RunKeepsConsistent(Initial, events);
  }

  predicate NoExpiry(events: seq<Event>)
  {
    forall k :: 0 <= k < |events| ==> !events[k].Expired?
  }

  /**
   * While a code is displayed and no timer fires, no scan can replace the
   * code or schedule another timer, however many arrive and however much
   * time passes.
   */
  lemma {:induction false} DisplayedCodeHoldsUntilExpiry(d: Snapshot, events: seq<Event>)
    requires d.code != "" && NoExpiry(events)
    ensures Run(d, events).code == d.code
    ensures Run(d, events).pending == d.pending
    decreases |events|
  {
    if events != [] {
      assert !events[0].Expired?;
      DisplayedCodeHoldsUntilExpiry(Step(d, events[0]), events[1..]);
    }
  }

  /** The first non-empty payload among the scans, or "" when there is none. */
  function FirstPayload(events: seq<Event>): string
    decreases |events|
  {
    if events == [] then ""
    else if events[0].Scanned? && PayloadText(events[0].payload) != "" then PayloadText(events[0].payload)
    else FirstPayload(events[1..])
  }

  /**
   * Starting with nothing displayed and with no timer firing, the displayed
   * code ends up being the first non-empty payload scanned; later payloads,
   * equal or different, are ignored.
   */
  lemma {:induction false} FirstPayloadWins(d: Snapshot, events: seq<Event>)
    requires d.code == "" && NoExpiry(events)
    ensures Run(d, events).code == FirstPayload(events)
    decreases |events|
  {
    if events != [] {
      var next := Step(d, events[0]);
      assert !events[0].Expired?;
      if next.code != "" {
        DisplayedCodeHoldsUntilExpiry(next, events[1..]);
      } else {
        FirstPayloadWins(next, events[1..]);
      }
    }
  }

  /**
   * Once a full cooldown has passed, every pending timer is due; in
   * particular a displayed code is then certain to have a due timer that
   * clears it.
   */
  lemma AllDueAfterCooldown(d: Snapshot)
    requires Consistent(d)
    ensures forall i :: 0 <= i < |d.pending| ==> IsDue(Step(d, Elapsed(CooldownMs)), i)
    ensures d.code != "" ==> Step(Step(d, Elapsed(CooldownMs)), Expired(0)).code == ""
  {
  }

  /**
   * A scan with an empty payload still schedules a clear timer, and that
   * stale timer clears a code displayed after it early: here "y" is cleared
   * only 500 ms after it appeared.
   */
  lemma StaleTimerClearsEarly()
    ensures Run(Initial, [Scanned(Some("")), Elapsed(1500), Scanned(Some("y"))]).code == "y"
    ensures Run(Initial, [Scanned(Some("")), Elapsed(1500), Scanned(Some("y")), Elapsed(500), Expired(0)]).code == ""
  {
  }

  /**
   * The screen's cooldown state as a mutable object: `Scan` is
   * `handleBarcodeScan`, `Fire` is a scheduled clear running, and `Tick`
   * lets time pass.
   */
  class BarcodeScanner {
    var code: string
    var pending: seq<int>
    var now: int

    function State(): Snapshot
      reads this
    {
      Snapshot(code, pending, now)
    }

    ghost predicate Valid()
      reads this
    {
      Consistent(State())
    }

    constructor ()
      ensures Valid()
      ensures code == "" && pending == [] && now == 0
    {
      code, pending, now := "", [], 0;
    }

    method Scan(payload: Option<string>)
      requires Valid()
      modifies this
      ensures Valid()
      ensures old(code) != "" ==> code == old(code) && pending == old(pending)
      ensures old(code) == "" ==> code == PayloadText(payload) && pending == old(pending) + [now + CooldownMs]
      ensures now == old(now)
      ensures State() == Step(old(State()), Scanned(payload))
    {
      StepKeepsConsistent(State(), Scanned(payload));
      if code != "" {
        return;
      }
      code := PayloadText(payload);
      pending := pending + [now + CooldownMs];
    }

    method Tick(ms: nat)
      requires Valid()
      modifies this
      ensures Valid()
      ensures now == old(now) + ms
      ensures code == old(code) && pending == old(pending)
      ensures State() == Step(old(State()), Elapsed(ms))
    {
      StepKeepsConsistent(State(), Elapsed(ms));
      now := now + ms;
    }

    /** The pending timer at `i`, which is due, fires: whichever scan set it, the display clears. */
    method Fire(i: nat)
      requires Valid()
      requires i < |pending| && pending[i] <= now
      modifies this
      ensures Valid()
      ensures code == ""
      ensures pending == old(pending[..i] + pending[i + 1..])
      ensures now == old(now)
      ensures State() == Step(old(State()), Expired(i))
    {
      StepKeepsConsistent(State(), Expired(i));
      code := "";
      pending := pending[..i] + pending[i + 1..];
    }
  }
}
