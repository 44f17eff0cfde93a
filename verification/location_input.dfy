/**
  The location field (src/components/LocationInput.tsx): a text value and
  an `isDetecting` flag, with handlers for typing, leaving the field and
  the "detect location" button. A handler may report a location to the
  parent through `onLocationSelected`; here that report is the handler's
  `emitted` result.

  The simulated geolocation delay is not modelled: the timer's expiry is
  the explicit event `DetectFinished`. The toast shown for a label that is
  not a pickup label is a foreign call and is left out.
 */
module LocationInput {
  import opened Options
  import opened Text

  /** The component's state: the field's text and whether detection is running. */
  datatype InputState = InputState(value: string, isDetecting: bool)

  /** A handler's effect: the new state and what was reported to the parent, if anything. */
  datatype Outcome = Outcome(state: InputState, emitted: Option<string>)

  /** The state on first render. */
  const Initial := InputState("", false)

  /** What detection fills in for a pickup field. */
  const CurrentLocation := "Current Location"

  /** `label.toLowerCase().includes('pickup')`. */
  function IsPickup(fieldLabel: string): (b: bool)
    ensures b <==> Contains(Lower(fieldLabel), "pickup")
  {
    Includes(Lower(fieldLabel), "pickup")
  }

  /** `handleInputChange`: the field takes the new text and nothing is reported. */
  function InputChanged(m: InputState, text: string): (r: Outcome)
    ensures r.state.value == text && r.state.isDetecting == m.isDetecting
    ensures r.emitted == None
  {
    Outcome(m.(value := text), None)
  }

  /**
    `handleBlur`: the untrimmed text is reported when it has a character
    that is not white space, and nothing is reported otherwise.
   */
  function Blurred(m: InputState): (r: Outcome)
    ensures r.state == m
    ensures r.emitted.Some? <==> HasVisible(m.value)
    ensures r.emitted.Some? ==> r.emitted.value == m.value
  {
    TrimNonEmptyIff(m.value);
    Outcome(m, if Truthy(Trim(m.value)) then Some(m.value) else None)
  }

  /**
    A click on the detect button starts detection. While detection runs the
    button is disabled, so a click then does nothing.
   */
  function DetectClicked(m: InputState): (r: Outcome)
    ensures r.state.isDetecting && r.state.value == m.value
    ensures r.emitted == None
  {
    Outcome(m.(isDetecting := true), None)
  }

  /**
    The detection timer fires: for a pickup field the text becomes "Current
    Location" and is reported; for any other field nothing changes and
    nothing is reported. Either way detection stops. Without a running
    detection there is no timer, so nothing happens.
   */
  function DetectFinished(m: InputState, fieldLabel: string): (r: Outcome)
    ensures !m.isDetecting ==> r == Outcome(m, None)
    ensures m.isDetecting ==> !r.state.isDetecting
    ensures m.isDetecting && Contains(Lower(fieldLabel), "pickup") ==>
      r.state.value == CurrentLocation && r.emitted == Some(CurrentLocation)
    ensures m.isDetecting && !Contains(Lower(fieldLabel), "pickup") ==>
      r.state.value == m.value && r.emitted == None
  {
    if !m.isDetecting then Outcome(m, None)
    else if IsPickup(fieldLabel) then Outcome(InputState(CurrentLocation, false), Some(CurrentLocation))
    else Outcome(m.(isDetecting := false), None)
  }

  /** What can happen to the field. */
  datatype Event = Typed(text: string) | Blur | DetectClick | DetectDone

  function Step(fieldLabel: string, m: InputState, e: Event): Outcome {
    match e
    case Typed(text) => InputChanged(m, text)
    case Blur => Blurred(m)
    case DetectClick => if m.isDetecting then Outcome(m, None) else DetectClicked(m)
    case DetectDone => DetectFinished(m, fieldLabel)
  }

  /** The state after a sequence of events, and the locations reported on the way, in order. */
  datatype Trace = Trace(state: InputState, reported: seq<string>)

  function Run(fieldLabel: string, m: InputState, evs: seq<Event>): Trace
    decreases |evs|
  {
    if evs == [] then Trace(m, [])
    else
      var o := Step(fieldLabel, m, evs[0]);
      var rest := Run(fieldLabel, o.state, evs[1..]);
      Trace(rest.state, (if o.emitted.Some? then [o.emitted.value] else []) + rest.reported)
  }

  /** No event in `evs` is the end of a detection. */
  predicate NoDone(evs: seq<Event>) {
    forall j :: 0 <= j < |evs| ==> !evs[j].DetectDone?
  }

  /** Some click in `evs` has no end of detection after it. */
  predicate Pending(evs: seq<Event>) {
    exists i :: 0 <= i < |evs| && evs[i].DetectClick? && NoDone(evs[i + 1..])
  }

  /** How `Pending` and `NoDone` read on a sequence with one more event in front. */
  lemma PendingCons(e: Event, rest: seq<Event>)
    ensures NoDone([e] + rest) <==> !e.DetectDone? && NoDone(rest)
    ensures Pending([e] + rest) <==> Pending(rest) || (e.DetectClick? && NoDone(rest))
  {
    var evs := [e] + rest;
    assert evs[0] == e && evs[1..] == rest;
    assert forall j :: 0 <= j < |rest| ==> evs[j + 1] == rest[j];
    if Pending(rest) {
      var i :| 0 <= i < |rest| && rest[i].DetectClick? && NoDone(rest[i + 1..]);
      assert evs[i + 1] == rest[i];
      assert evs[i + 1 + 1..] == rest[i + 1..];
      assert Pending(evs);
    }
    if e.DetectClick? && NoDone(rest) {
      assert evs[0].DetectClick? && NoDone(evs[0 + 1..]);
      assert Pending(evs);
    }
    if Pending(evs) {
      var i :| 0 <= i < |evs| && evs[i].DetectClick? && NoDone(evs[i + 1..]);
      if i > 0 {
        assert rest[i - 1] == evs[i];
        assert rest[i - 1 + 1..] == evs[i + 1..];
        assert Pending(rest);
      }
    }
  }

  /**
    After any events, detection is running exactly when some click has not
    yet been followed by the end of a detection, or when it was running to
    begin with and no detection has ended since.
   */
  lemma {:induction false} DetectingIffPending(fieldLabel: string, m: InputState, evs: seq<Event>)
    ensures Run(fieldLabel, m, evs).state.isDetecting <==> Pending(evs) || (m.isDetecting && NoDone(evs))
    decreases |evs|
  {
    if evs != [] {
      var n := Step(fieldLabel, m, evs[0]).state;
      DetectingIffPending(fieldLabel, n, evs[1..]);
      PendingCons(evs[0], evs[1..]);
      assert [evs[0]] + evs[1..] == evs;
    }
  }

  /** From the first render, detection is running exactly when a click awaits its end. */
  lemma DetectingFromInitial(fieldLabel: string, evs: seq<Event>)
    ensures Run(fieldLabel, Initial, evs).state.isDetecting <==> Pending(evs)
  {
    DetectingIffPending(fieldLabel, Initial, evs);
  }

  /** Every text in `s` has a character that is not white space. */
  predicate AllVisible(s: seq<string>) {
    forall k :: 0 <= k < |s| ==> HasVisible(s[k])
  }

  /** Every location the field reports has a character that is not white space. */
  lemma {:induction false} ReportsVisible(fieldLabel: string, m: InputState, evs: seq<Event>)
    ensures AllVisible(Run(fieldLabel, m, evs).reported)
    decreases |evs|
  {
    if evs != [] {
      var o := Step(fieldLabel, m, evs[0]);
      var rest := Run(fieldLabel, o.state, evs[1..]).reported;
      var head := if o.emitted.Some? then [o.emitted.value] else [];
      ReportsVisible(fieldLabel, o.state, evs[1..]);
      assert AllVisible(head) by {
        if o.emitted.Some? && evs[0].DetectDone? {
          assert o.emitted.value == CurrentLocation;
          assert !IsWhitespace(CurrentLocation[0]);
        }
      }
      assert Run(fieldLabel, m, evs).reported == head + rest;
      assert forall k :: 0 <= k < |head + rest| ==> (head + rest)[k] == if k < |head| then head[k] else rest[k - |head|];
    }
  }

  /** The field labelled "Pickup Location" is a pickup field. */
  lemma PickupLabel()
    ensures Contains(Lower("Pickup Location"), "pickup")
  {
    assert Lower("Pickup Location")[..6] == "pickup";
    assert OccursAt(Lower("Pickup Location"), "pickup", 0);
  }

  /** The field labelled "Destination" is not. */
  lemma DestinationLabel()
    ensures !Contains(Lower("Destination"), "pickup")
  {
    assert Lower("Destination") == "destination";
    AbsentHead("destination", "pickup");
  }

  /** Detecting in the pickup field fills in and reports "Current Location". */
  lemma PickupDetects(m: InputState)
    requires !m.isDetecting
    ensures Run("Pickup Location", m, [DetectClick, DetectDone]) == Trace(InputState(CurrentLocation, false), [CurrentLocation])
  {
    PickupLabel();
    assert [DetectClick, DetectDone][1..] == [DetectDone];
  }

  /** Detecting in the destination field reports nothing and keeps the typed text. */
  lemma DestinationDetects(m: InputState)
    requires !m.isDetecting
    ensures Run("Destination", m, [DetectClick, DetectDone]) == Trace(m, [])
  {
    DestinationLabel();
    assert [DetectClick, DetectDone][1..] == [DetectDone];
  }
}
