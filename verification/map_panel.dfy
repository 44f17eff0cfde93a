/**
  The map panel's effect (the `useEffect` of src/components/Map.tsx): when
  both props are present it arms a timer, and when the timer fires the
  panel's route info becomes the estimate for the props the timer was armed
  with. A change of props first cancels the pending timer (the effect's
  cleanup) and then runs the effect again.

  Time is not modelled: the timer's expiry is the explicit event `Fire`.
  An absent prop (`undefined`) is the empty string, which is falsy as well.
  React does tell `undefined` from "" when it compares the dependencies,
  and re-runs the effect on such a change; `FalsyRerunChangesNothing`
  shows that this re-run leaves the panel as it was.
 */
module MapPanel {
  import opened Options
  import opened Text
  import opened Route

  /** The props a timer was armed with. */
  datatype Pair = Pair(source: string, destination: string)

  /** The panel: its current props, the route info it shows, and the armed timer if any. */
  datatype MapState = MapState(source: string, destination: string, routeInfo: RouteInfo, timer: Option<Pair>)

  /** The route info shown before any estimate arrives. */
  const Blank := RouteInfo("0", "0")

  /** The guard of the effect: both props are present. */
  predicate BothPresent(source: string, destination: string) {
    Truthy(source) && Truthy(destination)
  }

  /**
    What holds between events: a pending timer was armed for exactly the
    current props, which are both present; and once settled with both
    present, the panel shows their estimate.
   */
  predicate Consistent(m: MapState) {
    (m.timer.Some? ==> m.timer.value == Pair(m.source, m.destination) && BothPresent(m.source, m.destination))
    && (m.timer.None? && BothPresent(m.source, m.destination) ==> m.routeInfo == RouteDetails(m.source, m.destination))
  }

  /** First render: the blank route info, and the effect's first run. */
  function Mount(source: string, destination: string): (m: MapState)
    ensures m.source == source && m.destination == destination && m.routeInfo == Blank
    ensures m.timer.Some? <==> BothPresent(source, destination)
    ensures Consistent(m)
  {
    MapState(source, destination, Blank,
      if BothPresent(source, destination) then Some(Pair(source, destination)) else None)
  }

  /**
    The effect's cleanup and re-run for the current props: the pending timer
    is cancelled, and a new one is armed when both props are present.
   */
  function Rerun(m: MapState): (r: MapState)
    ensures r.source == m.source && r.destination == m.destination && r.routeInfo == m.routeInfo
    ensures r.timer.Some? <==> BothPresent(m.source, m.destination)
    ensures Consistent(m) ==> Consistent(r)
  {
    m.(timer := if BothPresent(m.source, m.destination) then Some(Pair(m.source, m.destination)) else None)
  }

  /**
    While a prop is falsy, re-running the effect changes nothing: no timer is
    pending, so the cleanup cancels nothing, and the guard arms none.
   */
  lemma FalsyRerunChangesNothing(m: MapState)
    requires Consistent(m) && !BothPresent(m.source, m.destination)
    ensures Rerun(m) == m
  {
  }

  /**
    New props. Equal props do not re-run the effect; different props cancel
    the pending timer and arm a new one only when both are present. The
    route info is never touched here.
   */
  function PropsChanged(m: MapState, source: string, destination: string): (r: MapState)
    ensures r.source == source && r.destination == destination && r.routeInfo == m.routeInfo
    ensures source == m.source && destination == m.destination ==> r == m
    ensures (source != m.source || destination != m.destination) ==>
      (r.timer.Some? <==> BothPresent(source, destination))
    ensures Consistent(m) ==> Consistent(r)
  {
    if source == m.source && destination == m.destination then m
    else Rerun(m.(source := source, destination := destination))
  }

  /** The timer fires: the estimate for the armed props is shown. Without a timer nothing happens. */
  function TimerFired(m: MapState): (r: MapState)
    ensures m.timer.None? ==> r == m
    ensures m.timer.Some? ==> r.timer.None? && r.routeInfo == RouteDetails(m.timer.value.source, m.timer.value.destination)
    ensures r.source == m.source && r.destination == m.destination
    ensures Consistent(m) ==> Consistent(r)
  {
    match m.timer
    case None => m
    case Some(p) => MapState(m.source, m.destination, RouteDetails(p.source, p.destination), None)
  }

  /** What can happen to the panel. */
  datatype Event = Props(source: string, destination: string) | Fire

  function Step(m: MapState, e: Event): MapState {
    match e
    case Props(s, d) => PropsChanged(m, s, d)
    case Fire => TimerFired(m)
  }

  /** The panel after a sequence of events, in order. */
  function Run(m: MapState, evs: seq<Event>): MapState
    decreases |evs|
  {
    if evs == [] then m else Run(Step(m, evs[0]), evs[1..])
  }

  /** The event is a timer expiry, or props with one of the two missing. */
  predicate Incomplete(e: Event) {
    e.Fire? || !BothPresent(e.source, e.destination)
  }

  /** Every sequence of events keeps the panel consistent. */
  lemma {:induction false} RunConsistent(m: MapState, evs: seq<Event>)
    requires Consistent(m)
    ensures Consistent(Run(m, evs))
    decreases |evs|
  {
    if evs != [] {
      var n := Step(m, evs[0]);
      assert Consistent(n);
      RunConsistent(n, evs[1..]);
    }
  }

  /**
    A step changes the route info only when a timer armed for two present
    props fires, and then it shows the estimate for the current props.
   */
  lemma ChangeOnlyForBoth(m: MapState, e: Event)
    requires Consistent(m)
    requires Step(m, e).routeInfo != m.routeInfo
    ensures e == Fire && BothPresent(m.source, m.destination)
    ensures Step(m, e).routeInfo == RouteDetails(m.source, m.destination)
  {
  }

  /**
    While one of the props stays missing, no estimate is ever produced, even
    when the timer is given the chance to fire: the route info stays what it
    was.
   */
  lemma {:induction false} MissingPropKeepsInfo(m: MapState, evs: seq<Event>)
    requires Consistent(m) && !BothPresent(m.source, m.destination)
    requires forall k :: 0 <= k < |evs| ==> Incomplete(evs[k])
    ensures Run(m, evs).routeInfo == m.routeInfo
    decreases |evs|
  {
    if evs != [] {
      var n := Step(m, evs[0]);
      assert Incomplete(evs[0]);
      assert Consistent(n) && !BothPresent(n.source, n.destination) && n.routeInfo == m.routeInfo;
      assert forall k :: 0 <= k < |evs[1..]| ==> Incomplete(evs[1..][k]) by {
        forall k | 0 <= k < |evs[1..]| ensures Incomplete(evs[1..][k]) {
          assert evs[1..][k] == evs[k + 1];
        }
      }
      MissingPropKeepsInfo(n, evs[1..]);
    }
  }

  /** The latest props win: new present props followed by the timer show their estimate. */
  lemma LatestPropsWin(m: MapState, source: string, destination: string)
    requires Consistent(m) && BothPresent(source, destination)
    ensures Run(m, [Props(source, destination), Fire]).routeInfo == RouteDetails(source, destination)
  {
    var n := Step(m, Props(source, destination));
    assert Run(m, [Props(source, destination), Fire]) == Run(n, [Fire]);
    assert [Props(source, destination), Fire][1..] == [Fire];
  }

  /** The panel mounted with two present props shows their estimate once the timer fires. */
  lemma MountThenFire(source: string, destination: string)
    requires BothPresent(source, destination)
    ensures TimerFired(Mount(source, destination)).routeInfo == RouteDetails(source, destination)
  {
  }

  /** The guard tests presence, not content: props of one space each still get an estimate. */
  lemma SpacesArePresent()
    ensures TimerFired(Mount(" ", " ")).routeInfo == RouteInfo("12.0 km", "22 min")
  {
    SpacesGetEstimate();
  }
}
