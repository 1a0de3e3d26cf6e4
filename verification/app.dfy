/**
 The part of the application controller that decides whether a submitted
 form becomes a workout, appends it to the ordered workout list, and finds a
 workout again by id when its list entry is clicked.
 */
module App {
  import opened Wrappers
  import opened JsNumber
  import opened Workouts

  /** The submitted form: the selected type and the four numeric fields after
      `+input.value` conversion. Only the fields of the selected type are read. */
  datatype Form = Form(kind: WorkoutType, distance: Num, duration: Num, cadence: Num, elevation: Num)

  /** `xs.every(p)`. */
  function Every<T>(xs: seq<T>, p: T -> bool): (r: bool)
    ensures r <==> forall i :: 0 <= i < |xs| ==> p(xs[i])
  {
    |xs| == 0 || (p(xs[0]) && Every(xs[1..], p))
  }

  /** `isValidInput`: every input passes `Number.isFinite`. */
  function IsValidInput(inputs: seq<Num>): (r: bool)
    ensures r <==> forall i :: 0 <= i < |inputs| ==> inputs[i].Finite?
  {
    Every(inputs, (x: Num) => x.Finite?)
  }

  /** `allPositive`: every input is `> 0`. It is only consulted once every
      input has passed `IsValidInput`, so the answer for a non-finite input
      never matters. */
  function AllPositive(inputs: seq<Num>): (r: bool)
    ensures r <==> forall i :: 0 <= i < |inputs| ==> inputs[i].Finite? && inputs[i].value > 0.0
  {
    Every(inputs, (x: Num) => x.Finite? && x.value > 0.0)
  }

  /** Whether `_newWorkout` goes on to build and push a workout. A run needs
      all three numbers positive; a ride only distance and duration, so its
      elevation gain may be zero or negative. */
  function Accepts(f: Form): (ok: bool)
    ensures f.kind == RunningType ==>
      (ok <==> && f.distance.Finite? && f.duration.Finite? && f.cadence.Finite?
               && f.distance.value > 0.0 && f.duration.value > 0.0 && f.cadence.value > 0.0)
    ensures f.kind == CyclingType ==>
      (ok <==> && f.distance.Finite? && f.duration.Finite? && f.elevation.Finite?
               && f.distance.value > 0.0 && f.duration.value > 0.0)
  {
    match f.kind
    case RunningType =>
      var inputs := [f.distance, f.duration, f.cadence];
      assert inputs[0] == f.distance && inputs[1] == f.duration && inputs[2] == f.cadence;
      IsValidInput(inputs) && AllPositive(inputs)
    case CyclingType =>
      var inputs, positives := [f.distance, f.duration, f.elevation], [f.distance, f.duration];
      assert inputs[0] == f.distance && inputs[1] == f.duration && inputs[2] == f.elevation;
      assert positives[0] == f.distance && positives[1] == f.duration;
      IsValidInput(inputs) && AllPositive(positives)
  }

  /** The workout an accepted form produces. */
  function NewWorkout(f: Form, coords: Coords, clock: Clock): (w: Workout)
    requires Accepts(f) && clock.date.Valid()
    ensures w.Type() == f.kind && w.coords == coords
    ensures w.distance == f.distance.value && w.duration == f.duration.value
    ensures w.Running? ==> w.cadence == f.cadence.value
    ensures w.Cycling? ==> w.elev == f.elevation.value
    ensures w.id == WorkoutId(clock.now) && w.date == clock.date
    ensures WellFormed(w)
  {
    var distance, duration := f.distance.value, f.duration.value;
    match f.kind
    case RunningType =>
      var w := NewRunning(coords, distance, duration, f.cadence.value, clock);
      RunningWellFormed(w);
      w
    case CyclingType =>
      var w := NewCycling(coords, distance, duration, f.elevation.value, clock);
      CyclingWellFormed(w);
      w
  }

  /** `_newWorkout` on the workout list: an accepted form appends exactly one
      workout at the end; a rejected one returns before the push. */
  function Submit(workouts: seq<Workout>, f: Form, coords: Coords, clock: Clock): (r: seq<Workout>)
    requires clock.date.Valid()
    ensures |r| >= |workouts| && r[..|workouts|] == workouts
    ensures Accepts(f) ==> |r| == |workouts| + 1 && r[|workouts|] == NewWorkout(f, coords, clock)
    ensures !Accepts(f) ==> r == workouts
    ensures (forall i :: 0 <= i < |workouts| ==> WellFormed(workouts[i])) ==>
              forall i :: 0 <= i < |r| ==> WellFormed(r[i])
  {
    if Accepts(f) then
      var w := NewWorkout(f, coords, clock);
      var r := workouts + [w];
      assert r[..|workouts|] == workouts;
      AppendKeepsWellFormed(workouts, w);
      r
    else workouts
  }

  lemma AppendKeepsWellFormed(workouts: seq<Workout>, w: Workout)
    requires WellFormed(w)
    ensures (forall i :: 0 <= i < |workouts| ==> WellFormed(workouts[i])) ==>
              forall i :: 0 <= i < |workouts + [w]| ==> WellFormed((workouts + [w])[i])
  {
    if forall i :: 0 <= i < |workouts| ==> WellFormed(workouts[i]) {
      forall i | 0 <= i < |workouts + [w]|
        ensures WellFormed((workouts + [w])[i])
      {
        if i < |workouts| {
          assert (workouts + [w])[i] == workouts[i];
        }
      }
    }
  }

  /** `workouts.find(work => work.id === id)`: the first workout with that id. */
  function Find(workouts: seq<Workout>, id: string): (r: Option<Workout>)
    ensures r.None? <==> forall i :: 0 <= i < |workouts| ==> workouts[i].id != id
    ensures r.Some? ==> exists i :: 0 <= i < |workouts| && workouts[i] == r.value && FirstWithId(workouts, id, i)
  {
    if |workouts| == 0 then None
    else if workouts[0].id == id then assert FirstWithId(workouts, id, 0); Some(workouts[0])
    else
      var r := Find(workouts[1..], id);
      if r.Some? then
        var i :| 0 <= i < |workouts| - 1 && workouts[1..][i] == r.value && FirstWithId(workouts[1..], id, i);
        assert FirstWithId(workouts, id, i + 1);
        r
      else r
  }

  /** Index `i` holds the first workout whose id is `id`. */
  predicate FirstWithId(workouts: seq<Workout>, id: string, i: nat) {
    && i < |workouts|
    && workouts[i].id == id
    && forall j :: 0 <= j < i ==> workouts[j].id != id
  }

  /** Appending a workout never changes what an id already found resolves to;
      the new workout is found by its id only if no earlier one shares it. */
  lemma {:induction false} FindAfterAppend(workouts: seq<Workout>, w: Workout, id: string)
    ensures Find(workouts + [w], id) ==
              if Find(workouts, id).Some? then Find(workouts, id)
              else if w.id == id then Some(w) else None
  {
    if |workouts| > 0 && workouts[0].id != id {
      assert (workouts + [w])[1..] == workouts[1..] + [w];
      FindAfterAppend(workouts[1..], w, id);
    }
  }

  /** After an accepted submission, the new workout can be looked up by its id
      unless an earlier workout already holds the same id, and every earlier
      lookup is unchanged. */
  lemma SubmitThenFind(workouts: seq<Workout>, f: Form, coords: Coords, clock: Clock, id: string)
    requires clock.date.Valid() && Accepts(f)
    ensures Find(workouts, id).Some? ==> Find(Submit(workouts, f, coords, clock), id) == Find(workouts, id)
    ensures (forall i :: 0 <= i < |workouts| ==> workouts[i].id != WorkoutId(clock.now)) ==>
              Find(Submit(workouts, f, coords, clock), WorkoutId(clock.now)) == Some(NewWorkout(f, coords, clock))
  {
    var w := NewWorkout(f, coords, clock);
    FindAfterAppend(workouts, w, id);
    FindAfterAppend(workouts, w, WorkoutId(clock.now));
  }

  /** The validator's asymmetry: the same numbers with a zero or negative
      extra field are refused for a run and accepted for a ride. */
  lemma ValidationAsymmetry(distance: real, duration: real, extra: real)
    requires distance > 0.0 && duration > 0.0 && extra <= 0.0
    ensures !Accepts(Form(RunningType, Finite(distance), Finite(duration), Finite(extra), NonFinite))
    ensures Accepts(Form(CyclingType, Finite(distance), Finite(duration), NonFinite, Finite(extra)))
  {
  }
}
