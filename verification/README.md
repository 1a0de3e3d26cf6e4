# Workout model of the map-based workout tracker

The tracker (`script.js`) lets a user click a map and log a run or a bike ride.
This project models the value core of that program in Dafny:

- the `Workout` record with its two variants, `Running` (cadence, pace in min/km)
  and `Cycling` (elevation gain, speed in km/h), built once and never changed;
- the derived metrics: pace is duration / distance, and speed is distance / (duration / 60);
- the id: the last ten characters of the decimal millisecond timestamp;
- the description: the capitalised kind, " on ", the month name, two spaces, and the day of the month;
- the submission rule of `_newWorkout`: which forms are accepted, and how an
  accepted one is appended to the ordered workout list;
- the lookup by id used when a list entry is clicked.

Modules:

- `Wrappers` holds `Option`.
- `JsNumber` holds `Num`: a finite JavaScript number as an exact `real`, or a non-finite value. It also holds division, which yields a non-finite value on a zero divisor.
- `Decimal` holds decimal printing and parsing of naturals, with the digit-suffix arithmetic behind the id.
- `Workouts` holds the records, the id, the description and the constructors.
- `App` holds validation, `Submit` (the list update) and `Find`.

The clock reads are parameters. `Date.now()` becomes `Clock.now`. `new Date()` becomes `Clock.date`, a month index 0..11 and a day of month.

Two details of the code worth noting:

- The description has two spaces between the month and the day ("Running on April  7").
- A ride's elevation gain is not required to be positive. A run's cadence is.

## Model

| member | source | states |
|---|---|---|
| Workouts.Pace | script.js:39-43 | for non-zero distance the pace is finite and pace * distance == duration; a zero distance gives a non-finite pace; positive inputs give a positive pace |
| Workouts.Speed | script.js:55-59 | for non-zero duration the speed is finite and speed * duration == 60 * distance; a zero duration gives a non-finite speed; positive inputs give a positive speed |
| JsNumber.Div | script.js:41 | JavaScript division on finite operands: an exact quotient q with q * b == a for a non-zero divisor, a non-finite value for a zero divisor |
| Workouts.NewRunning | script.js:30-37 | a Running record whose type is "running" and whose coords, distance, duration and cadence are the inputs unchanged; it has the clock's id and date and the running description, and its pace satisfies the pace law |
| Workouts.NewCycling | script.js:46-53 | a Cycling record whose type is "cycling" and whose coords, distance, duration and elevation are the inputs unchanged; it has the clock's id and date and the cycling description, and its speed satisfies the speed law |
| Workouts.SampleRunPace | script.js:62 | the sample run (12 km, 35 min) has pace 35/12, between 2.9166 and 2.9167 |
| Workouts.SampleRideSpeed | script.js:63 | the sample ride (34 km, 23 min) has speed 2040/23, between 88.695 and 88.696 |
| Workouts.SliceLast | script.js:15 | `slice(-k)` for k >= 1 keeps min(k, length) characters, and they are a suffix of the string |
| Workouts.WorkoutId | script.js:15 | the id is a non-empty string of at most ten decimal digits |
| Workouts.IdValue | script.js:15 | the id denotes the timestamp modulo 10^10 |
| Workouts.IdHasTenDigits | script.js:15 | from timestamp 10^9 on, the id has exactly ten digits |
| Workouts.IdCollisionIff | script.js:15 | two timestamps from 10^9 on get equal ids if and only if they are equal modulo 10^10 |
| Workouts.IdRepeatsAfterWindow | script.js:15 | a timestamp and the timestamp 10^10 ms later share their id, so ids are not unique |
| Decimal.NatToString | script.js:15 | `Date.now() + ''` is a non-empty digit string without a leading zero |
| Decimal.ParseNatToString | script.js:15 | the decimal string of a number reads back as that number |
| Decimal.SuffixValue | script.js:15 | the last k digits of a digit string denote its value modulo 10^k |
| Decimal.ParseInjective | script.js:15 | equal-length digit strings with the same value are equal |
| Workouts.Capitalize | script.js:26 | upper-casing the first character keeps the length and the rest of the string, turns a lower-case first letter into its own capital, and leaves any other first character unchanged |
| Workouts.TypeName | script.js:31 | a run's type is "running", a ride's "cycling" |
| Workouts.Title | script.js:26 | the capitalised kind is "Running" for runs and "Cycling" for rides |
| Workouts.Describe | script.js:23-27 | the description is defined for every month index 0..11 and starts with the capitalised kind followed by " on " |
| Workouts.ParseDateRoundTrip | script.js:24-26 | "month name, two spaces, day" reads back as the same month index and day; the reader refuses a zero-padded day, so the day is printed without leading zeros |
| Workouts.DescribeRoundTrip | script.js:23-27 | reading a description back yields the kind, month and day it was built from |
| Workouts.DescribeInjective | script.js:23-27 | different kinds or calendar days never share a description |
| App.Every | script.js:127-128 | `every` holds if and only if the predicate holds at every index |
| App.IsValidInput | script.js:127 | `isValidInput` holds iff every input is finite |
| App.AllPositive | script.js:128 | `allPositive` holds iff every input is a finite number above zero |
| App.Accepts | script.js:139-159 | a run is accepted iff distance, duration and cadence are all finite and positive; a ride is accepted iff distance, duration and elevation are finite and distance and duration are positive |
| App.ValidationAsymmetry | script.js:142-154 | with a zero or negative extra field, the same distance and duration are refused for a run and accepted for a ride |
| App.NewWorkout | script.js:139-160 | an accepted form yields a well-formed workout of the selected kind that carries the form's numbers |
| App.Submit | script.js:138-163 | an accepted form appends exactly one workout at the end and keeps earlier entries; a rejected form leaves the list unchanged; a list of well-formed workouts stays well-formed |
| App.Find | script.js:227 | the lookup finds nothing iff no workout has the id; otherwise it returns the first workout with that id |
| App.FindAfterAppend | script.js:227 | appending a workout leaves every successful lookup unchanged; the appended workout is found only when no earlier workout has its id |
| App.SubmitThenFind | script.js:162-163 | after an accepted submission, earlier lookups are unchanged, and the new workout is found by its id when no earlier workout has that id |

## Left out

- DOM access, showing and hiding the form, clearing fields and toggling the cadence/elevation rows are browser UI.
- The Leaflet map, its markers, popups and panning belong to a third-party library. This also covers the `setView` that `_moveToPopup` performs after its lookup.
- Geolocation and `alert` are browser I/O. On a rejected submission the model only records that nothing is appended.
- `localStorage`, the JSON (de)serialisation of the list and `_reset` are storage I/O. The structural round trip through JSON is not modelled. A re-hydrated list would also lose class identity.
- HTML templating and the `Math.round` display rounding are presentation only.
- `Date.now()` and `new Date()` are clock reads. They are parameters of the model (`Clock`), and the model does not constrain how the two relate.
- JsNumber.Div: divisions are exact over `real`, without IEEE-754 rounding. A zero divisor gives one non-finite value, without separating NaN from plus or minus Infinity.
- App.AllPositive: `inp > 0` on a non-finite input is modelled as false. The source never asks that question, because the finiteness check comes first.
- The form type is the two-valued `WorkoutType`, because the select offers only "running" and "cycling". The source's path for any other value, which would push `undefined`, is not modelled.
- On rejection, the source assigns to `const` bindings on lines 144 and 156, which throws a TypeError. The model treats this simply as "rejected, nothing appended". Either way the list is unchanged.
- Workouts.WorkoutId: the timestamp is a natural number printed in plain decimal. JavaScript switches to exponent notation from 10^21, which no clock reaches, and negative (pre-1970) timestamps are not modelled.
- Workouts.Capitalize: upper-casing is ASCII only. Full Unicode `toUpperCase` is not modelled, because it is only applied to "running" and "cycling".
- `_moveToPopup` with a click outside any workout entry returns early, and dereferencing a failed lookup throws. Both are UI paths. The model's `Find` returns `None` for a failed lookup.
