/**
 The workout value model of the map-based workout tracker: a logged run or
 bike ride with its stored inputs, its one derived metric, its id and its
 human-readable description. Every record is built once and never changed.
 */
module Workouts {
  import opened Wrappers
  import opened JsNumber
  import opened Decimal

  /** The two kinds of workout; `TypeName` is the `type` field the source stores. */
  datatype WorkoutType = RunningType | CyclingType

  function TypeName(t: WorkoutType): (name: string)
    ensures t == RunningType ==> name == "running"
    ensures t == CyclingType ==> name == "cycling"
  {
    match t
    case RunningType => "running"
    case CyclingType => "cycling"
  }

  /** `[lat, lng]` of the map click the workout was logged at. */
  datatype Coords = Coords(lat: real, lng: real)

  /** The calendar day of a `Date`: `getMonth()` (0 for January) and `getDate()`. */
  datatype CalendarDay = CalendarDay(month: nat, day: nat) {
    predicate Valid() {
      month < 12 && 1 <= day <= 31
    }
  }

  /** The two clock reads a workout is built from: `Date.now()` in
      milliseconds, which yields the id, and `new Date()`, which yields the
      description's day. They are separate reads in the source. */
  datatype Clock = Clock(now: nat, date: CalendarDay)

  /** A logged workout. Both variants carry the common fields; a run adds its
      cadence and pace (min/km), a ride its elevation gain and speed (km/h). */
  datatype Workout =
    | Running(id: string, date: CalendarDay, coords: Coords, distance: real, duration: real,
              description: string, cadence: real, pace: Num)
    | Cycling(id: string, date: CalendarDay, coords: Coords, distance: real, duration: real,
              description: string, elev: real, speed: Num)
  {
    function Type(): (t: WorkoutType) {
      if Running? then RunningType else CyclingType
    }
  }

  // ---------------------------------------------------------------- id

  /** Number of trailing digits of the timestamp kept as the id. */
  const IdLength: nat := 10

  /** JavaScript's `s.slice(-k)` for `k >= 1`: the last `k` characters, or all
      of `s` when it is shorter. (`slice(-0)` would keep everything.) */
  function SliceLast(s: string, k: nat): (r: string)
    requires k > 0
    ensures |r| == if |s| <= k then |s| else k
    ensures s == s[..|s| - |r|] + r
  {
    if |s| <= k then s else s[|s| - k..]
  }

  /** The id of a workout created at millisecond timestamp `now`. */
  function WorkoutId(now: nat): (id: string)
    ensures AllDigits(id) && 0 < |id| <= IdLength
  {
    SliceLast(NatToString(now), IdLength)
  }

  /** The id spells out the timestamp modulo 10^10. */
  lemma IdValue(now: nat)
    ensures ParseDigits(WorkoutId(now)) == now % Pow10(IdLength)
  {
    var s := NatToString(now);
    ParseNatToString(now);
    if |s| <= IdLength {
      ParseBound(s);
      Pow10Monotone(|s|, IdLength);
      DivModUnique(now, Pow10(IdLength), 0, now);
    } else {
      SuffixValue(s, IdLength);
    }
  }

  /** From 10^9 ms after the epoch on (12 January 1970), every id has exactly ten digits. */
  lemma IdHasTenDigits(now: nat)
    requires now >= Pow10(IdLength - 1)
    ensures |WorkoutId(now)| == IdLength
  {
    var s := NatToString(now);
    ParseNatToString(now);
    ParseBound(s);
    if |s| < IdLength {
      Pow10Monotone(|s|, IdLength - 1);
    }
  }

  /** Two timestamps (both from 10^9 on) get the same id exactly when they
      agree modulo 10^10 ms, about 115 days: ids are not unique in general. */
  lemma IdCollisionIff(a: nat, b: nat)
    requires a >= Pow10(IdLength - 1) && b >= Pow10(IdLength - 1)
    ensures WorkoutId(a) == WorkoutId(b) <==> a % Pow10(IdLength) == b % Pow10(IdLength)
  {
    IdValue(a);
    IdValue(b);
    IdHasTenDigits(a);
    IdHasTenDigits(b);
    if a % Pow10(IdLength) == b % Pow10(IdLength) {
      ParseInjective(WorkoutId(a), WorkoutId(b));
    }
  }

  /** A concrete collision: a timestamp and the one 10^10 ms later share their id. */
  lemma IdRepeatsAfterWindow(now: nat)
    requires now >= Pow10(IdLength - 1)
    ensures WorkoutId(now) == WorkoutId(now + Pow10(IdLength))
  {
    var p := Pow10(IdLength);
    DivModUnique(now + p, p, now / p + 1, now % p);
    IdCollisionIff(now, now + p);
  }

  // ------------------------------------------------------- description

  const Months: seq<string> := ["January", "February", "March", "April", "May", "June", "July",
                                "August", "September", "October", "November", "December"]

  /** ASCII `toUpperCase` of one character. */
  function UpperChar(c: char): (u: char) {
    if 'a' <= c <= 'z' then (c as int - 32) as char else c
  }

  /** `s[0].toUpperCase() + s.slice(1)`. */
  function Capitalize(s: string): (r: string)
    requires |s| > 0
    ensures |r| == |s| && r[1..] == s[1..]
    ensures 'a' <= s[0] <= 'z' ==> 'A' <= r[0] <= 'Z' && r[0] as int - 'A' as int == s[0] as int - 'a' as int
    ensures !('a' <= s[0] <= 'z') ==> r[0] == s[0]
  {
    [UpperChar(s[0])] + s[1..]
  }

  /** The capitalised kind that opens a description. */
  function Title(t: WorkoutType): (r: string)
    ensures r == if t == RunningType then "Running" else "Cycling"
  {
    Capitalize(TypeName(t))
  }

  /** `_setDescription`: kind, " on ", month name, two spaces, day of month. */
  function Describe(t: WorkoutType, date: CalendarDay): (r: string)
    requires date.month < 12
    ensures |r| > |Title(t) + " on "|
    ensures r[..|Title(t) + " on "|] == Title(t) + " on "
  {
    Title(t) + " on " + Months[date.month] + "  " + NatToString(date.day)
  }

  /** The leading characters of `s` up to (not including) its first space. */
  function TakeWord(s: string): (w: string)
    ensures |w| <= |s| && w == s[..|w|]
    ensures forall i :: 0 <= i < |w| ==> w[i] != ' '
  {
    if |s| == 0 || s[0] == ' ' then [] else [s[0]] + TakeWord(s[1..])
  }

  /** Position of the first occurrence of `x` in `xs`. */
  function IndexOf<T(==)>(xs: seq<T>, x: T): (r: Option<nat>)
    ensures r.Some? ==> r.value < |xs| && xs[r.value] == x && x !in xs[..r.value]
    ensures r.None? ==> x !in xs
  {
    if |xs| == 0 then None
    else if xs[0] == x then Some(0)
    else match IndexOf(xs[1..], x)
      case None => None
      case Some(i) => assert xs[..i + 1] == [xs[0]] + xs[1..][..i]; Some(i + 1)
  }

  /** Length of the "<Kind> on " prefix; both kinds have seven letters. */
  const PrefixLength: nat := 11

  /** Reads a description back into its kind and calendar day. */
  function ParseDescription(s: string): (r: Option<(WorkoutType, CalendarDay)>) {
    var kind := ParseKind(s);
    var date := if |s| >= PrefixLength then ParseDate(s[PrefixLength..]) else None;
    if kind.None? || date.None? then None else Some((kind.value, date.value))
  }

  function ParseKind(s: string): (r: Option<WorkoutType>) {
    if |s| < PrefixLength then None
    else if s[..PrefixLength] == "Running on " then Some(RunningType)
    else if s[..PrefixLength] == "Cycling on " then Some(CyclingType)
    else None
  }

  /** Reads "<Month>  <day>" back into a calendar day; the day must be
      written as `getDate()` prints it, without leading zeros. */
  function ParseDate(s: string): (r: Option<CalendarDay>) {
    var word := TakeWord(s);
    var month := IndexOf(Months, word);
    var tail := s[|word|..];
    if month.None? || |tail| < 3 || tail[..2] != "  " || !AllDigits(tail[2..]) then None
    else if |tail| > 3 && tail[2] == '0' then None  // no zero-padded day
    else Some(CalendarDay(month.value, ParseDigits(tail[2..])))
  }

  lemma MonthFacts()
    ensures forall m :: 0 <= m < 12 ==> ' ' !in Months[m]
    ensures forall i, j :: 0 <= i < j < 12 ==> Months[i] != Months[j]
  {
  }

  lemma {:induction false} TakeWordStopsAtSpace(w: string, rest: string)
    requires ' ' !in w && |rest| > 0 && rest[0] == ' '
    ensures TakeWord(w + rest) == w
  {
    if |w| > 0 {
      assert (w + rest)[1..] == w[1..] + rest;
      TakeWordStopsAtSpace(w[1..], rest);
    }
  }

  lemma ParseKindOfTitle(t: WorkoutType, rest: string)
    ensures ParseKind(Title(t) + " on " + rest) == Some(t)
    ensures (Title(t) + " on " + rest)[PrefixLength..] == rest
  {
    var prefix := Title(t) + " on ";
    assert prefix == if t == RunningType then "Running on " else "Cycling on ";
    var s := prefix + rest;
    assert s[..PrefixLength] == prefix;
  }

  lemma ParseDateRoundTrip(date: CalendarDay)
    requires date.month < 12
    ensures ParseDate(Months[date.month] + "  " + NatToString(date.day)) == Some(date)
  {
    var month := Months[date.month];
    var digits := NatToString(date.day);
    var s := month + ("  " + digits);
    MonthFacts();
    TakeWordStopsAtSpace(month, "  " + digits);
    assert s[|month|..] == "  " + digits;
    assert ("  " + digits)[2..] == digits;
    ParseNatToString(date.day);
    assert IndexOf(Months, month) == Some(date.month);
    assert month + "  " + digits == s;
  }

  /** The description determines the kind, the month and the day it was built from. */
  lemma DescribeRoundTrip(t: WorkoutType, date: CalendarDay)
    requires date.month < 12
    ensures ParseDescription(Describe(t, date)) == Some((t, date))
  {
    var rest := Months[date.month] + "  " + NatToString(date.day);
    assert Describe(t, date) == Title(t) + " on " + rest;
    ParseKindOfTitle(t, rest);
    ParseDateRoundTrip(date);
  }

  lemma DescribeInjective(t1: WorkoutType, d1: CalendarDay, t2: WorkoutType, d2: CalendarDay)
    requires d1.month < 12 && d2.month < 12
    requires Describe(t1, d1) == Describe(t2, d2)
    ensures t1 == t2 && d1 == d2
  {
    DescribeRoundTrip(t1, d1);
    DescribeRoundTrip(t2, d2);
  }

  // ------------------------------------------------------ construction

  /** `calcPace`: minutes per kilometre. */
  function Pace(distance: real, duration: real): (pace: Num)
    ensures distance != 0.0 ==> pace.Finite? && pace.value * distance == duration
    ensures distance == 0.0 ==> pace.NonFinite?
    ensures distance > 0.0 && duration > 0.0 ==> pace.Finite? && pace.value > 0.0
  {
    Div(duration, distance)
  }

  /** `calcSpeed`: kilometres per hour, from the duration converted to hours. */
  function Speed(distance: real, duration: real): (speed: Num)
    ensures duration != 0.0 ==> speed.Finite? && speed.value * duration == 60.0 * distance
    ensures duration == 0.0 ==> speed.NonFinite?
    ensures distance > 0.0 && duration > 0.0 ==> speed.Finite? && speed.value > 0.0
  {
    var hours := duration / 60.0;
    var r := Div(distance, hours);
    assert duration != 0.0 ==> r.value * duration == 60.0 * (r.value * hours);
    r
  }

  /** `new Running(coords, distance, duration, cadence)`. */
  function NewRunning(coords: Coords, distance: real, duration: real, cadence: real, clock: Clock): (w: Workout)
    requires clock.date.Valid()
    ensures w.Running? && TypeName(w.Type()) == "running"
    ensures w.coords == coords && w.distance == distance && w.duration == duration && w.cadence == cadence
    ensures w.id == WorkoutId(clock.now) && w.date == clock.date
    ensures w.description == Describe(RunningType, clock.date)
    ensures distance != 0.0 ==> w.pace.Finite? && w.pace.value * distance == duration
    ensures distance == 0.0 ==> w.pace.NonFinite?
  {
    Running(WorkoutId(clock.now), clock.date, coords, distance, duration,
            Describe(RunningType, clock.date), cadence, Pace(distance, duration))
  }

  /** `new Cycling(coords, distance, duration, elev)`. */
  function NewCycling(coords: Coords, distance: real, duration: real, elev: real, clock: Clock): (w: Workout)
    requires clock.date.Valid()
    ensures w.Cycling? && TypeName(w.Type()) == "cycling"
    ensures w.coords == coords && w.distance == distance && w.duration == duration && w.elev == elev
    ensures w.id == WorkoutId(clock.now) && w.date == clock.date
    ensures w.description == Describe(CyclingType, clock.date)
    ensures duration != 0.0 ==> w.speed.Finite? && w.speed.value * duration == 60.0 * distance
    ensures duration == 0.0 ==> w.speed.NonFinite?
  {
    Cycling(WorkoutId(clock.now), clock.date, coords, distance, duration,
            Describe(CyclingType, clock.date), elev, Speed(distance, duration))
  }

  /** The record invariants of a workout built from validated input: positive
      distance and duration, a finite positive metric consistent with them, and
      the description and id of its own kind and clock. */
  predicate WellFormed(w: Workout) {
    && w.date.Valid()
    && w.distance > 0.0 && w.duration > 0.0
    && w.description == Describe(w.Type(), w.date)
    && AllDigits(w.id) && 0 < |w.id| <= IdLength
    && match w
       case Running(_, _, _, _, _, _, _, pace) =>
         pace.Finite? && pace.value > 0.0 && pace.value * w.distance == w.duration
       case Cycling(_, _, _, _, _, _, _, speed) =>
         speed.Finite? && speed.value > 0.0 && speed.value * w.duration == 60.0 * w.distance
  }

  lemma RunningWellFormed(w: Workout)
    requires w.Running? && w.date.Valid() && w.distance > 0.0 && w.duration > 0.0
    requires w.description == Describe(RunningType, w.date) && AllDigits(w.id) && 0 < |w.id| <= IdLength
    requires w.pace == Pace(w.distance, w.duration)
    ensures WellFormed(w)
  {
  }

  lemma CyclingWellFormed(w: Workout)
    requires w.Cycling? && w.date.Valid() && w.distance > 0.0 && w.duration > 0.0
    requires w.description == Describe(CyclingType, w.date) && AllDigits(w.id) && 0 < |w.id| <= IdLength
    requires w.speed == Speed(w.distance, w.duration)
    ensures WellFormed(w)
  {
  }

  /** Example run from the source: 12 km in 35 min gives a pace of 35/12, about 2.9167 min/km. */
  lemma SampleRunPace()
    ensures var w := NewRunning(Coords(32.0, -54.0), 12.0, 35.0, 178.0, Clock(0, CalendarDay(0, 1)));
            w.pace == Finite(35.0 / 12.0) && 2.9166 < w.pace.value < 2.9167
  {
  }

  /** Example ride from the source: 34 km in 23 min gives 2040/23, about 88.696 km/h. */
  lemma SampleRideSpeed()
    ensures var w := NewCycling(Coords(77.0, -100.0), 34.0, 23.0, 43.0, Clock(0, CalendarDay(0, 1)));
            w.speed == Finite(2040.0 / 23.0) && 88.695 < w.speed.value < 88.696
  {
  }
}
