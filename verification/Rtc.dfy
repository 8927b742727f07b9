/** The real-time clock's registers: date and time in BCD, the event triggers of the six time units,
    and the combo event, which takes all six trigger registers for itself. */
module Rtc {
  import opened Wrappers

  // Time units in register order.
  const SECONDS: nat := 0
  const MINUTES: nat := 1
  const HOURS: nat := 2
  const DAYS: nat := 3
  const MONTHS: nat := 4
  const YEARS: nat := 5
  const UNITS: nat := 6

  const EVENT_OFF: nat := 0x0000
  const EVENT_ON_CHANGE: nat := 0x0100
  const COMBO_EVENT: nat := 0x0200

  const NOT_USED: nat := 255

  const LOAD_TIME: nat := 1
  const LOAD_TRIGGERS: nat := 2
  const LOAD_DIVISOR: nat := 4
  const LOAD_ALL: nat := 7

  datatype Status =
    | Ok | InvalidSecond | InvalidMinute | InvalidHour | InvalidDay | InvalidMonth | InvalidYear
    | InvalidUnit | InvalidPriority | EventConflict

  datatype Time = Time(hours: nat, minutes: nat, seconds: nat)

  datatype Date = Date(years: nat, months: nat, days: nat)

  // ---- BCD -----------------------------------------------------------------------------------

  /** The last two decimal digits, four bits each. */
  function ToBcd(n: nat): (r: nat)
  {
    n % 100 / 10 * 16 + n % 100 % 10
  }

  function FromBcd(r: nat): (n: nat)
  {
    r % 16 + r / 16 * 10
  }

  predicate IsBcd(r: nat) {
    r % 16 < 10 && r / 16 < 10
  }

  lemma TwoDigits(tens: nat, units: nat)
    requires tens < 10 && units < 10
    ensures (tens * 16 + units) % 16 == units && (tens * 16 + units) / 16 == tens
  {
  }

  lemma BcdRoundTrip(n: nat)
    ensures IsBcd(ToBcd(n)) && FromBcd(ToBcd(n)) == n % 100
  {
    var m := n % 100;
    TwoDigits(m / 10, m % 10);
  }

  lemma TenTimes(tens: nat, units: nat)
    requires tens < 10 && units < 10
    ensures (units + tens * 10) % 100 == units + tens * 10
    ensures (units + tens * 10) % 10 == units && (units + tens * 10) / 10 == tens
  {
  }

  lemma BcdOnto(r: nat)
    requires IsBcd(r)
    ensures ToBcd(FromBcd(r)) == r
  {
    TenTimes(r / 16, r % 16);
  }

  // ---- validity ------------------------------------------------------------------------------

  function CheckTime(t: Time): (s: Status)
  {
    if t.hours > 23 then InvalidHour
    else if t.minutes > 59 then InvalidMinute
    else if t.seconds > 59 then InvalidSecond
    else Ok
  }

  function LastDay(months: nat, years: nat): (d: nat)
  {
    if months == 4 || months == 6 || months == 9 || months == 11 then 30
    else if months == 2 then (if years % 4 == 0 then 29 else 28)
    else 31
  }

  /** The Gregorian calendar. */
  predicate LeapYear(year: nat) {
    year % 4 == 0 && (year % 100 != 0 || year % 400 == 0)
  }

  function DaysIn(month: nat, year: nat): (n: nat)
    requires 1 <= month <= 12
  {
    [31, if LeapYear(year) then 29 else 28, 31, 30, 31, 30, 31, 31, 30, 31, 30, 31][month - 1]
  }

  predicate DateValid(d: Date) {
    2000 <= d.years <= 2099 && 1 <= d.months <= 12 && 1 <= d.days <= DaysIn(d.months, d.years)
  }

  predicate TimeValid(t: Time) {
    t.hours < 24 && t.minutes < 60 && t.seconds < 60
  }

  /** The shortened leap year rule is no loss: exactly the Gregorian dates of the hardware's century
      are accepted. */
  lemma CalendarExact(d: Date)
    ensures CheckDate(d) == Ok <==> DateValid(d)
  {
    assert 2000 <= d.years <= 2099 ==> (LeapYear(d.years) <==> d.years % 4 == 0);
  }

  function CheckDate(d: Date): (s: Status)
  {
    if d.years > 2099 || d.years < 2000 then InvalidYear
    else if d.months > 12 || d.months < 1 then InvalidMonth
    else if d.days < 1 || d.days > LastDay(d.months, d.years) then InvalidDay
    else Ok
  }

  /** The first field that is wrong decides: hours, then minutes, then seconds. */
  predicate TimeAnswers(t: Time, s: Status) {
    && (s == Ok <==> TimeValid(t))
    && (s == InvalidHour <==> t.hours > 23)
    && (s == InvalidMinute <==> t.hours <= 23 && t.minutes > 59)
    && (s == InvalidSecond <==> t.hours <= 23 && t.minutes <= 59 && t.seconds > 59)
  }

  /** Year, then month, then day. */
  predicate DateAnswers(d: Date, s: Status) {
    var year, month := 2000 <= d.years <= 2099, 1 <= d.months <= 12;
    && (s == Ok <==> DateValid(d))
    && (s == InvalidYear <==> !year)
    && (s == InvalidMonth <==> year && !month)
    && (s == InvalidDay <==> year && month && !(1 <= d.days <= DaysIn(d.months, d.years)))
  }

  lemma ChecksAnswer(d: Date, t: Time)
    ensures TimeAnswers(t, CheckTime(t)) && DateAnswers(d, CheckDate(d))
  {
    CalendarExact(d);
  }

  // ---- the registers and the driver's own state ----------------------------------------------

  /** One bit of the interrupt enable register. */
  datatype Interrupt = OnUnit(unit: nat) | Combined

  /** `loads` lists what was written to the load register; `mayLoad` is the gate that `init` closes
      while it calls the other functions. */
  datatype State = State(
    values: seq<nat>, divisor: nat, triggers: seq<nat>, enabled: set<Interrupt>,
    combo: bool, mayLoad: bool, loads: seq<nat>)

  function Load(r: State, what: nat): (r': State)
  {
    if r.mayLoad then r.(loads := r.loads + [what]) else r
  }

  function TimeRegisters(t: Time): (v: seq<nat>)
    ensures |v| == 3
  {
    [ToBcd(t.seconds), ToBcd(t.minutes), ToBcd(t.hours)]
  }

  function DateRegisters(d: Date): (v: seq<nat>)
    requires d.years >= 2000
    ensures |v| == 3
  {
    [ToBcd(d.days), ToBcd(d.months), ToBcd(d.years - 2000)]
  }

  function SetTime(r: State, t: Time): (o: (Status, State))
    requires |r.values| == UNITS
  {
    if CheckTime(t) != Ok then (CheckTime(t), r)
    else (Ok, Load(r.(values := TimeRegisters(t) + r.values[3..]), LOAD_TIME))
  }

  function SetDate(r: State, d: Date): (o: (Status, State))
    requires |r.values| == UNITS
  {
    if CheckDate(d) != Ok then (CheckDate(d), r)
    else (Ok, Load(r.(values := r.values[..3] + DateRegisters(d)), LOAD_TIME))
  }

  function SetDateTime(r: State, d: Date, t: Time): (o: (Status, State))
  {
    if CheckTime(t) != Ok then (CheckTime(t), r)
    else if CheckDate(d) != Ok then (CheckDate(d), r)
    else (Ok, Load(r.(values := TimeRegisters(t) + DateRegisters(d)), LOAD_TIME))
  }

  function GetTime(r: State): (t: Time)
    requires |r.values| == UNITS
  {
    Time(FromBcd(r.values[2]), FromBcd(r.values[1]), FromBcd(r.values[0]))
  }

  function GetDate(r: State): (d: Date)
    requires |r.values| == UNITS
  {
    Date(2000 + FromBcd(r.values[5]), FromBcd(r.values[4]), FromBcd(r.values[3]))
  }

  function SetDivisor(r: State, divisor: nat): (r': State)
  {
    Load(r.(divisor := divisor), LOAD_DIVISOR)
  }

  predicate PriorityValid(p: nat) { 1 <= p <= 7 }

  /** New interrupt settings switch every interrupt off, whatever events are set up. */
  function SetInterruptBehavior(r: State, priority: nat): (o: (Status, State))
  {
    if !PriorityValid(priority) then (InvalidPriority, r) else (Ok, r.(enabled := {}))
  }

  // ---- unit events ---------------------------------------------------------------------------

  datatype Trigger = Off | OnChange | OnValue | Unknown

  function RangeError(unit: nat): (s: Status)
    requires unit < UNITS
  {
    match unit
    case 0 => InvalidSecond case 1 => InvalidMinute case 2 => InvalidHour
    case 3 => InvalidDay case 4 => InvalidMonth case _ => InvalidYear
  }

  predicate InRange(unit: nat, value: nat)
    requires unit < UNITS
  {
    match unit
    case 0 => value <= 59
    case 1 => value <= 59
    case 2 => value <= 23
    case 3 => 1 <= value <= 31
    case 4 => 1 <= value <= 12
    case _ => 2000 <= value <= 2099
  }

  const ALL_OFF: seq<nat> := [0, 0, 0, 0, 0, 0]

  /** A combo event is cancelled before anything is checked. */
  function CancelCombo(r: State): (r': State)
  {
    if r.combo then r.(triggers := ALL_OFF, enabled := {}, combo := false) else r
  }

  function SetUnitTrigger(r: State, unit: nat, trigger: Trigger, value: nat): (o: (Status, State))
    requires |r.triggers| == UNITS
    ensures |o.1.triggers| == UNITS
  {
    var c := CancelCombo(r);
    if unit >= UNITS then (InvalidUnit, c)
    else if trigger == OnValue && !InRange(unit, value) then (RangeError(unit), c)
    else
      var next := match trigger
        case Off => c.(triggers := c.triggers[unit := EVENT_OFF], enabled := c.enabled - {OnUnit(unit)})
        case OnChange => c.(triggers := c.triggers[unit := EVENT_ON_CHANGE], enabled := c.enabled + {OnUnit(unit)})
        case OnValue => c.(triggers := c.triggers[unit := ToBcd(value)], enabled := c.enabled + {OnUnit(unit)})
        case Unknown => c;
      (Ok, Load(next, LOAD_TRIGGERS))
  }

  // ---- the combo event -----------------------------------------------------------------------

  /** The values of a combo event in register order. */
  function ComboValues(d: Date, t: Time): (v: seq<nat>)
  {
    [t.seconds, t.minutes, t.hours, d.days, d.months, d.years]
  }

  /** How many units the event covers: seconds and minutes always, then up to the first unit that is
      marked as not used. */
  function Covered(v: seq<nat>, n: nat): (m: nat)
    requires |v| == UNITS && 2 <= n <= UNITS
    ensures n <= m <= 6 && (m < 6 ==> v[m] == 255) && forall i :: n <= i < m ==> v[i] != 255
    decreases UNITS - n
  {
    if n == UNITS || v[n] == NOT_USED then n else Covered(v, n + 1)
  }

  /** The first covered value that is out of range. */
  function CheckCovered(v: seq<nat>, i: nat): (s: Status)
    requires |v| == UNITS && i <= Covered(v, 2)
    decreases Covered(v, 2) - i
  {
    if i == Covered(v, 2) then Ok
    else if !InRange(i, v[i]) then RangeError(i)
    else CheckCovered(v, i + 1)
  }

  /** BCD values for the covered units, the combo flag in the next register unless that was the last
      one, zeros behind. */
  function ComboTriggers(v: seq<nat>): (triggers: seq<nat>)
    requires |v| == UNITS
    ensures |triggers| == UNITS
  {
    var n := Covered(v, 2);
    seq(UNITS, i requires 0 <= i < UNITS =>
      if i < n then ToBcd(v[i]) else if i == n then COMBO_EVENT else EVENT_OFF)
  }

  function SetCombo(r: State, d: Date, t: Time): (o: (Status, State))
  {
    var v := ComboValues(d, t);
    if CheckCovered(v, 0) != Ok then (CheckCovered(v, 0), r)
    else (Ok, Load(r.(triggers := ComboTriggers(v), enabled := {Combined}, combo := true), LOAD_TRIGGERS))
  }

  // ---- init ----------------------------------------------------------------------------------

  datatype Settings = Settings(
    date: Date, time: Time, divisor: nat, priority: nat,
    comboEnabled: bool, comboDate: Date, comboTime: Time,
    triggers: seq<Trigger>, values: seq<nat>)
  {
    predicate WellFormed() { |triggers| == UNITS && |values| == UNITS }
  }

  /** The unit triggers from `unit` on, until one fails. */
  function SetUnitTriggers(r: State, s: Settings, unit: nat): (o: (Status, State))
    requires |r.triggers| == UNITS && s.WellFormed() && unit <= UNITS
    ensures |o.1.triggers| == UNITS
    decreases UNITS - unit
  {
    if unit == UNITS then (Ok, r)
    else
      var (status, next) := SetUnitTrigger(r, unit, s.triggers[unit], s.values[unit]);
      if status != Ok then (status, next) else SetUnitTriggers(next, s, unit + 1)
  }

  function SetEvents(r: State, s: Settings): (o: (Status, State))
    requires |r.triggers| == UNITS && s.WellFormed()
  {
    if s.comboEnabled then SetCombo(r, s.comboDate, s.comboTime) else SetUnitTriggers(r, s, 0)
  }

  /** Everything `init` does behind the closed gate. */
  function InitGated(r: State, s: Settings): (o: (Status, State))
    requires |r.triggers| == UNITS && s.WellFormed()
  {
    var (status, dated) := SetDateTime(r, s.date, s.time);
    if status != Ok then (status, dated)
    else
      var divided := SetDivisor(dated, s.divisor);
      if !PriorityValid(s.priority) then (InvalidPriority, divided)
      else SetEvents(divided.(enabled := {}), s)
  }

  predicate Conflicting(s: Settings) {
    s.comboEnabled && exists i :: 0 <= i < |s.triggers| && s.triggers[i] != Off
  }

  function Init(r: State, s: Settings): (o: (Status, State))
    requires |r.triggers| == UNITS && s.WellFormed()
  {
    if Conflicting(s) then (EventConflict, r)
    else
      var (status, done) := InitGated(r.(mayLoad := false), s);
      (status, (if status == Ok then done.(loads := done.loads + [LOAD_ALL]) else done).(mayLoad := true))
  }

  // ---- the invariant -------------------------------------------------------------------------

  /** A trigger register outside combo mode: off, on change, or a BCD value; never the combo flag. */
  predicate IsUnitTrigger(v: nat) {
    v == EVENT_ON_CHANGE || IsBcd(v)
  }

  /** The six trigger registers in combo mode. */
  predicate IsCombo(triggers: seq<nat>, n: nat) {
    && |triggers| == UNITS && 2 <= n <= UNITS
    && (forall i :: 0 <= i < n ==> IsBcd(triggers[i]))
    && (n < UNITS ==> triggers[n] == COMBO_EVENT)
    && (forall i :: n < i < UNITS ==> triggers[i] == EVENT_OFF)
  }

  predicate Sound(r: State) {
    && |r.values| == UNITS && |r.triggers| == UNITS
    && if r.combo
       then r.enabled <= {Combined} && exists n :: 0 <= n <= UNITS && IsCombo(r.triggers, n)
       else Combined !in r.enabled && forall i :: 0 <= i < UNITS ==> IsUnitTrigger(r.triggers[i])
  }

  const RESET := State([0, 0, 0, 0, 0, 0], 0, ALL_OFF, {}, false, true, [])

  lemma SetUnitTriggerKeeps(r: State, unit: nat, trigger: Trigger, value: nat)
    requires Sound(r)
    ensures Sound(SetUnitTrigger(r, unit, trigger, value).1)
    ensures !SetUnitTrigger(r, unit, trigger, value).1.combo
    ensures SetUnitTrigger(r, unit, trigger, value).1.mayLoad == r.mayLoad
  {
    hide ToBcd, IsBcd;
    BcdRoundTrip(value);
    ZeroIsBcd();
  }

  lemma ZeroIsBcd()
    ensures IsBcd(0)
  {
  }

  lemma SetComboKeeps(r: State, d: Date, t: Time)
    requires Sound(r)
    ensures Sound(SetCombo(r, d, t).1) && SetCombo(r, d, t).1.mayLoad == r.mayLoad
  {
    hide ToBcd, IsBcd, CheckCovered;
    var v := ComboValues(d, t);
    forall i | 0 <= i < UNITS
      ensures IsBcd(ToBcd(v[i]))
    {
      BcdRoundTrip(v[i]);
    }
    assert IsCombo(ComboTriggers(v), Covered(v, 2));
  }

  lemma {:induction false} SetUnitTriggersKeeps(r: State, s: Settings, unit: nat)
    requires Sound(r) && s.WellFormed() && unit <= UNITS
    ensures Sound(SetUnitTriggers(r, s, unit).1) && SetUnitTriggers(r, s, unit).1.mayLoad == r.mayLoad
    decreases UNITS - unit
  {
    if unit < UNITS {
      hide Sound, SetUnitTrigger;
      Lengths(r);
      SetUnitTriggerKeeps(r, unit, s.triggers[unit], s.values[unit]);
      var next := SetUnitTrigger(r, unit, s.triggers[unit], s.values[unit]).1;
      SetUnitTriggersKeeps(next, s, unit + 1);
    }
  }

  lemma Lengths(r: State)
    requires Sound(r)
    ensures |r.values| == UNITS && |r.triggers| == UNITS
  {
  }

  /** Time registers, divisor, gate and load register do not matter to the invariant, and switching
      every interrupt off cannot break it. */
  lemma ElsewhereKeeps(r: State, r': State)
    requires Sound(r) && r'.triggers == r.triggers && r'.combo == r.combo && |r'.values| == UNITS
    requires r'.enabled == r.enabled || r'.enabled == {}
    ensures Sound(r')
  {
  }

  lemma InitKeeps(r: State, s: Settings)
    requires Sound(r) && s.WellFormed()
    ensures Sound(Init(r, s).1) && (r.mayLoad ==> Init(r, s).1.mayLoad)
  {
    hide Sound, SetEvents, TimeRegisters, CheckTime, CheckDate;
    Lengths(r);
    if !Conflicting(s) {
      var gated := r.(mayLoad := false);
      var (status, dated) := SetDateTime(gated, s.date, s.time);
      ElsewhereKeeps(r, dated);
      var quiet := SetDivisor(dated, s.divisor).(enabled := {});
      ElsewhereKeeps(r, SetDivisor(dated, s.divisor));
      ElsewhereKeeps(r, quiet);
      SetEventsKeeps(quiet, s);
      var (final, done) := InitGated(gated, s);
      Lengths(done);
      ElsewhereKeeps(done, Init(r, s).1);
    }
  }

  lemma SetEventsKeeps(r: State, s: Settings)
    requires Sound(r) && s.WellFormed()
    ensures Sound(SetEvents(r, s).1)
  {
    SetComboKeeps(r, s.comboDate, s.comboTime);
    SetUnitTriggersKeeps(r, s, 0);
  }

  // ---- runs ----------------------------------------------------------------------------------

  datatype Call =
    | CallTime(t: Time)
    | CallDate(d: Date)
    | CallDateTime(d: Date, t: Time)
    | CallDivisor(divisor: nat)
    | CallBehavior(priority: nat)
    | CallUnit(unit: nat, trigger: Trigger, value: nat)
    | CallCombo(d: Date, t: Time)
    | CallInit(s: Settings)

  predicate WellFormed(c: Call) { c.CallInit? ==> c.s.WellFormed() }

  function Step(r: State, c: Call): (r': State)
    requires Sound(r) && WellFormed(c)
  {
    match c
    case CallTime(t) => SetTime(r, t).1
    case CallDate(d) => SetDate(r, d).1
    case CallDateTime(d, t) => SetDateTime(r, d, t).1
    case CallDivisor(n) => SetDivisor(r, n)
    case CallBehavior(p) => SetInterruptBehavior(r, p).1
    case CallUnit(u, t, v) => SetUnitTrigger(r, u, t, v).1
    case CallCombo(d, t) => SetCombo(r, d, t).1
    case CallInit(s) => Init(r, s).1
  }

  /** The calls that do not touch the events. */
  lemma NoEventKeeps(r: State, c: Call)
    requires Sound(r) && r.mayLoad && !c.CallUnit? && !c.CallCombo? && !c.CallInit?
    ensures Sound(Step(r, c)) && Step(r, c).mayLoad
  {
    hide Sound, TimeRegisters, DateRegisters, CheckTime, CheckDate;
    Lengths(r);
    ElsewhereKeeps(r, Step(r, c));
  }

  lemma StepKeeps(r: State, c: Call)
    requires Sound(r) && r.mayLoad && WellFormed(c)
    ensures Sound(Step(r, c)) && Step(r, c).mayLoad
  {
    hide Sound, Init, SetCombo, SetUnitTrigger, SetTime, SetDate, SetDateTime, SetDivisor, SetInterruptBehavior;
    Lengths(r);
    match c
    case CallUnit(u, t, v) => SetUnitTriggerKeeps(r, u, t, v);
    case CallCombo(d, t) => SetComboKeeps(r, d, t);
    case CallInit(s) => InitKeeps(r, s);
    case _ => NoEventKeeps(r, c);
  }

  function Run(r: State, cs: seq<Call>): (r': State)
    requires Sound(r) && r.mayLoad && forall i :: 0 <= i < |cs| ==> WellFormed(cs[i])
    ensures Sound(r') && r'.mayLoad
  {
    if cs == [] then r
    else
      StepKeeps(Run(r, cs[..|cs| - 1]), cs[|cs| - 1]);
      Step(Run(r, cs[..|cs| - 1]), cs[|cs| - 1])
  }

  lemma ResetSound()
    ensures Sound(RESET)
  {
    ZeroIsBcd();
  }

  /** In every state a program can reach from cleared registers: the combined interrupt and a unit
      interrupt are never enabled together, the combo flag is in a trigger register only while a
      combo event is active, the six registers then have the combo shape, and the load gate is open. */
  lemma ModesExclude(cs: seq<Call>)
    requires forall i :: 0 <= i < |cs| ==> WellFormed(cs[i])
    ensures Sound(RESET)
    ensures var r := Run(RESET, cs);
            && r.mayLoad
            && !(Combined in r.enabled && exists u :: OnUnit(u) in r.enabled)
            && (!r.combo ==> Combined !in r.enabled && COMBO_EVENT !in r.triggers)
            && (r.combo ==>
                  && (forall u :: OnUnit(u) !in r.enabled)
                  && exists n :: 0 <= n <= UNITS && IsCombo(r.triggers, n))
  {
    hide Run, IsCombo;
    ResetSound();
  }

  // ---- single calls --------------------------------------------------------------------------

  lemma TimeReads(r: State, t: Time, rest: seq<nat>)
    requires TimeValid(t) && r.values == TimeRegisters(t) + rest && |rest| == 3
    ensures GetTime(r) == t
  {
    hide ToBcd, FromBcd;
    BcdRoundTrip(t.seconds);
    BcdRoundTrip(t.minutes);
    BcdRoundTrip(t.hours);
  }

  lemma DateReads(r: State, d: Date, rest: seq<nat>)
    requires DateValid(d) && r.values == rest + DateRegisters(d) && |rest| == 3
    ensures GetDate(r) == d
  {
    hide ToBcd, FromBcd;
    BcdRoundTrip(d.days);
    BcdRoundTrip(d.months);
    BcdRoundTrip(d.years - 2000);
  }

  /** A time that is set is read back while the clock has not ticked, and the date is not touched. */
  lemma TimeRoundTrip(r: State, t: Time)
    requires |r.values| == UNITS
    ensures SetTime(r, t).0 == Ok <==> TimeValid(t)
    ensures var r' := SetTime(r, t).1;
            |r'.values| == UNITS && GetDate(r') == GetDate(r) && (TimeValid(t) ==> GetTime(r') == t)
  {
    hide ToBcd, FromBcd;
    if TimeValid(t) {
      TimeReads(SetTime(r, t).1, t, r.values[3..]);
    }
  }

  lemma DateRoundTrip(r: State, d: Date)
    requires |r.values| == UNITS
    ensures SetDate(r, d).0 == Ok <==> DateValid(d)
    ensures var r' := SetDate(r, d).1;
            |r'.values| == UNITS && GetTime(r') == GetTime(r) && (DateValid(d) ==> GetDate(r') == d)
  {
    hide ToBcd, FromBcd, CheckDate, DaysIn;
    CalendarExact(d);
    if DateValid(d) {
      DateReads(SetDate(r, d).1, d, r.values[..3]);
    }
  }

  /** Date and time together are set and read back, or neither is touched. */
  lemma DateTimeRoundTrip(r: State, d: Date, t: Time)
    ensures SetDateTime(r, d, t).0 == Ok <==> DateValid(d) && TimeValid(t)
    ensures SetDateTime(r, d, t).0 != Ok ==> SetDateTime(r, d, t).1 == r
    ensures SetDateTime(r, d, t).0 == Ok ==>
              var r' := SetDateTime(r, d, t).1;
              |r'.values| == UNITS && GetDate(r') == d && GetTime(r') == t
  {
    hide ToBcd, FromBcd, CheckDate, DaysIn;
    CalendarExact(d);
    if DateValid(d) && TimeValid(t) {
      TimeReads(SetDateTime(r, d, t).1, t, DateRegisters(d));
      DateReads(SetDateTime(r, d, t).1, d, TimeRegisters(t));
    }
  }

  /** What the trigger register of a unit says: nothing, every change, or a value. */
  function TriggerRead(v: nat): (t: (Trigger, nat))
  {
    if v == EVENT_ON_CHANGE then (OnChange, 0) else (OnValue, FromBcd(v))
  }

  /** The values of a unit: seconds, minutes, hours, days, months, years. */
  predicate UnitValue(unit: nat, value: nat)
    requires unit < 6
  {
    [0, 0, 0, 1, 1, 2000][unit] <= value <= [59, 59, 23, 31, 12, 2099][unit]
  }

  function UnitError(unit: nat): (s: Status)
    requires unit < 6
  {
    [InvalidSecond, InvalidMinute, InvalidHour, InvalidDay, InvalidMonth, InvalidYear][unit]
  }

  predicate TriggerValid(unit: nat, trigger: Trigger, value: nat) {
    unit < 6 && (trigger == OnValue ==> UnitValue(unit, value))
  }

  predicate TriggerAnswers(unit: nat, trigger: Trigger, value: nat, s: Status) {
    s == if unit >= 6 then InvalidUnit else if TriggerValid(unit, trigger, value) then Ok else UnitError(unit)
  }

  lemma RangesAre(unit: nat, value: nat)
    requires unit < UNITS
    ensures InRange(unit, value) == UnitValue(unit, value) && RangeError(unit) == UnitError(unit)
  {
  }

  /** The register and the interrupt of a unit say what was asked for. */
  predicate UnitShows(r: State, unit: nat, trigger: Trigger, value: nat)
    requires unit < |r.triggers|
  {
    && (OnUnit(unit) in r.enabled <==> trigger != Off)
    && (trigger == Off ==> r.triggers[unit] == 0)
    && (trigger == OnChange ==> r.triggers[unit] == 0x100)
    && (trigger == OnValue ==> TriggerRead(r.triggers[unit]) == (OnValue, value % 100))
  }

  /** A unit trigger call is accepted exactly for a unit and a value in range; then it sets its own
      register, readable again, and its own interrupt.  It touches another unit exactly by cancelling
      a combo event, which it does even when it is refused. */
  lemma UnitTriggerSets(r: State, unit: nat, trigger: Trigger, value: nat)
    requires Sound(r)
    ensures var (s, r') := SetUnitTrigger(r, unit, trigger, value);
            && TriggerAnswers(unit, trigger, value, s)
            && (s == Ok && trigger != Unknown ==> UnitShows(r', unit, trigger, value))
            && (forall u :: 0 <= u < UNITS && u != unit ==>
                  && r'.triggers[u] == (if r.combo then EVENT_OFF else r.triggers[u])
                  && (OnUnit(u) in r'.enabled <==> !r.combo && OnUnit(u) in r.enabled))
            && !r'.combo && Combined !in r'.enabled
  {
    hide ToBcd, FromBcd, IsBcd;
    BcdRoundTrip(value);
    OnChangeIsNotBcd();
    if unit < UNITS {
      RangesAre(unit, value);
      hide InRange, RangeError, UnitValue, UnitError;
    }
  }

  lemma OnChangeIsNotBcd()
    ensures !IsBcd(EVENT_ON_CHANGE)
  {
  }

  /** What the trigger registers say of a combo event: the BCD values in front of the flag, or all
      six. */
  function ComboRead(triggers: seq<nat>): (v: seq<nat>)
  {
    if triggers == [] || triggers[0] == COMBO_EVENT then [] else [FromBcd(triggers[0])] + ComboRead(triggers[1..])
  }

  function LastTwoDigits(v: seq<nat>): (w: seq<nat>)
  {
    if v == [] then [] else [v[0] % 100] + LastTwoDigits(v[1..])
  }

  lemma {:induction false} ComboReadFrom(triggers: seq<nat>, v: seq<nat>)
    requires |v| <= |triggers|
    requires forall i :: 0 <= i < |v| ==> triggers[i] == ToBcd(v[i])
    requires |v| < |triggers| ==> triggers[|v|] == COMBO_EVENT
    ensures ComboRead(triggers) == LastTwoDigits(v)
  {
    if v != [] {
      hide ToBcd, FromBcd, IsBcd;
      BcdRoundTrip(v[0]);
      assert IsBcd(triggers[0]) && !IsBcd(COMBO_EVENT) by {
        ComboIsNotBcd();
      }
      ComboReadFrom(triggers[1..], v[1..]);
    }
  }

  lemma ComboIsNotBcd()
    ensures !IsBcd(COMBO_EVENT)
  {
  }

  /** Every combo event can be read back from the six registers: the covered units and their values,
      the year by its last two digits. */
  lemma ComboReadable(r: State, d: Date, t: Time)
    requires SetCombo(r, d, t).0 == Ok
    ensures var v := ComboValues(d, t);
            ComboRead(SetCombo(r, d, t).1.triggers) == LastTwoDigits(v[..Covered(v, 2)])
  {
    hide ToBcd;
    var v := ComboValues(d, t);
    ComboReadFrom(ComboTriggers(v), v[..Covered(v, 2)]);
  }

  /** The first covered value that is out of range decides. */
  ghost predicate ComboAnswers(v: seq<nat>, s: Status)
    requires |v| == 6
  {
    var n := Covered(v, 2);
    if s == Ok then forall i :: 0 <= i < n ==> UnitValue(i, v[i])
    else exists i :: 0 <= i < n && FirstWrong(v, i) && s == UnitError(i)
  }

  predicate FirstWrong(v: seq<nat>, i: nat)
    requires |v| == 6 && i < 6
  {
    !UnitValue(i, v[i]) && forall j :: 0 <= j < i ==> UnitValue(j, v[j])
  }

  lemma {:induction false} CoveredAnswer(v: seq<nat>, i: nat)
    requires |v| == 6 && i <= Covered(v, 2) && forall j :: 0 <= j < i ==> UnitValue(j, v[j])
    ensures ComboAnswers(v, CheckCovered(v, i))
    decreases 6 - i
  {
    hide InRange, RangeError, UnitValue, UnitError, Covered;
    if i < Covered(v, 2) {
      RangesAre(i, v[i]);
      WrongIsNotOk(i);
      if UnitValue(i, v[i]) {
        CoveredAnswer(v, i + 1);
      } else {
        assert FirstWrong(v, i);
      }
    }
  }

  lemma WrongIsNotOk(unit: nat)
    requires unit < 6
    ensures UnitError(unit) != Ok
  {
  }

  /** The registers of a combo event: BCD values, the flag behind them unless there is no register left,
      zeros behind that; and no interrupt but the combined one. */
  predicate ComboShows(r: State, v: seq<nat>)
    requires |v| == 6
  {
    var n := Covered(v, 2);
    && r.combo && r.enabled == {Combined} && |r.triggers| == 6
    && (forall i :: 0 <= i < n ==> IsBcd(r.triggers[i]) && FromBcd(r.triggers[i]) == v[i] % 100)
    && (n < 6 ==> r.triggers[n] == 0x200)
    && forall i :: n < i < 6 ==> r.triggers[i] == 0
  }

  lemma ComboMeets(r: State, d: Date, t: Time)
    ensures ComboAnswers(ComboValues(d, t), SetCombo(r, d, t).0)
    ensures SetCombo(r, d, t).0 == Ok ==> ComboShows(SetCombo(r, d, t).1, ComboValues(d, t))
  {
    var v := ComboValues(d, t);
    CoveredAnswer(v, 0);
    hide ToBcd, FromBcd, IsBcd, ComboAnswers, CheckCovered, Covered;
    forall i | 0 <= i < 6
      ensures IsBcd(ToBcd(v[i])) && FromBcd(ToBcd(v[i])) == v[i] % 100
    {
      BcdRoundTrip(v[i]);
    }
  }

  predicate ComboValid(d: Date, t: Time) { CheckCovered(ComboValues(d, t), 0) == Ok }

  /** Exactly one write to the load register if the call is accepted and the gate open, else none. */
  predicate Loaded(r: State, r': State, accepted: bool, what: nat) {
    r'.loads == r.loads + if accepted && r.mayLoad then [what] else []
  }

  /** `init` writes the load register once, at its successful end; a failing one not at all. */
  lemma InitLoadsOnce(r: State, s: Settings)
    requires |r.triggers| == UNITS && s.WellFormed()
    ensures Init(r, s).1.loads == r.loads + if Init(r, s).0 == Ok then [7] else []
  {
    hide ToBcd, CheckTime, CheckDate, TimeRegisters, CheckCovered, SetUnitTriggers;
    if !Conflicting(s) {
      var dated := SetDateTime(r.(mayLoad := false), s.date, s.time).1;
      UnitsDoNotLoad(SetDivisor(dated, s.divisor).(enabled := {}), s, 0);
    }
  }

  lemma {:induction false} UnitsDoNotLoad(r: State, s: Settings, unit: nat)
    requires |r.triggers| == UNITS && s.WellFormed() && !r.mayLoad && unit <= UNITS
    ensures SetUnitTriggers(r, s, unit).1.loads == r.loads && !SetUnitTriggers(r, s, unit).1.mayLoad
    decreases UNITS - unit
  {
    if unit < UNITS {
      UnitsDoNotLoad(SetUnitTrigger(r, unit, s.triggers[unit], s.values[unit]).1, s, unit + 1);
    }
  }

  // ---- the driver ----------------------------------------------------------------------------

  class Clock {
    var values: seq<nat>
    var divisor: nat
    var triggers: seq<nat>
    var enabled: set<Interrupt>
    var combo: bool
    var mayLoad: bool
    var loads: seq<nat>

    ghost function View(): (r: State)
      reads this
    {
      State(values, divisor, triggers, enabled, combo, mayLoad, loads)
    }

    /** The two event modes are apart. */
    ghost predicate Valid()
      reads this
    {
      Sound(View())
    }

    constructor ()
      ensures Valid() && View() == RESET
    {
      ResetSound();
      values, divisor, triggers, enabled := [0, 0, 0, 0, 0, 0], 0, ALL_OFF, {};
      combo, mayLoad, loads := false, true, [];
    }

    method WriteLoad(what: nat)
      modifies this`loads
      ensures View() == Load(old(View()), what)
    {
      if mayLoad {
        loads := loads + [what];
      }
    }

    method SetClockTime(t: Time) returns (s: Status)
      requires Valid()
      modifies this
      ensures Valid() && (s, View()) == SetTime(old(View()), t)
      ensures TimeAnswers(t, s) && Loaded(old(View()), View(), s == Ok, 1)
      ensures GetDate(View()) == old(GetDate(View())) && (s == Ok ==> GetTime(View()) == t)
      ensures s != Ok ==> View() == old(View())
    {
      TimeRoundTrip(View(), t);
      ElsewhereKeeps(View(), SetTime(View(), t).1);
      ChecksAnswer(Date(2000, 1, 1), t);
      hide Sound, TimeValid, TimeAnswers, GetTime, GetDate, TimeRegisters;
      s := CheckTime(t);
      if s != Ok {
        return;
      }
      values := TimeRegisters(t) + values[3..];
      WriteLoad(LOAD_TIME);
    }

    method SetClockDate(d: Date) returns (s: Status)
      requires Valid()
      modifies this
      ensures Valid() && (s, View()) == SetDate(old(View()), d)
      ensures DateAnswers(d, s) && Loaded(old(View()), View(), s == Ok, 1)
      ensures GetTime(View()) == old(GetTime(View())) && (s == Ok ==> GetDate(View()) == d)
      ensures s != Ok ==> View() == old(View())
    {
      DateRoundTrip(View(), d);
      ElsewhereKeeps(View(), SetDate(View(), d).1);
      ChecksAnswer(d, Time(0, 0, 0));
      hide Sound, DateValid, DateAnswers, GetTime, GetDate, DateRegisters;
      s := CheckDate(d);
      if s != Ok {
        return;
      }
      values := values[..3] + DateRegisters(d);
      WriteLoad(LOAD_TIME);
    }

    method SetClock(d: Date, t: Time) returns (s: Status)
      requires Valid()
      modifies this
      ensures Valid() && (s, View()) == SetDateTime(old(View()), d, t)
      ensures if TimeValid(t) then DateAnswers(d, s) else TimeAnswers(t, s)
      ensures Loaded(old(View()), View(), s == Ok, 1)
      ensures if s == Ok then GetDate(View()) == d && GetTime(View()) == t else View() == old(View())
    {
      DateTimeRoundTrip(View(), d, t);
      ElsewhereKeeps(View(), SetDateTime(View(), d, t).1);
      ChecksAnswer(d, t);
      assert TimeValid(t) <==> CheckTime(t) == Ok;
      hide Sound, DateValid, TimeValid, DateAnswers, TimeAnswers, GetTime, GetDate, TimeRegisters, DateRegisters;
      s := CheckTime(t);
      if s != Ok {
        return;
      }
      s := CheckDate(d);
      if s != Ok {
        return;
      }
      values := TimeRegisters(t) + DateRegisters(d);
      WriteLoad(LOAD_TIME);
    }

    method SetClockDivisor(n: nat)
      requires Valid()
      modifies this
      ensures Valid() && View() == SetDivisor(old(View()), n)
      ensures divisor == n && Loaded(old(View()), View(), true, 4)
    {
      ElsewhereKeeps(View(), SetDivisor(View(), n));
      divisor := n;
      WriteLoad(LOAD_DIVISOR);
    }

    method SetBehavior(priority: nat) returns (s: Status)
      requires Valid()
      modifies this`enabled
      ensures Valid() && (s, View()) == SetInterruptBehavior(old(View()), priority)
      ensures s == (if 1 <= priority <= 7 then Ok else InvalidPriority)
      ensures enabled == if s == Ok then {} else old(enabled)
    {
      ElsewhereKeeps(View(), SetInterruptBehavior(View(), priority).1);
      if !PriorityValid(priority) {
        return InvalidPriority;
      }
      enabled := {};
      return Ok;
    }

    method SetTimeTrigger(unit: nat, trigger: Trigger, value: nat) returns (s: Status)
      requires Valid()
      modifies this
      ensures Valid() && (s, View()) == SetUnitTrigger(old(View()), unit, trigger, value)
      ensures !combo && TriggerAnswers(unit, trigger, value, s) && Loaded(old(View()), View(), s == Ok, 2)
      ensures s == Ok && trigger != Unknown ==> UnitShows(View(), unit, trigger, value)
      ensures forall u :: 0 <= u < UNITS && u != unit ==>
                triggers[u] == if old(combo) then EVENT_OFF else old(triggers)[u]
    {
      Lengths(View());
      SetUnitTriggerKeeps(View(), unit, trigger, value);
      UnitTriggerSets(View(), unit, trigger, value);
      hide Sound, UnitShows, ToBcd, TriggerAnswers;
      if combo {
        triggers, enabled, combo := ALL_OFF, {}, false;
      }
      if unit >= UNITS {
        return InvalidUnit;
      }
      if trigger == OnValue && !InRange(unit, value) {
        return RangeError(unit);
      }
      if trigger == Off {
        triggers, enabled := triggers[unit := EVENT_OFF], enabled - {OnUnit(unit)};
      } else if trigger == OnChange {
        triggers, enabled := triggers[unit := EVENT_ON_CHANGE], enabled + {OnUnit(unit)};
      } else if trigger == OnValue {
        triggers, enabled := triggers[unit := ToBcd(value)], enabled + {OnUnit(unit)};
      }
      WriteLoad(LOAD_TRIGGERS);
      return Ok;
    }

    /** The nested checks that find the last unit of the event, then the registers. */
    method SetComboTrigger(d: Date, t: Time) returns (s: Status)
      requires Valid()
      modifies this
      ensures Valid() && (s, View()) == SetCombo(old(View()), d, t)
      ensures ComboAnswers(ComboValues(d, t), s) && Loaded(old(View()), View(), s == Ok, 2)
      ensures s == Ok ==> ComboShows(View(), ComboValues(d, t))
      ensures if s == Ok
              then combo && ComboRead(triggers) == LastTwoDigits(ComboValues(d, t)[..Covered(ComboValues(d, t), 2)])
              else View() == old(View())
    {
      SetComboKeeps(View(), d, t);
      ComboMeets(View(), d, t);
      if ComboValid(d, t) {
        ComboReadable(View(), d, t);
      }
      hide Sound, ComboRead, LastTwoDigits, ComboTriggers, Covered, ComboAnswers, ComboShows;
      var last;
      s, last := LastUnit(d, t);
      if s != Ok {
        return;
      }
      triggers := ComboRegisters(d, t, last);
      combo, enabled := true, {Combined};
      WriteLoad(LOAD_TRIGGERS);
    }

    /** The six trigger registers of an event whose last unit is `last`. */
    static method ComboRegisters(d: Date, t: Time, last: nat) returns (triggers: seq<nat>)
      requires last + 1 == Covered(ComboValues(d, t), 2) && (last == YEARS ==> d.years >= 2000)
      ensures triggers == ComboTriggers(ComboValues(d, t))
    {
      hide ToBcd, Covered;
      triggers := [ToBcd(t.seconds), ToBcd(t.minutes), COMBO_EVENT, 0, 0, 0];
      if last == HOURS {
        triggers := triggers[HOURS := ToBcd(t.hours)][DAYS := COMBO_EVENT];
      } else if last == DAYS {
        triggers := triggers[HOURS := ToBcd(t.hours)][DAYS := ToBcd(d.days)][MONTHS := COMBO_EVENT];
      } else if last == MONTHS {
        triggers := triggers[HOURS := ToBcd(t.hours)][DAYS := ToBcd(d.days)][MONTHS := ToBcd(d.months)];
        triggers := triggers[YEARS := COMBO_EVENT];
      } else if last == YEARS {
        triggers := triggers[HOURS := ToBcd(t.hours)][DAYS := ToBcd(d.days)][MONTHS := ToBcd(d.months)];
        CenturyDropped(d.years);
        triggers := triggers[YEARS := ToBcd(d.years - 2000)];
      }
      ComboTriggersAre(ComboValues(d, t), triggers);
    }

    static method LastUnit(d: Date, t: Time) returns (s: Status, last: nat)
      ensures s == CheckCovered(ComboValues(d, t), 0)
      ensures s == Ok ==> last + 1 == Covered(ComboValues(d, t), 2) && (last == YEARS ==> d.years >= 2000)
    {
      ghost var v := ComboValues(d, t);
      CoveredStep(v, 2);
      CheckStep(v, 0);
      s, last := Ok, MINUTES;
      if t.seconds == NOT_USED || t.seconds > 59 {
        return InvalidSecond, last;
      }
      CheckStep(v, 1);
      if t.minutes == NOT_USED || t.minutes > 59 {
        return InvalidMinute, last;
      }
      CheckStep(v, 2);
      if t.hours == NOT_USED {
        return;
      }
      CoveredStep(v, 3);
      last := HOURS;
      if t.hours > 23 {
        return InvalidHour, last;
      }
      CheckStep(v, 3);
      if d.days == NOT_USED {
        return;
      }
      CoveredStep(v, 4);
      last := DAYS;
      if d.days < 1 || d.days > 31 {
        return InvalidDay, last;
      }
      CheckStep(v, 4);
      if d.months == NOT_USED {
        return;
      }
      CoveredStep(v, 5);
      last := MONTHS;
      if d.months < 1 || d.months > 12 {
        return InvalidMonth, last;
      }
      CheckStep(v, 5);
      if d.years == NOT_USED {
        return;
      }
      CoveredStep(v, 6);
      last := YEARS;
      if d.years < 2000 || d.years > 2099 {
        return InvalidYear, last;
      }
      CheckStep(v, 6);
    }

    /** The gate is opened again on every way out. */
    method InitClock(settings: Settings) returns (s: Status)
      requires Valid() && settings.WellFormed()
      modifies this
      ensures Valid() && (s, View()) == Init(old(View()), settings)
      ensures old(mayLoad) ==> mayLoad
      ensures loads == old(loads) + if s == Ok then [7] else []
    {
      InitLoadsOnce(View(), settings);
      InitKeeps(View(), settings);
      Lengths(View());
      hide Sound, InitGated, Conflicting;
      ElsewhereKeeps(View(), View().(mayLoad := false));
      if Conflicting(settings) {
        return EventConflict;
      }
      mayLoad := false;
      s := InitBehindGate(settings);
      if s != Ok {
        mayLoad := true;
        return;
      }
      loads := loads + [LOAD_ALL];
      mayLoad := true;
    }

    /** Time and date, divisor, interrupt settings, and the events. */
    method InitBehindGate(settings: Settings) returns (s: Status)
      requires Valid() && settings.WellFormed()
      modifies this
      ensures Valid() && (s, View()) == InitGated(old(View()), settings)
    {
      hide Sound, TimeValid, DateValid, GetTime, GetDate, SetEvents, SetDateTime, SetDivisor;
      Lengths(View());
      s := SetClock(settings.date, settings.time);
      if s != Ok {
        return;
      }
      SetClockDivisor(settings.divisor);
      s := SetBehavior(settings.priority);
      if s != Ok {
        return;
      }
      s := SetConfiguredEvents(settings);
    }

    method SetConfiguredEvents(settings: Settings) returns (s: Status)
      requires Valid() && settings.WellFormed()
      modifies this
      ensures Valid() && (s, View()) == SetEvents(old(View()), settings)
    {
      Lengths(View());
      hide Sound, ComboRead, LastTwoDigits, ComboValues, Covered, SetUnitTriggers, SetCombo;
      if settings.comboEnabled {
        s := SetComboTrigger(settings.comboDate, settings.comboTime);
      } else {
        s := SetAllUnits(settings);
      }
    }

    method SetAllUnits(settings: Settings) returns (s: Status)
      requires Valid() && settings.WellFormed()
      modifies this
      ensures Valid() && (s, View()) == SetUnitTriggers(old(View()), settings, 0)
    {
      Lengths(View());
      SetUnitTriggersKeeps(View(), settings, 0);
      hide SetUnitTrigger, Sound, UnitShows, TriggerValid;
      UnitsStep(View(), settings, SECONDS);
      s := SetTimeTrigger(SECONDS, settings.triggers[SECONDS], settings.values[SECONDS]);
      if s != Ok {
        return;
      }
      UnitsStep(View(), settings, MINUTES);
      s := SetTimeTrigger(MINUTES, settings.triggers[MINUTES], settings.values[MINUTES]);
      if s != Ok {
        return;
      }
      UnitsStep(View(), settings, HOURS);
      s := SetTimeTrigger(HOURS, settings.triggers[HOURS], settings.values[HOURS]);
      if s != Ok {
        return;
      }
      UnitsStep(View(), settings, DAYS);
      s := SetTimeTrigger(DAYS, settings.triggers[DAYS], settings.values[DAYS]);
      if s != Ok {
        return;
      }
      UnitsStep(View(), settings, MONTHS);
      s := SetTimeTrigger(MONTHS, settings.triggers[MONTHS], settings.values[MONTHS]);
      if s != Ok {
        return;
      }
      UnitsStep(View(), settings, YEARS);
      s := SetTimeTrigger(YEARS, settings.triggers[YEARS], settings.values[YEARS]);
      if s == Ok {
        UnitsStep(View(), settings, UNITS);
      }
    }
  }

  lemma UnitsStep(r: State, s: Settings, unit: nat)
    requires |r.triggers| == UNITS && s.WellFormed() && unit <= UNITS
    ensures SetUnitTriggers(r, s, unit)
         == if unit == UNITS then (Ok, r)
            else
              var (status, next) := SetUnitTrigger(r, unit, s.triggers[unit], s.values[unit]);
              if status != Ok then (status, next) else SetUnitTriggers(next, s, unit + 1)
  {
  }

  lemma CoveredStep(v: seq<nat>, n: nat)
    requires |v| == UNITS && 2 <= n <= UNITS
    ensures Covered(v, n) == if n == UNITS || v[n] == NOT_USED then n else Covered(v, n + 1)
  {
  }

  lemma CheckStep(v: seq<nat>, i: nat)
    requires |v| == UNITS && i <= Covered(v, 2)
    ensures CheckCovered(v, i)
         == if i == Covered(v, 2) then Ok
            else if !InRange(i, v[i]) then RangeError(i)
            else CheckCovered(v, i + 1)
  {
  }

  lemma CenturyDropped(year: nat)
    requires year >= 2000
    ensures ToBcd(year) == ToBcd(year - 2000)
  {
    LastDigits(year - 2000);
  }

  lemma LastDigits(n: nat)
    ensures (n + 2000) % 100 == n % 100
  {
    assert n + 2000 == n % 100 + 100 * (n / 100 + 20);
  }

  lemma ComboTriggersAre(v: seq<nat>, triggers: seq<nat>)
    requires |v| == |triggers| == UNITS && forall i :: 0 <= i < UNITS ==>
               triggers[i] == if i < Covered(v, 2) then ToBcd(v[i])
                              else if i == Covered(v, 2) then COMBO_EVENT else EVENT_OFF
    ensures triggers == ComboTriggers(v)
  {
  }
}
