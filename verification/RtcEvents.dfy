/** What calls do to the clock's events: what an init sets up, what refused calls leave behind, and how
    an event comes to stand in the registers with its interrupt off. */
module RtcEvents {
  import opened Rtc

  /** Which init calls get past their checks of time and date. */
  predicate SetsClock(s: Settings) {
    !Conflicting(s) && TimeValid(s.time) && DateValid(s.date)
  }

  /** Trigger registers, interrupt enables and mode are the same. */
  predicate SameEvents(r: State, r': State) {
    r'.triggers == r.triggers && r'.enabled == r.enabled && r'.combo == r.combo
  }

  // ---- the unit events of an init ------------------------------------------------------------

  /** The first unit from `unit` on whose trigger an init cannot set; all six when there is none. */
  function FirstRefused(s: Settings, unit: nat): (n: nat)
    requires s.WellFormed() && unit <= UNITS
    ensures unit <= n <= UNITS
    decreases UNITS - unit
  {
    if unit == UNITS || !TriggerValid(unit, s.triggers[unit], s.values[unit]) then unit else FirstRefused(s, unit + 1)
  }

  /** Register and interrupt of a unit are the same. */
  predicate UnitKept(r: State, r': State, unit: nat)
    requires unit < |r.triggers| && unit < |r'.triggers|
  {
    r'.triggers[unit] == r.triggers[unit] && (OnUnit(unit) in r'.enabled <==> OnUnit(unit) in r.enabled)
  }

  /** A unit is as the settings ask; a trigger that none of the branches knows leaves it alone. */
  predicate AsAsked(r: State, r': State, s: Settings, unit: nat)
    requires s.WellFormed() && unit < UNITS == |r.triggers| == |r'.triggers|
  {
    if s.triggers[unit] == Unknown then UnitKept(r, r', unit)
    else UnitShows(r', unit, s.triggers[unit], s.values[unit])
  }

  lemma UnitsCancelFirst(r: State, s: Settings)
    requires |r.triggers| == UNITS && s.WellFormed()
    ensures SetUnitTriggers(r, s, 0) == SetUnitTriggers(CancelCombo(r), s, 0)
  {
    hide InRange, ToBcd;
    UnitsStep(r, s, 0);
    UnitsStep(CancelCombo(r), s, 0);
  }

  lemma OneUnit(r: State, s: Settings, unit: nat)
    requires Sound(r) && !r.combo && s.WellFormed() && unit < UNITS
    ensures var (status, r') := SetUnitTrigger(r, unit, s.triggers[unit], s.values[unit]);
            && (status == if TriggerValid(unit, s.triggers[unit], s.values[unit]) then Ok else RangeError(unit))
            && Sound(r') && !r'.combo
            && (status == Ok ==> AsAsked(r, r', s, unit))
            && forall u :: 0 <= u < UNITS && (u != unit || status != Ok) ==> UnitKept(r, r', u)
  {
    hide ToBcd, IsBcd, InRange, UnitShows, TriggerRead;
    SetUnitTriggerKeeps(r, unit, s.triggers[unit], s.values[unit]);
    UnitTriggerSets(r, unit, s.triggers[unit], s.values[unit]);
  }

  /** From `r` to `r'` the units from `unit` up to the first refused one were set, and no other. */
  ghost predicate SetFrom(r: State, s: Settings, unit: nat, r': State)
    requires |r.triggers| == UNITS == |r'.triggers| && s.WellFormed() && unit <= UNITS
  {
    var n := FirstRefused(s, unit);
    && (forall u :: unit <= u < n ==> AsAsked(r, r', s, u))
    && forall u :: 0 <= u < UNITS && !(unit <= u < n) ==> UnitKept(r, r', u)
  }

  lemma SetOn(r: State, next: State, r': State, s: Settings, unit: nat)
    requires |r.triggers| == |next.triggers| == |r'.triggers| == UNITS && s.WellFormed() && unit < UNITS
    requires TriggerValid(unit, s.triggers[unit], s.values[unit]) && AsAsked(r, next, s, unit)
    requires forall u :: 0 <= u < UNITS && u != unit ==> UnitKept(r, next, u)
    requires SetFrom(next, s, unit + 1, r')
    ensures SetFrom(r, s, unit, r')
  {
    hide TriggerValid, UnitKept, AsAsked;
    forall u | 0 <= u < UNITS
      ensures if unit <= u < FirstRefused(s, unit) then AsAsked(r, r', s, u) else UnitKept(r, r', u)
    {
      Chained(r, next, r', s, u);
    }
  }

  lemma Chained(r: State, next: State, r': State, s: Settings, u: nat)
    requires |r.triggers| == |next.triggers| == |r'.triggers| == UNITS && s.WellFormed() && u < UNITS
    ensures UnitKept(r, next, u) && UnitKept(next, r', u) ==> UnitKept(r, r', u)
    ensures UnitKept(r, next, u) && AsAsked(next, r', s, u) ==> AsAsked(r, r', s, u)
    ensures AsAsked(r, next, s, u) && UnitKept(next, r', u) ==> AsAsked(r, r', s, u)
  {
    hide TriggerRead;
  }

  lemma {:induction false} UnitsFrom(r: State, s: Settings, unit: nat)
    requires Sound(r) && !r.combo && s.WellFormed() && unit <= UNITS
    ensures |r.triggers| == UNITS
    ensures var (status, r') := SetUnitTriggers(r, s, unit);
            var n := FirstRefused(s, unit);
            status == (if n == UNITS then Ok else RangeError(n)) && !r'.combo && Sound(r') && SetFrom(r, s, unit, r')
    decreases UNITS - unit
  {
    Lengths(r);
    UnitsStep(r, s, unit);
    if unit < UNITS {
      hide SetUnitTrigger, SetUnitTriggers, Sound, TriggerValid, RangeError, SetFrom, AsAsked, UnitKept;
      OneUnit(r, s, unit);
      var (status, next) := SetUnitTrigger(r, unit, s.triggers[unit], s.values[unit]);
      if status == Ok {
        UnitsFrom(next, s, unit + 1);
        SetOn(r, next, SetUnitTriggers(next, s, unit + 1).1, s, unit);
      } else {
        NoneSet(r, s, unit, next);
      }
    } else {
      NoneSet(r, s, unit, r);
    }
  }

  lemma NoneSet(r: State, s: Settings, unit: nat, r': State)
    requires |r.triggers| == UNITS == |r'.triggers| && s.WellFormed() && unit <= UNITS
    requires FirstRefused(s, unit) == unit && forall u :: 0 <= u < UNITS ==> UnitKept(r, r', u)
    ensures SetFrom(r, s, unit, r')
  {
    hide UnitKept;
  }

  /** A unit has the given register, and its interrupt is off. */
  predicate Untouched(start: seq<nat>, r': State, unit: nat)
    requires unit < |start| && unit < |r'.triggers|
  {
    r'.triggers[unit] == start[unit] && OnUnit(unit) !in r'.enabled
  }

  /** What the unit triggers of an init leave, which starts with the interrupts off: the units in front
      of the first refused one as asked, the others as they were but without their interrupts. */
  ghost predicate UnitsSet(start: seq<nat>, s: Settings, r': State)
    requires |start| == UNITS == |r'.triggers| && s.WellFormed()
  {
    var n := FirstRefused(s, 0);
    && !r'.combo && Combined !in r'.enabled
    && (forall u :: 0 <= u < n ==>
          if s.triggers[u] == Unknown then Untouched(start, r', u)
          else UnitShows(r', u, s.triggers[u], s.values[u]))
    && forall u :: n <= u < UNITS ==> Untouched(start, r', u)
  }

  /** The trigger registers once a combo event is cancelled. */
  function Uncombined(r: State): (triggers: seq<nat>)
  {
    if r.combo then ALL_OFF else r.triggers
  }

  /** What an init past its time and date checks makes of the events, whether it succeeds or not. */
  ghost predicate EventsAfter(r: State, s: Settings, status: Status, r': State)
    requires |r.triggers| == UNITS == |r'.triggers| && s.WellFormed()
  {
    if !PriorityValid(s.priority) then
      status == InvalidPriority && SameEvents(r, r')
    else if s.comboEnabled && !ComboValid(s.comboDate, s.comboTime) then
      status != Ok && r'.triggers == r.triggers && r'.enabled == {} && r'.combo == r.combo
    else if s.comboEnabled then
      var v := ComboValues(s.comboDate, s.comboTime);
      && status == Ok && r'.enabled == {Combined} && r'.combo
      && ComboRead(r'.triggers) == LastTwoDigits(v[..Covered(v, 2)])
    else
      var n := FirstRefused(s, 0);
      status == (if n == UNITS then Ok else RangeError(n)) && UnitsSet(Uncombined(r), s, r')
  }

  lemma EventsOfUnits(r: State, s: Settings)
    requires Sound(r) && r.enabled == {} && s.WellFormed()
    ensures var (status, r') := SetUnitTriggers(r, s, 0);
            var n := FirstRefused(s, 0);
            && |r'.triggers| == UNITS && status == (if n == UNITS then Ok else RangeError(n))
            && UnitsSet(Uncombined(r), s, r')
  {
    CancelKeeps(r);
    UnitsCancelFirst(r, s);
    UnitsFrom(CancelCombo(r), s, 0);
    NoneCombined(SetUnitTriggers(CancelCombo(r), s, 0).1);
    hide SetUnitTriggers, RangeError, FirstRefused, Sound, SetFrom, UnitsSet;
    SetQuietly(CancelCombo(r), s, SetUnitTriggers(CancelCombo(r), s, 0).1);
  }

  lemma SetQuietly(r: State, s: Settings, r': State)
    requires |r.triggers| == UNITS == |r'.triggers| && s.WellFormed() && r.enabled == {}
    requires SetFrom(r, s, 0, r') && !r'.combo && Combined !in r'.enabled
    ensures UnitsSet(r.triggers, s, r')
  {
    hide FirstRefused, UnitShows;
    var n := FirstRefused(s, 0);
    forall u | 0 <= u < UNITS
      ensures if u < n && s.triggers[u] != Unknown then UnitShows(r', u, s.triggers[u], s.values[u])
              else Untouched(r.triggers, r', u)
    {
      assert if u < n then AsAsked(r, r', s, u) else UnitKept(r, r', u);
    }
  }

  lemma NoneCombined(r: State)
    requires Sound(r) && !r.combo
    ensures |r.triggers| == UNITS && Combined !in r.enabled
  {
  }

  lemma CancelKeeps(r: State)
    requires Sound(r)
    ensures Sound(CancelCombo(r)) && !CancelCombo(r).combo
  {
    ZeroIsBcd();
  }

  /** The state in which an init past its checks starts on the events. */
  function Quiet(r: State, s: Settings): (q: State)
  {
    SetDivisor(SetDateTime(r.(mayLoad := false), s.date, s.time).1, s.divisor).(enabled := {})
  }

  lemma InitIs(r: State, s: Settings)
    requires Sound(r) && s.WellFormed() && SetsClock(s)
    ensures |Init(r, s).1.triggers| == UNITS
    ensures var (status, r') := Init(r, s);
            if !PriorityValid(s.priority)
            then status == InvalidPriority && SameEvents(r, r')
            else
              var (st, done) := SetEvents(Quiet(r, s), s);
              status == st && SameEvents(done, r')
  {
    hide TimeRegisters, DateRegisters, TimeValid, DateValid, CheckTime, CheckDate, SetEvents, Conflicting, Sound;
    Lengths(r);
    InitKeeps(r, s);
    Lengths(Init(r, s).1);
    DateTimeRoundTrip(r.(mayLoad := false), s.date, s.time);
  }

  lemma QuietKeeps(r: State, s: Settings)
    requires Sound(r) && SetsClock(s)
    ensures var q := Quiet(r, s);
            Sound(q) && q.enabled == {} && q.triggers == r.triggers && q.combo == r.combo
  {
    hide TimeRegisters, DateRegisters, TimeValid, DateValid, CheckTime, CheckDate, Conflicting, Sound;
    Lengths(r);
    DateTimeRoundTrip(r.(mayLoad := false), s.date, s.time);
    ElsewhereKeeps(r, Quiet(r, s));
  }

  lemma PriorityEvents(r: State, s: Settings, r': State)
    requires |r.triggers| == UNITS && s.WellFormed() && !PriorityValid(s.priority)
    requires SameEvents(r, r')
    ensures EventsAfter(r, s, InvalidPriority, r')
  {
  }

  lemma ComboEvents(r: State, s: Settings, q: State, status: Status, r': State)
    requires |r.triggers| == UNITS && s.WellFormed() && PriorityValid(s.priority) && s.comboEnabled
    requires q.triggers == r.triggers && q.enabled == {} && q.combo == r.combo
    requires var (st, done) := SetCombo(q, s.comboDate, s.comboTime);
             && status == st && SameEvents(done, r')
    ensures |r'.triggers| == UNITS && EventsAfter(r, s, status, r')
  {
    hide ComboRead, LastTwoDigits, Covered, CheckCovered, UnitsSet, FirstRefused;
    if status == Ok {
      ComboReadable(q, s.comboDate, s.comboTime);
    }
  }

  lemma UnitEvents(r: State, s: Settings, q: State, status: Status, r': State)
    requires |r.triggers| == UNITS == |r'.triggers| && s.WellFormed() && PriorityValid(s.priority) && !s.comboEnabled
    requires Sound(q) && q.triggers == r.triggers && q.enabled == {} && q.combo == r.combo
    requires |q.triggers| == UNITS
    requires var (st, done) := SetUnitTriggers(q, s, 0);
             && status == st && SameEvents(done, r')
    ensures EventsAfter(r, s, status, r')
  {
    hide Sound, SetUnitTriggers, UnitsSet, FirstRefused, RangeError;
    EventsOfUnits(q, s);
    UnitsAlike(Uncombined(r), s, SetUnitTriggers(q, s, 0).1, r');
  }

  lemma UnitsAlike(start: seq<nat>, s: Settings, done: State, r': State)
    requires |start| == UNITS == |done.triggers| && s.WellFormed() && UnitsSet(start, s, done)
    requires SameEvents(done, r')
    ensures UnitsSet(start, s, r')
  {
    hide FirstRefused, TriggerRead;
    var n := FirstRefused(s, 0);
    forall u | 0 <= u < UNITS
      ensures if u < n && s.triggers[u] != Unknown then UnitShows(r', u, s.triggers[u], s.values[u])
              else Untouched(start, r', u)
    {
      assert if u < n && s.triggers[u] != Unknown then UnitShows(done, u, s.triggers[u], s.values[u])
             else Untouched(start, done, u);
    }
  }

  /** Init and the events, completely: a bad priority leaves them alone; a bad combo event leaves the
      registers but no interrupt; otherwise what was asked for is set up, unit by unit up to the first
      that is refused. */
  lemma InitEvents(r: State, s: Settings)
    requires Sound(r) && s.WellFormed() && SetsClock(s)
    ensures |Init(r, s).1.triggers| == UNITS && EventsAfter(r, s, Init(r, s).0, Init(r, s).1)
  {
    InitIs(r, s);
    QuietKeeps(r, s);
    Lengths(r);
    hide Init, Quiet, Sound, SetsClock, EventsAfter, SetUnitTriggers, SetCombo;
    if !PriorityValid(s.priority) {
      PriorityEvents(r, s, Init(r, s).1);
    } else if s.comboEnabled {
      ComboEvents(r, s, Quiet(r, s), Init(r, s).0, Init(r, s).1);
    } else {
      UnitEvents(r, s, Quiet(r, s), Init(r, s).0, Init(r, s).1);
    }
  }

  lemma ClockRefused(r: State, s: Settings)
    requires Sound(r) && s.WellFormed() && !SetsClock(s)
    ensures |r.triggers| == UNITS
    ensures SameEvents(r, Init(r, s).1)
  {
    hide Sound, TimeRegisters, DateRegisters, TimeValid, DateValid, CheckTime, CheckDate, SetEvents;
    Lengths(r);
    DateTimeRoundTrip(r.(mayLoad := false), s.date, s.time);
  }

  /** What init answers: the first thing that is wrong, in this order. */
  ghost predicate InitAnswers(s: Settings, status: Status)
    requires s.WellFormed()
  {
    if s.comboEnabled && exists i :: 0 <= i < 6 && s.triggers[i] != Off then status == EventConflict
    else if !TimeValid(s.time) then TimeAnswers(s.time, status)
    else if !DateValid(s.date) then DateAnswers(s.date, status)
    else if !(1 <= s.priority <= 7) then status == InvalidPriority
    else if s.comboEnabled then ComboAnswers(ComboValues(s.comboDate, s.comboTime), status)
    else
      var n := FirstRefused(s, 0);
      status == if n == 6 then Ok else UnitError(n)
  }

  lemma InitAnswersSo(r: State, s: Settings)
    requires Sound(r) && s.WellFormed()
    ensures InitAnswers(s, Init(r, s).0)
  {
    ChecksAnswer(s.date, s.time);
    if SetsClock(s) {
      InitIs(r, s);
      ComboMeets(Quiet(r, s), s.comboDate, s.comboTime);
      InitEvents(r, s);
      if FirstRefused(s, 0) < UNITS {
        RangesAre(FirstRefused(s, 0), 0);
      }
      hide Init, Quiet, Sound, UnitsSet, FirstRefused, ComboAnswers, SetCombo, TimeValid, DateValid, SetUnitTriggers;
    } else {
      hide Sound, TimeAnswers, DateAnswers, TimeValid, DateValid, SetEvents, TimeRegisters, DateRegisters;
      Lengths(r);
      DateTimeRoundTrip(r.(mayLoad := false), s.date, s.time);
    }
  }

  // ---- the load register ---------------------------------------------------------------------

  /** What an accepted call outside init tells the chip to load: time and date, the event triggers, or
      the clock divisor. */
  function LoadOf(c: Call): (loads: seq<nat>)
  {
    match c
    case CallTime(_) => [1]
    case CallDate(_) => [1]
    case CallDateTime(_, _) => [1]
    case CallUnit(_, _, _) => [2]
    case CallCombo(_, _) => [2]
    case CallDivisor(_) => [4]
    case CallBehavior(_) => []
    case CallInit(_) => [7]
  }

  /** Every call writes the load register once if it is accepted, with the value for what it set, and not
      at all if it is refused; with the gate closed only init's last write is made. */
  lemma LoadsExact(r: State, c: Call)
    requires Sound(r) && WellFormed(c)
    ensures Step(r, c).loads == r.loads + if Verdict(r, c) == Ok && (r.mayLoad || c.CallInit?) then LoadOf(c) else []
  {
    hide ToBcd, CheckTime, CheckDate, CheckCovered, TimeRegisters, DateRegisters, InRange, Init, Sound;
    Lengths(r);
    if c.CallInit? {
      InitLoadsOnce(r, c.s);
    }
  }

  // ---- refused calls -------------------------------------------------------------------------

  /** What a call answers. */
  function Verdict(r: State, c: Call): (s: Status)
    requires Sound(r) && WellFormed(c)
  {
    match c
    case CallTime(t) => SetTime(r, t).0
    case CallDate(d) => SetDate(r, d).0
    case CallDateTime(d, t) => SetDateTime(r, d, t).0
    case CallDivisor(_) => Ok
    case CallBehavior(p) => SetInterruptBehavior(r, p).0
    case CallUnit(u, t, v) => SetUnitTrigger(r, u, t, v).0
    case CallCombo(d, t) => SetCombo(r, d, t).0
    case CallInit(s) => Init(r, s).0
  }

  /** A refused call leaves everything as it was, with two exceptions: a unit trigger call that meets
      a combo event has cancelled it, and an init whose time and date were valid has set them and
      gone on to the events as far as they were accepted. */
  lemma RefusedExact(r: State, c: Call)
    requires Sound(r) && r.mayLoad && WellFormed(c) && Verdict(r, c) != Ok
    ensures c.CallInit? && SetsClock(c.s) ==>
              var r' := Step(r, c);
              && |r'.values| == UNITS && GetTime(r') == c.s.time && GetDate(r') == c.s.date
              && r'.divisor == c.s.divisor
              && |r.triggers| == |r'.triggers| == UNITS && EventsAfter(r, c.s, Verdict(r, c), r')
    ensures !(c.CallInit? && SetsClock(c.s)) ==> (Step(r, c) == r <==> !(c.CallUnit? && r.combo))
  {
    hide ToBcd, FromBcd, IsBcd, CheckCovered, CheckDate, TimeRegisters, DateRegisters, GetTime, GetDate, DaysIn, Sound;
    Lengths(r);
    match c
    case CallUnit(_, _, _) =>
    case CallInit(s) =>
      RefusedInit(r, s);
      if SetsClock(s) {
        InitEvents(r, s);
      }
    case _ =>
  }

  lemma RefusedInit(r: State, s: Settings)
    requires Sound(r) && r.mayLoad && s.WellFormed() && Init(r, s).0 != Ok
    ensures if SetsClock(s)
            then var r' := Init(r, s).1;
                 |r'.values| == UNITS && GetTime(r') == s.time && GetDate(r') == s.date && r'.divisor == s.divisor
            else Init(r, s).1 == r
  {
    hide ToBcd, FromBcd, SetEvents, CheckTime, CheckDate, TimeRegisters, DateRegisters, TimeValid, DateValid, Sound;
    Lengths(r);
    var gated := r.(mayLoad := false);
    DateTimeRoundTrip(gated, s.date, s.time);
    if SetsClock(s) {
      var quiet := SetDivisor(SetDateTime(gated, s.date, s.time).1, s.divisor).(enabled := {});
      EventsKeepClock(quiet, s);
    }
  }

  lemma EventsKeepClock(r: State, s: Settings)
    requires |r.triggers| == UNITS && s.WellFormed()
    ensures var r' := SetEvents(r, s).1;
            r'.values == r.values && r'.divisor == r.divisor
  {
    UnitsKeepClock(r, s, 0);
  }

  lemma {:induction false} UnitsKeepClock(r: State, s: Settings, unit: nat)
    requires |r.triggers| == UNITS && s.WellFormed() && unit <= UNITS
    ensures var r' := SetUnitTriggers(r, s, unit).1;
            r'.values == r.values && r'.divisor == r.divisor
    decreases UNITS - unit
  {
    if unit < UNITS {
      UnitsKeepClock(SetUnitTrigger(r, unit, s.triggers[unit], s.values[unit]).1, s, unit + 1);
    }
  }

  // ---- how a combo event ends ----------------------------------------------------------------

  /** Calls that cancel the event: registers off, mode left. */
  predicate Cancels(c: Call) {
    match c
    case CallUnit(_, _, _) => true
    case CallInit(s) => SetsClock(s) && PriorityValid(s.priority) && !s.comboEnabled
    case _ => false
  }

  /** Calls that leave the event set up but its interrupt off. */
  predicate Silences(c: Call) {
    match c
    case CallBehavior(p) => PriorityValid(p)
    case CallInit(s) =>
      SetsClock(s) && PriorityValid(s.priority) && s.comboEnabled && !ComboValid(s.comboDate, s.comboTime)
    case _ => false
  }

  predicate Armed(r: State) { r.combo && Combined in r.enabled }

  /** An armed combo event stays armed until it is cancelled or silenced, each by exactly these
      calls; so one that stands in the registers with its interrupt off has met new interrupt settings
      or an init that failed on its own combo event. */
  lemma ComboFate(r: State, c: Call)
    requires Sound(r) && WellFormed(c) && Armed(r)
    ensures !Step(r, c).combo <==> Cancels(c)
    ensures Step(r, c).combo && Combined !in Step(r, c).enabled <==> Silences(c)
    ensures Armed(Step(r, c)) <==> !Cancels(c) && !Silences(c)
  {
    hide ToBcd, IsBcd, CheckCovered, CheckTime, CheckDate, TimeRegisters, IsCombo;
    match c
    case CallUnit(u, t, v) => SetUnitTriggerKeeps(r, u, t, v);
    case CallInit(s) => InitFate(r, s);
    case _ =>
  }

  lemma InitFate(r: State, s: Settings)
    requires Sound(r) && Armed(r) && s.WellFormed()
    ensures !Init(r, s).1.combo <==> Cancels(CallInit(s))
    ensures Init(r, s).1.combo && Combined !in Init(r, s).1.enabled <==> Silences(CallInit(s))
  {
    hide Init, Sound, SetsClock, FirstRefused, ComboRead, LastTwoDigits, Covered, ComboValid, RangeError;
    Lengths(r);
    if SetsClock(s) {
      InitEvents(r, s);
    } else {
      ClockRefused(r, s);
    }
  }

  // ---- how a unit event ends -----------------------------------------------------------------

  /** An init that gets as far as the events. */
  predicate SetsEvents(c: Call) {
    c.CallInit? && SetsClock(c.s) && PriorityValid(c.s.priority)
  }

  /** Calls that take a unit's event down: switched off for the unit, or replaced by a combo event. */
  predicate Ends(c: Call, unit: nat)
    requires WellFormed(c) && unit < UNITS
  {
    match c
    case CallUnit(u, trigger, _) => u == unit && trigger == Off
    case CallCombo(d, t) => ComboValid(d, t)
    case CallInit(s) =>
      SetsEvents(c) && if s.comboEnabled then ComboValid(s.comboDate, s.comboTime)
                       else unit < FirstRefused(s, 0) && s.triggers[unit] == Off
    case _ => false
  }

  /** Calls that leave the unit's register as it is but its interrupt off: new interrupt settings, and
      an init that stops before it has come to the unit or does not know the trigger. */
  predicate Mutes(c: Call, unit: nat)
    requires WellFormed(c) && unit < UNITS
  {
    match c
    case CallBehavior(p) => PriorityValid(p)
    case CallInit(s) =>
      SetsEvents(c) && if s.comboEnabled then !ComboValid(s.comboDate, s.comboTime)
                       else unit >= FirstRefused(s, 0) || s.triggers[unit] == Unknown
    case _ => false
  }

  /** A unit event with its interrupt on keeps it until it is ended or muted, each by exactly these
      calls. */
  lemma UnitFate(r: State, c: Call, unit: nat)
    requires Sound(r) && WellFormed(c) && unit < UNITS && OnUnit(unit) in r.enabled
    ensures |r.triggers| == |Step(r, c).triggers| == UNITS
    ensures OnUnit(unit) in Step(r, c).enabled <==> !Ends(c, unit) && !Mutes(c, unit)
    ensures Mutes(c, unit) ==> Step(r, c).triggers[unit] == r.triggers[unit] && !Step(r, c).combo
    ensures Ends(c, unit) ==> Step(r, c).combo || Step(r, c).triggers[unit] == EVENT_OFF
  {
    UnitsOnly(r, unit);
    Lengths(r);
    hide Sound, ToBcd, CheckCovered, CheckTime, CheckDate, TimeRegisters, DateRegisters, Init, SetUnitTrigger,
      UnitShows;
    match c
    case CallUnit(u, t, v) => UnitTriggerSets(r, u, t, v);
    case CallInit(s) => InitUnitFate(r, s, unit);
    case _ =>
  }

  lemma UnitsOnly(r: State, unit: nat)
    requires Sound(r) && OnUnit(unit) in r.enabled
    ensures !r.combo
  {
  }

  lemma InitUnitFate(r: State, s: Settings, unit: nat)
    requires Sound(r) && s.WellFormed() && unit < UNITS && OnUnit(unit) in r.enabled && !r.combo
    ensures var c, r' := CallInit(s), Init(r, s).1;
            && |r.triggers| == |r'.triggers| == UNITS
            && (OnUnit(unit) in r'.enabled <==> !Ends(c, unit) && !Mutes(c, unit))
            && (Mutes(c, unit) ==> r'.triggers[unit] == r.triggers[unit] && !r'.combo)
            && (Ends(c, unit) ==> r'.combo || r'.triggers[unit] == EVENT_OFF)
  {
    hide Init, Sound, SetsClock, FirstRefused, TriggerRead, ComboRead, LastTwoDigits, Covered, ComboValid, RangeError;
    Lengths(r);
    if SetsClock(s) {
      InitEvents(r, s);
      if PriorityValid(s.priority) && !s.comboEnabled {
        assert if unit < FirstRefused(s, 0) && s.triggers[unit] != Unknown
               then UnitShows(Init(r, s).1, unit, s.triggers[unit], s.values[unit])
               else Untouched(Uncombined(r), Init(r, s).1, unit);
      }
    } else {
      ClockRefused(r, s);
    }
  }

  /** At thirty minutes past every hour. */
  const EVERY_HOUR := CallCombo(Date(255, 255, 255), Time(255, 30, 0))

  lemma ComboExample()
    ensures Sound(RESET) && Armed(Step(RESET, EVERY_HOUR)) && Sound(Step(RESET, EVERY_HOUR))
    ensures COMBO_EVENT in Step(RESET, EVERY_HOUR).triggers
  {
    ResetSound();
    StepKeeps(RESET, EVERY_HOUR);
    var v := ComboValues(Date(255, 255, 255), Time(255, 30, 0));
    assert Covered(v, 2) == 2;
    CheckStep(v, 0);
    CheckStep(v, 1);
    CheckStep(v, 2);
    assert Step(RESET, EVERY_HOUR).triggers[2] == COMBO_EVENT;
  }

  lemma BehaviorKeepsTriggers(r: State, priority: nat)
    requires Sound(r) && Armed(r)
    ensures Step(r, CallBehavior(priority)).triggers == r.triggers
  {
  }

  /** From reset: a combo event, then new interrupt settings, leaves it set up with its interrupt
      off. */
  lemma SilencedExample()
    ensures Sound(RESET) && Sound(Step(RESET, EVERY_HOUR))
    ensures var r := Step(Step(RESET, EVERY_HOUR), CallBehavior(3));
            r.combo && Combined !in r.enabled && COMBO_EVENT in r.triggers
  {
    hide Step;
    ComboExample();
    var r := Step(RESET, EVERY_HOUR);
    ComboFate(r, CallBehavior(3));
    BehaviorKeepsTriggers(r, 3);
  }

  /** So does a unit event: on every change of the seconds, then new interrupt settings. */
  lemma MutedExample()
    ensures Sound(RESET) && Sound(Step(RESET, CallUnit(SECONDS, OnChange, 0)))
    ensures var r := Step(Step(RESET, CallUnit(SECONDS, OnChange, 0)), CallBehavior(3));
            |r.triggers| == UNITS && r.triggers[SECONDS] == EVENT_ON_CHANGE && OnUnit(SECONDS) !in r.enabled
  {
    ResetSound();
    StepKeeps(RESET, CallUnit(SECONDS, OnChange, 0));
    UnitFate(Step(RESET, CallUnit(SECONDS, OnChange, 0)), CallBehavior(3), SECONDS);
  }

  /** From reset: a combo event, then a unit trigger for a unit that does not exist, cancels it. */
  lemma RefusedExample()
    ensures Sound(RESET) && Sound(Step(RESET, EVERY_HOUR))
    ensures var r := Step(RESET, EVERY_HOUR);
            Verdict(r, CallUnit(UNITS, Off, 0)) == InvalidUnit && !Step(r, CallUnit(UNITS, Off, 0)).combo
  {
    ComboExample();
    ComboFate(Step(RESET, EVERY_HOUR), CallUnit(UNITS, Off, 0));
  }
}
