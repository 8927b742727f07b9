/** Pins that nobody owns but that stay reserved: which calls leave such a pin behind. */
module PinLeaks {
  import opened PinManager
  import opened PinClients
  import opened PinCalls

  /** A pin that is brought out, is reserved, and is in no initialised driver's settings. */
  ghost predicate Orphan(b: Board, p: nat) {
    p < PIN_COUNT && !Missing(p) && b.pins[p] != AVAILABLE && forall d :: !Owns(b, d, p)
  }

  ghost predicate NoOrphans(b: Board) {
    forall p: nat :: !Orphan(b, p)
  }

  /** Every initialised driver has a pin. */
  ghost predicate Rooted(b: Board) {
    forall c :: c in b.inited ==> HasPin(b, c)
  }

  ghost predicate HasPin(b: Board, c: Client) {
    exists p: nat :: Owns(b, c, p)
  }

  /** The calls that lose no pin: an init that succeeds for a driver that was not initialised, one that
      fails before it has reserved anything, and every uninit. */
  predicate Thrifty(b: Board, e: Event) {
    match e
    case Initialize(r) =>
      if Init(b, r).0 == Done then Owner(r) !in b.inited else !UartLate(b, r) && !SpiLate(b, r)
    case Uninitialize(_) => true
  }

  // ---- a successful init ---------------------------------------------------------------------

  lemma NamedInTable(b: Board, r: Request)
    requires Init(b, r).0 == Done && !IsDual(r)
    ensures Named(r)[0] < PIN_COUNT
  {
    hide ReserveAll, SpiPinsValid, I2cPinsValid, UartPinsValid, FlowPinsValid, PwmPinValid, AdcPinValid;
    match r
    case SpiInit(_, _, _, _, _, _, _, _, _) => CheckAllExact(b.pins, Named(r));
    case I2cInit(_, _) => CheckAllExact(b.pins, Named(r));
    case UartInit(_, tx, rx, _, _, _, _) => CheckAllExact(b.pins, [tx, rx]);
    case PwmInit(_, _, _) => CheckAllExact(b.pins, Named(r));
    case AdcInit(_, _, _, _) =>
    case GpioInit(_, _) => CheckAllExact(b.pins, Named(r));
  }

  /** Who owns what after pins were granted. */
  lemma GrantedOwns(b: Board, b': Board, c: Client, ps: seq<nat>, d: Client, p: nat)
    requires Granted(b, b', c, ps)
    ensures Owns(b', d, p) <==> if d == c then p < PIN_COUNT && p in ps else Owns(b, d, p)
  {
  }

  lemma GrantedRoots(b: Board, b': Board, c: Client, ps: seq<nat>)
    requires Rooted(b) && Granted(b, b', c, ps) && ps != [] && ps[0] < PIN_COUNT
    ensures Rooted(b')
  {
    forall d | d in b'.inited
      ensures HasPin(b', d)
    {
      if d == c {
        GrantedOwns(b, b', c, ps, c, ps[0]);
      } else {
        var p: nat :| Owns(b, d, p);
        GrantedOwns(b, b', c, ps, d, p);
      }
    }
  }

  /** Granting pins to a driver leaves an orphan behind exactly when the driver had pins before. */
  lemma GrantedExact(b: Board, b': Board, c: Client, ps: seq<nat>)
    requires Sound(b) && NoOrphans(b) && Granted(b, b', c, ps)
    ensures NoOrphans(b') <==> !HasPin(b, c)
  {
    forall p: nat
      ensures Orphan(b', p) <==> Owns(b, c, p)
    {
      GrantedOrphan(b, b', c, ps, p);
    }
  }

  lemma GrantedOrphan(b: Board, b': Board, c: Client, ps: seq<nat>, p: nat)
    requires Sound(b) && NoOrphans(b) && Granted(b, b', c, ps)
    ensures Orphan(b', p) <==> Owns(b, c, p)
  {
    assert !Orphan(b, p);
    if Owns(b, c, p) {
      forall d
        ensures !Owns(b', d, p)
      {
        GrantedOwns(b, b', c, ps, d, p);
      }
    } else if Orphan(b', p) {
      GrantedOwns(b, b', c, ps, c, p);
      assert p !in ps && b'.pins[p] == b.pins[p];
      var d :| Owns(b, d, p);
      GrantedOwns(b, b', c, ps, d, p);
      assert false;
    }
  }

  // ---- every step ----------------------------------------------------------------------------

  lemma FailedInitOrphans(b: Board, r: Request)
    requires Sound(b) && NoOrphans(b) && Init(b, r).0 != Done
    ensures NoOrphans(Init(b, r).1) <==> !UartLate(b, r) && !SpiLate(b, r)
  {
    hide Init, Sound, UartLate, SpiLate;
    FailedInitExact(b, r);
    if Init(b, r).1 != b {
      var p := Leaked(r)[0];
      FailedInitLeaks(b, r, p);
      LeakedNotMissing(b, r, p);
      assert Orphan(Init(b, r).1, p);
    }
  }

  lemma LeakedNotMissing(b: Board, r: Request, p: nat)
    requires UartLate(b, r) || SpiLate(b, r)
    requires p in Leaked(r)
    ensures !Missing(p)
  {
    hide AllFree;
  }

  /** A call of a disciplined program leaves no orphan behind exactly when it is thrifty. */
  lemma StepExact(b: Board, e: Event)
    requires Sound(b) && Tidy(b) && Rooted(b) && NoOrphans(b) && Disciplined(b, e)
    ensures NoOrphans(Step(b, e)) <==> Thrifty(b, e)
  {
    hide Init, Uninit, Sound, Granted, Tidy, Orphan;
    match e
    case Initialize(r) =>
      if Init(b, r).0 == Done {
        InitGrants(b, r);
        GrantedExact(b, Init(b, r).1, Owner(r), Named(r));
      } else {
        FailedInitOrphans(b, r);
      }
    case Uninitialize(c) =>
      forall p: nat
        ensures !Orphan(Uninit(b, c), p)
      {
        UninitLeavesNone(b, c, p);
      }
  }

  lemma UninitLeavesNone(b: Board, c: Client, p: nat)
    requires Sound(b) && Tidy(b) && c in b.inited && !Orphan(b, p)
    ensures !Orphan(Uninit(b, c), p)
  {
    var b' := Uninit(b, c);
    if p < PIN_COUNT {
      ReleaseAllAt(b.pins, Released(b, c), p);
    }
    if p < PIN_COUNT && !Missing(p) && b.pins[p] != AVAILABLE {
      var d :| Owns(b, d, p);
      if d == c {
        assert p in Released(b, c);
      } else {
        assert Owns(b', d, p);
      }
    }
  }

  lemma SettingsRoot(b: Board, b': Board)
    requires Rooted(b) && b'.inited <= b.inited && b'.saved == b.saved
    ensures Rooted(b')
  {
    forall d | d in b'.inited
      ensures HasPin(b', d)
    {
      var p: nat :| Owns(b, d, p);
      assert Owns(b', d, p);
    }
  }

  lemma StepRooted(b: Board, e: Event)
    requires Sound(b) && Tidy(b) && Rooted(b) && Disciplined(b, e)
    ensures Rooted(Step(b, e))
  {
    hide Init, Sound, Granted, Tidy, Rooted;
    match e
    case Initialize(r) =>
      if Init(b, r).0 == Done {
        InitGrants(b, r);
        NamedInTable(b, r);
        GrantedRoots(b, Init(b, r).1, Owner(r), Named(r));
      } else {
        FailedInitPins(b, r, 0);
        SettingsRoot(b, Init(b, r).1);
      }
    case Uninitialize(c) => SettingsRoot(b, Uninit(b, c));
  }

  // ---- runs ----------------------------------------------------------------------------------

  ghost predicate ThriftyRun(b: Board, es: seq<Event>) {
    forall i :: 0 <= i < |es| ==> Thrifty(Run(b, es[..i]), es[i])
  }

  lemma ResetTight()
    ensures Sound(RESET) && Tidy(RESET) && Rooted(RESET) && NoOrphans(RESET)
  {
    ResetSound();
  }

  lemma {:induction false} RunRooted(b: Board, es: seq<Event>)
    requires Sound(b) && Tidy(b) && Rooted(b) && DisciplinedRun(b, es)
    ensures Sound(Run(b, es)) && Tidy(Run(b, es)) && Rooted(Run(b, es))
  {
    hide Sound, Tidy, Rooted, Step, Disciplined, DisciplinedRun;
    RunKeeps(b, es);
    if es != [] {
      var before := es[..|es| - 1];
      DisciplinedBefore(b, es);
      RunRooted(b, before);
      StepRooted(Run(b, before), es[|es| - 1]);
    }
  }

  lemma ThriftyRunNext(b: Board, es: seq<Event>)
    requires es != []
    ensures var before := es[..|es| - 1];
            ThriftyRun(b, es) <==> ThriftyRun(b, before) && Thrifty(Run(b, before), es[|es| - 1])
  {
    hide Thrifty, Run;
    var before := es[..|es| - 1];
    assert forall i :: 0 <= i <= |before| ==> before[..i] == es[..i];
  }

  lemma DisciplinedBefore(b: Board, es: seq<Event>)
    requires es != [] && DisciplinedRun(b, es)
    ensures var before := es[..|es| - 1];
            DisciplinedRun(b, before) && Disciplined(Run(b, before), es[|es| - 1])
  {
    hide Disciplined, Run;
    var before := es[..|es| - 1];
    assert forall i :: 0 <= i <= |before| ==> before[..i] == es[..i];
  }

  lemma {:induction false} RunExact(b: Board, es: seq<Event>)
    requires Sound(b) && Tidy(b) && Rooted(b) && NoOrphans(b) && DisciplinedRun(b, es)
    ensures NoOrphans(Run(b, es)) <==> ThriftyRun(b, es)
  {
    if es != [] {
      hide Sound, Tidy, Rooted, Step, Disciplined, NoOrphans, Thrifty, ThriftyRun, DisciplinedRun;
      var before, e := es[..|es| - 1], es[|es| - 1];
      DisciplinedBefore(b, es);
      ThriftyRunNext(b, es);
      RunExact(b, before);
      RunRooted(b, before);
      if NoOrphans(Run(b, before)) {
        StepExact(Run(b, before), e);
      } else {
        OrphanStays(Run(b, before), e);
      }
    }
  }

  lemma OrphanStays(b: Board, e: Event)
    requires Sound(b) && Tidy(b) && Disciplined(b, e) && !NoOrphans(b)
    ensures !NoOrphans(Step(b, e))
  {
    hide Sound, Tidy, Step, Disciplined, Owns;
    var p: nat :| Orphan(b, p);
    StepKeepsLeak(b, e, p);
    assert Orphan(Step(b, e), p);
  }

  /** Over every disciplined run from reset the reserved pins are exactly the pins of the initialised
      drivers if and only if every call of the run was thrifty: what one call loses never comes back. */
  lemma ReservedIsOwned(es: seq<Event>)
    requires DisciplinedRun(RESET, es)
    ensures (forall p: nat :: p < PIN_COUNT && !Missing(p) ==>
               (Run(RESET, es).pins[p] != AVAILABLE <==> exists d :: Owns(Run(RESET, es), d, p)))
       <==> ThriftyRun(RESET, es)
  {
    var b := Run(RESET, es);
    ResetTight();
    RunExact(RESET, es);
    RunKeeps(RESET, es);
    hide Run, ThriftyRun, DisciplinedRun, Tidy;
    forall p: nat | p < PIN_COUNT && !Missing(p)
      ensures (b.pins[p] != AVAILABLE <==> exists d :: Owns(b, d, p)) <==> !Orphan(b, p)
    {
    }
  }

  /** Two I2C inits after reset, the second with the other pins, both succeed; the first pins stay
      reserved for I2C and belong to nobody. */
  lemma SecondInitExample()
    ensures var b := Run(RESET, [Initialize(I2cInit(21, 20)), Initialize(I2cInit(23, 22))]);
            && b.pins[20] == b.pins[21] == SET_FOR_I2C && Orphan(b, 20) && Orphan(b, 21)
            && Owns(b, I2c, 22) && Owns(b, I2c, 23)
  {
    var r, r' := I2cInit(21, 20), I2cInit(23, 22);
    var b1 := Init(RESET, r).1;
    RunNext(RESET, [], Initialize(r));
    RunNext(RESET, [Initialize(r)], Initialize(r'));
    assert [] + [Initialize(r)] == [Initialize(r)];
    assert [Initialize(r)] + [Initialize(r')] == [Initialize(r), Initialize(r')];
    CheckAllExact(RESET.pins, [21, 20]);
    InitGrants(RESET, r);
    CheckAllExact(b1.pins, [23, 22]);
    InitGrants(b1, r');
    hide Init, Run;
    assert Owns(b1, I2c, 20);
  }
}
