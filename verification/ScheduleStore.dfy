/** Per-user schedules in NVM: one metadata file for each user, read, edited and written back; and
    the map from (user, kind, slot) to schedule that it stands for. */
module ScheduleStore {
  import opened Wrappers
  import opened Ascending

  /** The schedule types; `Other` is any other value a command may carry. */
  datatype Kind = Daily | YearDay | Other

  /** User numbers are sixteen bits wide. */
  type UserId = n: nat | n < 0x1_0000

  /** The packed octets of a schedule. */
  type Image = seq<byte>

  const DAILY_SIZE: nat := 5
  const YEAR_DAY_SIZE: nat := 12

  datatype Slot = Slot(occupied: bool, schedule: Image)

  function Zeros(n: nat): (bs: Image)
    ensures |bs| == n
  {
    seq(n, i => 0)
  }

  function ZeroSchedule(k: Kind): (s: Image)
    ensures |s| == if k == YearDay then 12 else 5
    ensures forall b :: b in s ==> b == 0
  {
    if k == YearDay then Zeros(YEAR_DAY_SIZE) else Zeros(DAILY_SIZE)
  }

  function EmptySlot(k: Kind): (s: Slot) { Slot(false, ZeroSchedule(k)) }

  function EmptySlots(k: Kind, n: nat): (slots: seq<Slot>)
    ensures |slots| == n && forall i :: 0 <= i < n ==> slots[i] == EmptySlot(k)
  {
    seq(n, i => EmptySlot(k))
  }

  /** How many slots of each type a user has. */
  datatype Config = Config(daily: nat, yearDay: nat) {
    function Count(k: Kind): (n: nat) {
      match k { case Daily => daily case YearDay => yearDay case Other => 0 }
    }
  }

  /** One user's file. */
  datatype Metadata = Metadata(uuid: nat, active: bool, yearDay: seq<Slot>, daily: seq<Slot>) {
    function Slots(k: Kind): (slots: seq<Slot>) {
      match k { case Daily => daily case YearDay => yearDay case Other => [] }
    }

    function With(k: Kind, slots: seq<Slot>): (m: Metadata) {
      match k { case Daily => this.(daily := slots) case YearDay => this.(yearDay := slots) case Other => this }
    }
  }

  function Zeroed(c: Config): (m: Metadata)
    ensures m.uuid == 0 && !m.active
  {
    Metadata(0, false, EmptySlots(YearDay, c.yearDay), EmptySlots(Daily, c.daily))
  }

  // ---- the slot cursor -----------------------------------------------------------------------

  /** The least occupied slot above `current`, or 0.  Slots count from one. */
  function NextSlot(slots: seq<Slot>, current: nat): (next: nat)
    decreases |slots| - current
  {
    if current >= |slots| then 0
    else if slots[current].occupied then current + 1
    else NextSlot(slots, current + 1)
  }

  method GetNextSlot(slots: seq<Slot>, current: nat) returns (next: nat)
    ensures next == NextSlot(slots, current)
  {
    var index, occupied := current, false;
    while !occupied && index < |slots|
      invariant current <= index
      invariant NextSlot(slots, current) == if occupied then index else NextSlot(slots, index)
      decreases |slots| - index, !occupied
    {
      if slots[index].occupied {
        occupied := true;
      }
      index := index + 1;
    }
    next := if occupied then index else 0;
  }

  predicate Occupied(slots: seq<Slot>, slot: nat) {
    1 <= slot <= |slots| && slots[slot - 1].occupied
  }

  lemma {:induction false} NextSlotIsLeast(slots: seq<Slot>, current: nat)
    ensures NextSlot(slots, current) == 0 ==> forall s: nat :: s > current ==> !Occupied(slots, s)
    ensures NextSlot(slots, current) != 0 ==>
              && NextSlot(slots, current) > current && Occupied(slots, NextSlot(slots, current))
              && forall s: nat :: current < s < NextSlot(slots, current) ==> !Occupied(slots, s)
    decreases |slots| - current
  {
    if current < |slots| && !slots[current].occupied {
      NextSlotIsLeast(slots, current + 1);
    }
  }

  /** The slots met by following `next_slot` from `current` until it answers 0. */
  function Visited(slots: seq<Slot>, current: nat): (visited: seq<nat>)
    decreases |slots| - current
  {
    NextSlotIsLeast(slots, current);
    var next := NextSlot(slots, current);
    if next == 0 then [] else [next] + Visited(slots, next)
  }

  lemma AscendsCons(x: nat, rest: seq<nat>)
    requires Ascends(rest) && forall s :: s in rest ==> x < s
    ensures Ascends([x] + rest)
  {
    assert forall i :: 0 <= i < |rest| ==> rest[i] in rest;
  }

  lemma {:induction false} VisitedAscends(slots: seq<Slot>, current: nat)
    ensures Ascends(Visited(slots, current))
    ensures forall s: nat :: s in Visited(slots, current) <==> s > current && Occupied(slots, s)
    decreases |slots| - current
  {
    NextSlotIsLeast(slots, current);
    var next := NextSlot(slots, current);
    if next != 0 {
      VisitedAscends(slots, next);
      AscendsCons(next, Visited(slots, next));
      forall s: nat
        ensures s in Visited(slots, current) <==> s > current && Occupied(slots, s)
      {
        assert s in Visited(slots, current) <==> s == next || s in Visited(slots, next);
      }
    }
  }

  /** From slot 0 the cursor visits exactly the occupied slots, each once, in increasing order. */
  lemma CursorEnumerates(slots: seq<Slot>)
    ensures Visited(slots, 0) == Sorted(set s | 1 <= s <= |slots| && Occupied(slots, s))
  {
    VisitedAscends(slots, 0);
    SortedUnique(Visited(slots, 0), Sorted(set s | 1 <= s <= |slots| && Occupied(slots, s)));
  }

  // ---- the store and its operations ----------------------------------------------------------

  /** `nvm` holds the file of each user number under the number less one; `users` are the users in the
      credential database. */
  datatype Store = Store(config: Config, nvm: map<nat, Metadata>, users: set<UserId>)

  /** A user number as a file offset: 16 bits wide, so user 0 takes the last offset. */
  function File(user: UserId): (key: nat)
    ensures key == if user == 0 then 0xFFFF else user - 1
  {
    (user + 0xFFFF) % 0x1_0000
  }

  predicate Readable(s: Store, user: UserId) {
    File(user) in s.nvm
  }

  /** What a read of a user's file gives. */
  function Stored(s: Store, user: UserId): (m: Option<Metadata>)
  {
    if Readable(s, user) then Some(s.nvm[File(user)]) else None
  }

  function Write(s: Store, user: UserId, m: Metadata): (s': Store)
  {
    s.(nvm := s.nvm[File(user) := m])
  }

  lemma FileInjective(u: UserId, v: UserId)
    requires File(u) == File(v)
    ensures u == v
  {
    assert u == 0 || File(u) == u - 1;
    assert v == 0 || File(v) == v - 1;
  }

  /** What was written for a user is read back, and no other user's file changes. */
  lemma WriteRead(s: Store, user: UserId, m: Metadata, other: UserId)
    ensures Stored(Write(s, user, m), other) == if other == user then Some(m) else Stored(s, other)
  {
    if other != user && File(other) == File(user) {
      FileInjective(other, user);
    }
  }

  /** Zeros in the first `n` files. */
  function Reset(s: Store, n: nat): (s': Store)
  {
    if n == 0 then s else Reset(s, n - 1).(nvm := Reset(s, n - 1).nvm[n - 1 := Zeroed(s.config)])
  }

  datatype Result = Success(next: nat) | Fail | Working

  function Cleared(m: Metadata, k: Kind, c: Config): (m': Metadata)
  {
    m.With(k, EmptySlots(k, c.Count(k)))
  }

  /** Erase all of a user's schedules of one type.  For a user that does not exist nothing is read
      and zeros are written: both types and the state go. */
  function EraseAll(s: Store, user: UserId, k: Kind): (s': Store)
  {
    Write(s, user, if user in s.users && Readable(s, user) then Cleared(s.nvm[File(user)], k, s.config)
                   else Zeroed(s.config))
  }

  function EraseSlot(s: Store, user: UserId, k: Kind, slot: nat): (s': Store)
    requires Readable(s, user) && k != Other ==> 1 <= slot <= |s.nvm[File(user)].Slots(k)|
  {
    if user !in s.users || !Readable(s, user) || k == Other then s
    else
      var m := s.nvm[File(user)];
      Write(s, user, m.With(k, m.Slots(k)[slot - 1 := EmptySlot(k)]))
  }

  /** The user need not exist; an unknown type only switches scheduling on. */
  function Modify(s: Store, user: UserId, k: Kind, slot: nat, image: Image): (s': Store)
    requires Readable(s, user) && k != Other ==> 1 <= slot <= |s.nvm[File(user)].Slots(k)|
  {
    if !Readable(s, user) then s
    else
      var m := s.nvm[File(user)];
      Write(s, user,
            (if k == Other then m else m.With(k, m.Slots(k)[slot - 1 := Slot(true, image)])).(active := true))
  }

  function SetState(s: Store, user: UserId, state: bool): (s': Store)
  {
    if user !in s.users || !Readable(s, user) then s
    else Write(s, user, s.nvm[File(user)].(active := state))
  }

  /** What deleting a user from the credential database does to the schedules. */
  function UserDeleted(s: Store, user: UserId): (s': Store)
  {
    if !Readable(s, user) then s
    else
      var m := s.nvm[File(user)].(active := false, uuid := 0);
      Write(s, user, Cleared(Cleared(m, YearDay, s.config), Daily, s.config))
  }

  /** What a get answers; `OutOfBounds` is the read at index -1 that slot 0 leads to when no slot is
      occupied. */
  datatype Answer = Found(schedule: Image, next: nat) | InvalidGet | ReadFailed | OutOfBounds

  function Get(s: Store, user: UserId, k: Kind, slot: nat): (a: Answer)
    requires Readable(s, user) ==> |s.nvm[File(user)].Slots(k)| == s.config.Count(k)
  {
    if slot > s.config.Count(k) || user !in s.users then InvalidGet
    else if !Readable(s, user) then ReadFailed
    else
      var slots := s.nvm[File(user)].Slots(k);
      var at := if slot == 0 then NextSlot(slots, 0) else slot;
      if k == Other then InvalidGet
      else if at == 0 then OutOfBounds
      else
        NextSlotIsLeast(slots, 0);
        Found(slots[at - 1].schedule, NextSlot(slots, at))
  }

  // ---- what every operation keeps ------------------------------------------------------------

  /** The configured slots, an unoccupied one being all zeros. */
  predicate Shaped(m: Metadata, c: Config) {
    && |m.daily| == c.daily && |m.yearDay| == c.yearDay
    && (forall i :: 0 <= i < |m.daily| && !m.daily[i].occupied ==> m.daily[i] == EmptySlot(Daily))
    && (forall i :: 0 <= i < |m.yearDay| && !m.yearDay[i].occupied ==> m.yearDay[i] == EmptySlot(YearDay))
  }

  predicate Good(s: Store) {
    forall key :: key in s.nvm ==> Shaped(s.nvm[key], s.config)
  }

  datatype Op =
    | OpModify(user: UserId, kind: Kind, slot: nat, image: Image)
    | OpEraseSlot(user: UserId, kind: Kind, slot: nat)
    | OpEraseAll(user: UserId, kind: Kind)
    | OpSetState(user: UserId, state: bool)
    | OpUserDeleted(user: UserId)
    | OpUserAdded(user: UserId)

  /** The inputs the operations take for granted: a slot that is valid for its type. */
  predicate Clean(c: Config, op: Op) {
    match op
    case OpModify(_, k, slot, _) => k != Other ==> 1 <= slot <= c.Count(k)
    case OpEraseSlot(_, k, slot) => k != Other ==> 1 <= slot <= c.Count(k)
    case _ => true
  }

  function Apply(s: Store, op: Op): (s': Store)
    requires Good(s) && Clean(s.config, op)
  {
    match op
    case OpModify(u, k, slot, image) => Modify(s, u, k, slot, image)
    case OpEraseSlot(u, k, slot) => EraseSlot(s, u, k, slot)
    case OpEraseAll(u, k) => EraseAll(s, u, k)
    case OpSetState(u, state) => SetState(s, u, state)
    case OpUserDeleted(u) => UserDeleted(s, u).(users := s.users - {u})
    case OpUserAdded(u) => s.(users := s.users + {u})
  }

  lemma WriteKeeps(s: Store, user: UserId, m: Metadata)
    requires Good(s) && Shaped(m, s.config)
    ensures Good(Write(s, user, m))
  {
    hide Shaped;
  }

  lemma EditShaped(m: Metadata, c: Config, k: Kind, slot: nat, value: Slot)
    requires Shaped(m, c) && 1 <= slot <= |m.Slots(k)| && (!value.occupied ==> value == EmptySlot(k))
    ensures Shaped(m.With(k, m.Slots(k)[slot - 1 := value]), c)
  {
  }

  lemma ClearedShaped(m: Metadata, c: Config, k: Kind)
    requires Shaped(m, c)
    ensures Shaped(Cleared(m, k, c), c)
  {
  }

  lemma ZeroedShaped(c: Config)
    ensures Shaped(Zeroed(c), c)
  {
  }

  lemma SwitchShaped(m: Metadata, c: Config, active: bool, uuid: nat)
    requires Shaped(m, c)
    ensures Shaped(m.(active := active), c) && Shaped(m.(active := active, uuid := uuid), c)
  {
  }

  lemma GoodFile(s: Store, user: UserId)
    requires Good(s) && Readable(s, user)
    ensures Shaped(s.nvm[File(user)], s.config)
    ensures forall k: Kind :: |s.nvm[File(user)].Slots(k)| == s.config.Count(k)
  {
  }

  lemma ApplyKeeps(s: Store, op: Op)
    requires Good(s) && Clean(s.config, op)
    ensures Good(Apply(s, op)) && Apply(s, op).config == s.config
  {
    hide Shaped, EmptySlot, Zeroed, Cleared, Good;
    ZeroedShaped(s.config);
    match op
    case OpModify(u, k, slot, image) =>
      if Readable(s, u) {
        var m := s.nvm[File(u)];
        GoodFile(s, u);
        SwitchShaped(m, s.config, true, 0);
        if k != Other {
          EditShaped(m, s.config, k, slot, Slot(true, image));
          SwitchShaped(m.With(k, m.Slots(k)[slot - 1 := Slot(true, image)]), s.config, true, 0);
        }
        WriteKeeps(s, u, Modify(s, u, k, slot, image).nvm[File(u)]);
      }
    case OpEraseSlot(u, k, slot) =>
      if u in s.users && Readable(s, u) && k != Other {
        GoodFile(s, u);
        EditShaped(s.nvm[File(u)], s.config, k, slot, EmptySlot(k));
        WriteKeeps(s, u, EraseSlot(s, u, k, slot).nvm[File(u)]);
      }
    case OpEraseAll(u, k) =>
      if Readable(s, u) {
        GoodFile(s, u);
        ClearedShaped(s.nvm[File(u)], s.config, k);
      }
      WriteKeeps(s, u, EraseAll(s, u, k).nvm[File(u)]);
    case OpSetState(u, state) =>
      if Readable(s, u) {
        GoodFile(s, u);
        SwitchShaped(s.nvm[File(u)], s.config, state, 0);
        WriteKeeps(s, u, s.nvm[File(u)].(active := state));
      }
    case OpUserDeleted(u) =>
      DeletedKeeps(s, u);
      UsersApart(UserDeleted(s, u), s.users - {u});
    case OpUserAdded(u) => UsersApart(s, s.users + {u});
  }

  lemma DeletedKeeps(s: Store, user: UserId)
    requires Good(s)
    ensures Good(UserDeleted(s, user)) && UserDeleted(s, user).config == s.config
  {
    hide Shaped, Cleared, Good;
    if Readable(s, user) {
      var m := s.nvm[File(user)];
      GoodFile(s, user);
      SwitchShaped(m, s.config, false, 0);
      ClearedShaped(m.(active := false, uuid := 0), s.config, YearDay);
      ClearedShaped(Cleared(m.(active := false, uuid := 0), YearDay, s.config), s.config, Daily);
      WriteKeeps(s, user, UserDeleted(s, user).nvm[File(user)]);
    }
  }

  lemma UsersApart(s: Store, users: set<UserId>)
    requires Good(s)
    ensures Good(s.(users := users))
  {
  }

  // ---- the map the files stand for -----------------------------------------------------------

  /** The schedule stored for a user, type and slot, if there is one. */
  function Lookup(s: Store, user: UserId, k: Kind, slot: nat): (v: Option<Image>)
  {
    match Stored(s, user)
    case Some(m) => Entry(m, k, slot)
    case None => None
  }

  function Entry(m: Metadata, k: Kind, slot: nat): (v: Option<Image>)
  {
    if Occupied(m.Slots(k), slot) then Some(m.Slots(k)[slot - 1].schedule) else None
  }

  function Active(s: Store, user: UserId): (a: bool)
  {
    Stored(s, user).Some? && Stored(s, user).value.active
  }

  /** The same operation on a map from (user, type, slot) to schedule. */
  function Effect(op: Op, users: set<UserId>, stored: bool, before: Option<Image>,
                  user: UserId, k: Kind, slot: nat): (after: Option<Image>)
  {
    match op
    case OpModify(u, k', slot', image) =>
      if u == user && k' == k && slot' == slot && stored && k != Other then Some(image) else before
    case OpEraseSlot(u, k', slot') => if u == user && k' == k && slot' == slot && u in users then None else before
    case OpEraseAll(u, k') => if u == user && (k' == k || u !in users) then None else before
    case OpSetState(_, _) => before
    case OpUserDeleted(u) => if u == user then None else before
    case OpUserAdded(_) => before
  }

  function StateEffect(op: Op, users: set<UserId>, stored: bool, before: bool, user: UserId): (after: bool)
  {
    match op
    case OpModify(u, _, _, _) => if u == user then stored else before
    case OpEraseSlot(_, _, _) => before
    case OpEraseAll(u, _) => if u == user && u !in users then false else before
    case OpSetState(u, state) => if u == user && u in users && stored then state else before
    case OpUserDeleted(u) => if u == user then false else before
    case OpUserAdded(_) => before
  }

  /** Whether a user has a file: erasing all schedules of a user makes one. */
  function FileEffect(op: Op, before: bool, user: UserId): (after: bool)
  {
    before || (op.OpEraseAll? && op.user == user)
  }

  lemma EntryAfterEdit(m: Metadata, k': Kind, slot': nat, value: Slot, k: Kind, slot: nat)
    requires k' != Other && 1 <= slot' <= |m.Slots(k')|
    ensures Entry(m.With(k', m.Slots(k')[slot' - 1 := value]), k, slot)
         == if k' == k && slot' == slot then (if value.occupied then Some(value.schedule) else None)
            else Entry(m, k, slot)
  {
  }

  lemma EntryAfterClear(m: Metadata, k': Kind, c: Config, k: Kind, slot: nat)
    ensures Entry(Cleared(m, k', c), k, slot) == if k' == k then None else Entry(m, k, slot)
  {
  }

  lemma EntryAfterSwitch(m: Metadata, active: bool, uuid: nat, k: Kind, slot: nat)
    ensures Entry(m.(active := active), k, slot) == Entry(m, k, slot)
    ensures Entry(m.(active := active, uuid := uuid), k, slot) == Entry(m, k, slot)
  {
  }

  lemma EntryOfZeros(c: Config, k: Kind, slot: nat)
    ensures Entry(Zeroed(c), k, slot) == None && !Zeroed(c).active
  {
  }

  /** Each operation has exactly the effect of its map counterpart, on the schedule it names and on
      every other user, type and slot. */
  lemma ApplyRefines(s: Store, op: Op, user: UserId, k: Kind, slot: nat)
    requires Good(s) && Clean(s.config, op)
    ensures Lookup(Apply(s, op), user, k, slot)
         == Effect(op, s.users, Readable(s, user), Lookup(s, user, k, slot), user, k, slot)
    ensures Active(Apply(s, op), user) == StateEffect(op, s.users, Readable(s, user), Active(s, user), user)
    ensures Readable(Apply(s, op), user) == FileEffect(op, Readable(s, user), user)
  {
    hide Good, Entry, Cleared, Zeroed, EmptySlot;
    match op
    case OpModify(u, k', slot', image) => ModifyRefines(s, u, k', slot', image, user, k, slot);
    case OpEraseSlot(u, k', slot') => EraseSlotRefines(s, u, k', slot', user, k, slot);
    case OpEraseAll(u, k') => EraseAllRefines(s, u, k', user, k, slot);
    case OpSetState(u, state) =>
      if Readable(s, u) {
        WriteRead(s, u, s.nvm[File(u)].(active := state), user);
        EntryAfterSwitch(s.nvm[File(u)], state, 0, k, slot);
      }
    case OpUserDeleted(u) => DeletedRefines(s, u, user, k, slot);
    case OpUserAdded(u) =>
  }

  lemma ModifyRefines(s: Store, u: UserId, k': Kind, slot': nat, image: Image, user: UserId, k: Kind, slot: nat)
    requires Good(s) && (k' != Other ==> 1 <= slot' <= s.config.Count(k'))
    ensures var op, s' := OpModify(u, k', slot', image), Apply(s, OpModify(u, k', slot', image));
            && Lookup(s', user, k, slot)
               == Effect(op, s.users, Readable(s, user), Lookup(s, user, k, slot), user, k, slot)
            && Active(s', user) == StateEffect(op, s.users, Readable(s, user), Active(s, user), user)
            && Readable(s', user) == Readable(s, user)
  {
    hide Good, Entry;
    if Readable(s, u) {
      GoodFile(s, u);
      var m := s.nvm[File(u)];
      var m' := if k' == Other then m else m.With(k', m.Slots(k')[slot' - 1 := Slot(true, image)]);
      WriteRead(s, u, m'.(active := true), user);
      EntryAfterSwitch(m', true, 0, k, slot);
      if k' != Other {
        EntryAfterEdit(m, k', slot', Slot(true, image), k, slot);
      }
    }
  }

  lemma EraseSlotRefines(s: Store, u: UserId, k': Kind, slot': nat, user: UserId, k: Kind, slot: nat)
    requires Good(s) && (k' != Other ==> 1 <= slot' <= s.config.Count(k'))
    ensures var op, s' := OpEraseSlot(u, k', slot'), Apply(s, OpEraseSlot(u, k', slot'));
            && Lookup(s', user, k, slot)
               == Effect(op, s.users, Readable(s, user), Lookup(s, user, k, slot), user, k, slot)
            && Active(s', user) == Active(s, user) && Readable(s', user) == Readable(s, user)
  {
    hide Good, Entry, EmptySlot;
    if u in s.users && Readable(s, u) && k' != Other {
      GoodFile(s, u);
      var m := s.nvm[File(u)];
      WriteRead(s, u, m.With(k', m.Slots(k')[slot' - 1 := EmptySlot(k')]), user);
      EntryAfterEdit(m, k', slot', EmptySlot(k'), k, slot);
      EmptyIsFree(k');
    } else if k' == Other {
      NoOtherEntries(s, user, slot);
    }
  }

  lemma EmptyIsFree(k: Kind)
    ensures !EmptySlot(k).occupied
  {
  }

  lemma NoOtherEntries(s: Store, user: UserId, slot: nat)
    ensures Lookup(s, user, Other, slot) == None
  {
  }

  lemma EraseAllRefines(s: Store, u: UserId, k': Kind, user: UserId, k: Kind, slot: nat)
    requires Good(s)
    ensures var op, s' := OpEraseAll(u, k'), EraseAll(s, u, k');
            && Lookup(s', user, k, slot)
               == Effect(op, s.users, Readable(s, user), Lookup(s, user, k, slot), user, k, slot)
            && Active(s', user) == StateEffect(op, s.users, Readable(s, user), Active(s, user), user)
            && Readable(s', user) == FileEffect(op, Readable(s, user), user)
  {
    EntryOfZeros(s.config, k, slot);
    hide Good, Entry, Zeroed;
    if u in s.users && Readable(s, u) {
      WriteRead(s, u, Cleared(s.nvm[File(u)], k', s.config), user);
      EntryAfterClear(s.nvm[File(u)], k', s.config, k, slot);
    } else {
      WriteRead(s, u, Zeroed(s.config), user);
    }
  }

  lemma DeletedRefines(s: Store, u: UserId, user: UserId, k: Kind, slot: nat)
    requires Good(s)
    ensures var op, s' := OpUserDeleted(u), Apply(s, OpUserDeleted(u));
            && Lookup(s', user, k, slot)
               == Effect(op, s.users, Readable(s, user), Lookup(s, user, k, slot), user, k, slot)
            && Active(s', user) == StateEffect(op, s.users, Readable(s, user), Active(s, user), user)
            && Readable(s', user) == Readable(s, user)
  {
    if Readable(s, u) {
      var m := s.nvm[File(u)].(active := false, uuid := 0);
      var m' := Cleared(m, YearDay, s.config);
      WriteRead(s, u, Cleared(m', Daily, s.config), user);
      EntryAfterClear(m', Daily, s.config, k, slot);
      EntryAfterClear(m, YearDay, s.config, k, slot);
      hide Entry;
      if k == Other {
        NoOtherEntries(s, user, slot);
        NoOtherEntries(Apply(s, OpUserDeleted(u)), user, slot);
      }
    }
  }

  // ---- runs ----------------------------------------------------------------------------------

  predicate AllClean(c: Config, ops: seq<Op>) {
    forall i :: 0 <= i < |ops| ==> Clean(c, ops[i])
  }

  function Run(s: Store, ops: seq<Op>): (s': Store)
    requires Good(s) && AllClean(s.config, ops)
    ensures Good(s') && s'.config == s.config
  {
    if ops == [] then s
    else
      ApplyKeeps(Run(s, ops[..|ops| - 1]), ops[|ops| - 1]);
      Apply(Run(s, ops[..|ops| - 1]), ops[|ops| - 1])
  }

  /** The map's answer: the operations' effects on one (user, type, slot), and nothing else. */
  function Expected(s: Store, ops: seq<Op>, user: UserId, k: Kind, slot: nat): (v: Option<Image>)
    requires Good(s) && AllClean(s.config, ops)
  {
    if ops == [] then Lookup(s, user, k, slot)
    else
      var before := ops[..|ops| - 1];
      Effect(ops[|ops| - 1], Run(s, before).users, ExpectedFile(s, before, user),
             Expected(s, before, user, k, slot), user, k, slot)
  }

  function ExpectedState(s: Store, ops: seq<Op>, user: UserId): (a: bool)
    requires Good(s) && AllClean(s.config, ops)
  {
    if ops == [] then Active(s, user)
    else
      var before := ops[..|ops| - 1];
      StateEffect(ops[|ops| - 1], Run(s, before).users, ExpectedFile(s, before, user),
                  ExpectedState(s, before, user), user)
  }

  function ExpectedFile(s: Store, ops: seq<Op>, user: UserId): (there: bool)
    requires Good(s) && AllClean(s.config, ops)
  {
    if ops == [] then Readable(s, user)
    else FileEffect(ops[|ops| - 1], ExpectedFile(s, ops[..|ops| - 1], user), user)
  }

  /** Over every run the files stand for that map, and for the state switch of every user. */
  lemma {:induction false} RunRefines(s: Store, ops: seq<Op>, user: UserId, k: Kind, slot: nat)
    requires Good(s) && AllClean(s.config, ops)
    ensures Lookup(Run(s, ops), user, k, slot) == Expected(s, ops, user, k, slot)
    ensures Active(Run(s, ops), user) == ExpectedState(s, ops, user)
    ensures Readable(Run(s, ops), user) == ExpectedFile(s, ops, user)
  {
    if ops != [] {
      hide Good, Apply, Lookup, Active, Readable, Effect, StateEffect, FileEffect;
      var before := ops[..|ops| - 1];
      RunRefines(s, before, user, k, slot);
      ApplyRefines(Run(s, before), ops[|ops| - 1], user, k, slot);
    }
  }

  /** Whether an operation may change the schedule of a user, type and slot, given the users there
      are. */
  predicate Touches(op: Op, users: set<UserId>, user: UserId, k: Kind, slot: nat) {
    match op
    case OpModify(u, k', slot', _) => u == user && k' == k && slot' == slot
    case OpEraseSlot(u, k', slot') => u == user && k' == k && slot' == slot && u in users
    case OpEraseAll(u, k') => u == user && (k' == k || u !in users)
    case OpUserDeleted(u) => u == user
    case _ => false
  }

  /** No operation from the `i`-th on touches it. */
  ghost predicate UntouchedFrom(s: Store, ops: seq<Op>, i: nat, user: UserId, k: Kind, slot: nat)
    requires Good(s) && AllClean(s.config, ops)
  {
    forall j :: i <= j < |ops| ==> !Touches(ops[j], Run(s, ops[..j]).users, user, k, slot)
  }

  lemma {:induction false} UntouchedStays(s: Store, ops: seq<Op>, i: nat, user: UserId, k: Kind, slot: nat)
    requires Good(s) && AllClean(s.config, ops) && i <= |ops| && UntouchedFrom(s, ops, i, user, k, slot)
    ensures Expected(s, ops, user, k, slot) == Expected(s, ops[..i], user, k, slot)
  {
    if i < |ops| {
      hide Good, Run, Clean, ExpectedFile;
      var before := ops[..|ops| - 1];
      assert forall j :: 0 <= j <= |before| ==> before[..j] == ops[..j];
      assert !Touches(ops[|before|], Run(s, ops[..|before|]).users, user, k, slot);
      UntouchedStays(s, before, i, user, k, slot);
    } else {
      assert ops[..i] == ops;
    }
  }

  /** A schedule written and not touched again is the one that is stored. */
  lemma LastWriteWins(s: Store, ops: seq<Op>, i: nat, user: UserId, k: Kind, slot: nat, image: Image)
    requires Good(s) && AllClean(s.config, ops) && i < |ops|
    requires ops[i] == OpModify(user, k, slot, image) && k != Other && Readable(Run(s, ops[..i]), user)
    requires UntouchedFrom(s, ops, i + 1, user, k, slot)
    ensures Lookup(Run(s, ops), user, k, slot) == Some(image)
  {
    hide Run, Lookup, Readable, Good, Clean, UntouchedFrom;
    RunRefines(s, ops, user, k, slot);
    RunRefines(s, ops[..i], user, k, slot);
    UntouchedStays(s, ops, i + 1, user, k, slot);
    assert ops[..i + 1][..i] == ops[..i];
  }

  /** Erasing all schedules of one type leaves a schedule of the other type alone exactly if the user
      exists or there was none. */
  lemma EraseAllSparesExactly(s: Store, user: UserId, k: Kind, other: Kind, slot: nat)
    requires Good(s) && other != k
    ensures Lookup(EraseAll(s, user, k), user, other, slot) == Lookup(s, user, other, slot)
       <==> user in s.users || Lookup(s, user, other, slot) == None
  {
    hide Lookup, EraseAll;
    ApplyRefines(s, OpEraseAll(user, k), user, other, slot);
  }

  /** A modify takes effect exactly for a user that has a file, whether or not the user exists. */
  lemma ModifyAnyoneExactly(s: Store, user: UserId, k: Kind, slot: nat, image: Image)
    requires Good(s) && k != Other && 1 <= slot <= s.config.Count(k)
    ensures Lookup(Modify(s, user, k, slot, image), user, k, slot) == Some(image)
       <==> Readable(s, user) || Lookup(s, user, k, slot) == Some(image)
  {
    hide Lookup, Modify, Readable;
    ApplyRefines(s, OpModify(user, k, slot, image), user, k, slot);
  }

  /** What a get of a valid slot answers: the stored schedule or zeros, and the least occupied slot
      above it. */
  lemma GetFinds(s: Store, user: UserId, k: Kind, slot: nat)
    requires Good(s) && Readable(s, user) && user in s.users && 1 <= slot <= s.config.Count(k)
    ensures Get(s, user, k, slot).Found?
    ensures Get(s, user, k, slot).schedule
         == match Lookup(s, user, k, slot) { case Some(image) => image case None => ZeroSchedule(k) }
    ensures var next := Get(s, user, k, slot).next;
            && (next == 0 ==> forall t: nat :: t > slot ==> Lookup(s, user, k, t) == None)
            && (next != 0 ==>
                  && next > slot && Lookup(s, user, k, next).Some?
                  && forall t: nat :: slot < t < next ==> Lookup(s, user, k, t) == None)
  {
    NextSlotIsLeast(s.nvm[File(user)].Slots(k), slot);
  }

  /** A get of slot 0 answers for the first occupied slot, and reads outside the array exactly when
      the user has no schedule of that type. */
  lemma GetFirstExact(s: Store, user: UserId, k: Kind)
    requires Good(s) && Readable(s, user) && user in s.users && k != Other
    ensures Get(s, user, k, 0) == OutOfBounds <==> forall t: nat :: Lookup(s, user, k, t) == None
    ensures Get(s, user, k, 0) != OutOfBounds ==>
              exists t: nat :: Lookup(s, user, k, t).Some? && Get(s, user, k, 0) == Get(s, user, k, t)
                && forall u: nat :: u < t ==> Lookup(s, user, k, u) == None
  {
    var slots := s.nvm[File(user)].Slots(k);
    NextSlotIsLeast(slots, 0);
    var t := NextSlot(slots, 0);
    if t != 0 {
      assert Lookup(s, user, k, t).Some? && Get(s, user, k, 0) == Get(s, user, k, t);
    }
  }

  // ---- reset ---------------------------------------------------------------------------------

  lemma {:induction false} ResetFiles(s: Store, n: nat)
    ensures Reset(s, n).config == s.config && Reset(s, n).users == s.users
    ensures forall key: nat :: key in Reset(s, n).nvm <==> key < n || key in s.nvm
    ensures forall key :: key in Reset(s, n).nvm ==>
              Reset(s, n).nvm[key] == if key < n then Zeroed(s.config) else s.nvm[key]
  {
    if n > 0 {
      ResetFiles(s, n - 1);
    }
  }

  /** There is no file of a user from the `n`th on. */
  predicate NoFileFrom(s: Store, n: nat) { forall key :: key in s.nvm ==> key < n }

  /** The first `n` users have no schedule and scheduling is off for them. */
  ghost predicate EmptyBelow(s: Store, n: nat) {
    forall u: UserId, k: Kind, slot: nat :: File(u) < n ==> NothingFor(s, u, k, slot)
  }

  predicate NothingFor(s: Store, user: UserId, k: Kind, slot: nat) {
    Lookup(s, user, k, slot) == None && !Active(s, user)
  }

  /** A reset keeps every file in shape, and brings it into shape if it covers all the files there
      are. */
  lemma ResetGood(s: Store, n: nat)
    requires Good(s) || NoFileFrom(s, n)
    ensures Good(Reset(s, n))
  {
    ResetFiles(s, n);
    ZeroedShaped(s.config);
    hide Reset, Zeroed;
  }

  lemma ResetIsEmpty(s: Store, n: nat, user: UserId, k: Kind, slot: nat)
    requires File(user) < n
    ensures Readable(Reset(s, n), user) && Lookup(Reset(s, n), user, k, slot) == None
    ensures !Active(Reset(s, n), user)
  {
    ResetFiles(s, n);
    EntryOfZeros(s.config, k, slot);
    hide Reset, Zeroed;
  }

  lemma ResetLeavesNothing(s: Store, n: nat, user: UserId, k: Kind, slot: nat)
    requires File(user) < n
    ensures NothingFor(Reset(s, n), user, k, slot)
  {
    ResetIsEmpty(s, n, user, k, slot);
  }

  lemma ResetMeets(s: Store, n: nat)
    ensures Good(s) || NoFileFrom(s, n) ==> Good(Reset(s, n))
    ensures EmptyBelow(Reset(s, n), n)
  {
    hide Good, NoFileFrom, Reset, NothingFor;
    if Good(s) || NoFileFrom(s, n) {
      ResetGood(s, n);
    }
    forall u: UserId, k: Kind, slot: nat | File(u) < n
      ensures NothingFor(Reset(s, n), u, k, slot)
    {
      ResetLeavesNothing(s, n, u, k, slot);
    }
  }

  // ---- stores that show the exceptions -------------------------------------------------------

  const SMALL := Store(Config(2, 2), map[], {})

  /** One user, one file of zeros. */
  function OneUser(): (s: Store)
    ensures Good(s) && Readable(s, 1) && s.config == SMALL.config && s.users == {1}
  {
    ResetGood(SMALL, 1);
    ResetFiles(SMALL, 1);
    UsersApart(Reset(SMALL, 1), {1});
    Reset(SMALL, 1).(users := {1})
  }

  /** After a reset a get of slot 0 reads outside the array. */
  lemma GetFirstExample()
    ensures Get(OneUser(), 1, Daily, 0) == OutOfBounds
  {
    forall t: nat
      ensures Lookup(OneUser(), 1, Daily, t) == None
    {
      ResetIsEmpty(SMALL, 1, 1, Daily, t);
    }
    hide OneUser, Get;
    GetFirstExact(OneUser(), 1, Daily);
  }

  /** A daily schedule is modified for a user that does not exist; erasing that user's year day
      schedules takes it along. */
  lemma EraseAllExample(image: Image)
    ensures var s := Modify(OneUser().(users := {}), 1, Daily, 1, image);
            Lookup(s, 1, Daily, 1) == Some(image) && Lookup(EraseAll(s, 1, YearDay), 1, Daily, 1) == None
  {
    var s0 := OneUser().(users := {});
    UsersApart(OneUser(), {});
    hide OneUser, Lookup, Modify, EraseAll;
    ApplyKeeps(s0, OpModify(1, Daily, 1, image));
    ModifyAnyoneExactly(s0, 1, Daily, 1, image);
    var s := Modify(s0, 1, Daily, 1, image);
    ModifyKeepsUsers(s0, 1, Daily, 1, image);
    EraseAllSparesExactly(s, 1, YearDay, Daily, 1);
    ApplyRefines(s, OpEraseAll(1, YearDay), 1, Daily, 1);
  }

  lemma ModifyKeepsUsers(s: Store, user: UserId, k: Kind, slot: nat, image: Image)
    requires Readable(s, user) && k != Other ==> 1 <= slot <= |s.nvm[File(user)].Slots(k)|
    ensures Modify(s, user, k, slot, image).users == s.users
  {
  }

  // ---- the database object -------------------------------------------------------------------

  datatype Request = Erase | ModifySlot | Unknown

  /** What a set call answers. */
  function SetResult(s: Store, request: Request, user: UserId, k: Kind, slot: nat, framed: bool): (r: Result)
  {
    match request
    case Erase =>
      if slot == 0 then (if user != 0 then Success(0) else if framed then Working else Fail)
      else if user != 0 && user in s.users && Readable(s, user) && k != Other
      then Success(NextSlot(s.nvm[File(user)].Slots(k), slot)) else Fail
    case ModifySlot =>
      if slot != 0 && user != 0 && Readable(s, user)
      then Success(NextSlot(s.nvm[File(user)].Slots(k), slot)) else Fail
    case Unknown => Fail
  }

  /** The operation a set call comes down to, if any. */
  function SetOp(request: Request, user: UserId, k: Kind, slot: nat, image: Image): (op: Option<Op>)
  {
    match request
    case Erase =>
      if user == 0 then None
      else if slot == 0 then Some(OpEraseAll(user, k)) else Some(OpEraseSlot(user, k, slot))
    case ModifySlot => if slot != 0 && user != 0 then Some(OpModify(user, k, slot, image)) else None
    case Unknown => None
  }

  function SetStore(s: Store, op: Option<Op>): (s': Store)
    requires Good(s) && (op.Some? ==> Clean(s.config, op.value))
  {
    match op { case Some(o) => Apply(s, o) case None => s }
  }

  // ---- what a set call does to every entry ---------------------------------------------------

  /** The least slot above `slot` with a schedule, or 0. */
  ghost predicate IsNext(s: Store, user: UserId, k: Kind, slot: nat, next: nat) {
    if next == 0 then forall t: nat :: t > slot ==> Lookup(s, user, k, t) == None
    else
      && next > slot && Lookup(s, user, k, next).Some?
      && forall t: nat :: slot < t < next ==> Lookup(s, user, k, t) == None
  }

  /** No schedule is different, except perhaps the one named. */
  ghost predicate OnlySlot(s: Store, s': Store, user: UserId, k: Kind, slot: nat) {
    forall u: UserId, k': Kind, t: nat :: !(u == user && k' == k && t == slot) ==>
      Lookup(s', u, k', t) == Lookup(s, u, k', t)
  }

  ghost predicate OnlyKind(s: Store, s': Store, user: UserId, k: Kind) {
    forall u: UserId, k': Kind, t: nat :: !(u == user && k' == k) ==> Lookup(s', u, k', t) == Lookup(s, u, k', t)
  }

  ghost predicate OnlyUser(s: Store, s': Store, user: UserId) {
    && (forall u: UserId, k: Kind, t: nat :: u != user ==> Lookup(s', u, k, t) == Lookup(s, u, k, t))
    && (forall u: UserId :: u != user ==> Active(s', u) == Active(s, u))
  }

  ghost predicate SameStates(s: Store, s': Store) {
    forall u: UserId :: Active(s', u) == Active(s, u)
  }

  /** All of a user's schedules of one type are gone; of an existing user nothing else is, of any other
      everything. */
  ghost predicate ErasedAll(s: Store, s': Store, user: UserId, k: Kind) {
    && (forall t: nat :: Lookup(s', user, k, t) == None)
    && if user in s.users then OnlyKind(s, s', user, k) && SameStates(s, s')
       else OnlyUser(s, s', user) && forall k': Kind, t: nat :: NothingFor(s', user, k', t)
  }

  ghost predicate ErasedOne(s: Store, s': Store, user: UserId, k: Kind, slot: nat) {
    Lookup(s', user, k, slot) == None && OnlySlot(s, s', user, k, slot) && SameStates(s, s')
  }

  /** A schedule is stored and scheduling is on for the user; a type there is not only does the latter. */
  ghost predicate ModifiedOne(s: Store, s': Store, user: UserId, k: Kind, slot: nat, image: Image) {
    && Lookup(s', user, k, slot) == (if k == Other then None else Some(image)) && OnlySlot(s, s', user, k, slot)
    && Active(s', user) && forall u: UserId :: u != user ==> Active(s', u) == Active(s, u)
  }

  lemma EraseAllMeets(s: Store, user: UserId, k: Kind)
    requires Good(s)
    ensures ErasedAll(s, Apply(s, OpEraseAll(user, k)), user, k)
  {
    hide Good, Apply, Lookup, Active;
    var s' := Apply(s, OpEraseAll(user, k));
    forall u: UserId, k': Kind, t: nat
      ensures Lookup(s', u, k', t)
           == if u == user && (k' == k || user !in s.users) then None else Lookup(s, u, k', t)
    {
      ApplyRefines(s, OpEraseAll(user, k), u, k', t);
    }
    forall u: UserId
      ensures Active(s', u) == if u == user && user !in s.users then false else Active(s, u)
    {
      ApplyRefines(s, OpEraseAll(user, k), u, k, 0);
    }
  }

  lemma EraseOneMeets(s: Store, user: UserId, k: Kind, slot: nat)
    requires Good(s) && user in s.users && Readable(s, user) && k != Other && 1 <= slot <= s.config.Count(k)
    ensures ErasedOne(s, Apply(s, OpEraseSlot(user, k, slot)), user, k, slot)
  {
    hide Good, Apply, Lookup, Active;
    var s' := Apply(s, OpEraseSlot(user, k, slot));
    forall u: UserId, k': Kind, t: nat
      ensures Lookup(s', u, k', t)
           == if u == user && k' == k && t == slot then None else Lookup(s, u, k', t)
    {
      ApplyRefines(s, OpEraseSlot(user, k, slot), u, k', t);
    }
    forall u: UserId
      ensures Active(s', u) == Active(s, u)
    {
      ApplyRefines(s, OpEraseSlot(user, k, slot), u, k, 0);
    }
  }

  lemma ModifyOneMeets(s: Store, user: UserId, k: Kind, slot: nat, image: Image)
    requires Good(s) && Readable(s, user) && (k != Other ==> 1 <= slot <= s.config.Count(k))
    ensures ModifiedOne(s, Apply(s, OpModify(user, k, slot, image)), user, k, slot, image)
  {
    NoOtherEntries(s, user, slot);
    hide Good, Apply, Lookup, Active;
    var s' := Apply(s, OpModify(user, k, slot, image));
    forall u: UserId, k': Kind, t: nat
      ensures Lookup(s', u, k', t)
           == if u == user && k' == k && t == slot && k != Other then Some(image) else Lookup(s, u, k', t)
    {
      ApplyRefines(s, OpModify(user, k, slot, image), u, k', t);
    }
    forall u: UserId
      ensures Active(s', u) == if u == user then true else Active(s, u)
    {
      ApplyRefines(s, OpModify(user, k, slot, image), u, k, 0);
    }
  }

  lemma StateMeets(s: Store, user: UserId, state: bool)
    requires Good(s)
    ensures var s', ok := Apply(s, OpSetState(user, state)), user in s.users && Readable(s, user);
            && (forall u: UserId :: Active(s', u) == if u == user && ok then state else Active(s, u))
            && forall u: UserId, k: Kind, slot: nat :: Lookup(s', u, k, slot) == Lookup(s, u, k, slot)
  {
    hide Good, Apply, Lookup, Active;
    var s' := Apply(s, OpSetState(user, state));
    forall u: UserId, k: Kind, slot: nat
      ensures Lookup(s', u, k, slot) == Lookup(s, u, k, slot)
    {
      ApplyRefines(s, OpSetState(user, state), u, k, slot);
    }
    forall u: UserId
      ensures Active(s', u) == if u == user && user in s.users && Readable(s, user) then state else Active(s, u)
    {
      ApplyRefines(s, OpSetState(user, state), u, Other, 0);
    }
  }

  lemma DeletedMeets(s: Store, user: UserId)
    requires Good(s)
    ensures OnlyUser(s, UserDeleted(s, user), user)
    ensures forall k: Kind, t: nat :: NothingFor(UserDeleted(s, user), user, k, t)
  {
    hide Good, UserDeleted, Lookup, Active;
    var s' := UserDeleted(s, user);
    forall u: UserId, k: Kind, t: nat
      ensures Lookup(s', u, k, t) == if u == user then None else Lookup(s, u, k, t)
    {
      DeletedReads(s, user, u, k, t);
    }
    forall u: UserId
      ensures Active(s', u) == if u == user then false else Active(s, u)
    {
      DeletedReads(s, user, u, Other, 0);
    }
  }

  lemma DeletedReads(s: Store, user: UserId, u: UserId, k: Kind, t: nat)
    requires Good(s)
    ensures Lookup(UserDeleted(s, user), u, k, t) == if u == user then None else Lookup(s, u, k, t)
    ensures Active(UserDeleted(s, user), u) == if u == user then false else Active(s, u)
  {
    hide Good;
    DeletedRefines(s, user, u, k, t);
  }

  lemma NextMeets(s: Store, user: UserId, k: Kind, slot: nat)
    requires Readable(s, user)
    ensures IsNext(s, user, k, slot, NextSlot(s.nvm[File(user)].Slots(k), slot))
  {
    NextSlotIsLeast(s.nvm[File(user)].Slots(k), slot);
  }

  /** The answer is that for slot `at`: the given one, or for slot 0 the first with a schedule. */
  ghost predicate Answers(s: Store, user: UserId, k: Kind, slot: nat, at: nat, a: Answer)
    requires a.Found?
  {
    && at != 0 && (if slot == 0 then IsNext(s, user, k, 0, at) else at == slot)
    && a.schedule == (match Lookup(s, user, k, at) { case Some(image) => image case None => ZeroSchedule(k) })
    && IsNext(s, user, k, at, a.next)
  }

  lemma GetMeets(s: Store, user: UserId, k: Kind, slot: nat)
    requires Good(s)
    ensures Readable(s, user) ==> |s.nvm[File(user)].Slots(k)| == s.config.Count(k)
    ensures var a, none := Get(s, user, k, slot), forall t: nat :: Lookup(s, user, k, t) == None;
            && (a == OutOfBounds <==> user in s.users && Readable(s, user) && k != Other && slot == 0 && none)
            && (a.Found? ==> exists at: nat :: Answers(s, user, k, slot, at, a))
  {
    var a := Get(s, user, k, slot);
    if user in s.users && Readable(s, user) && k != Other && slot <= s.config.Count(k) {
      GoodFile(s, user);
      var slots := s.nvm[File(user)].Slots(k);
      var at := if slot == 0 then NextSlot(slots, 0) else slot;
      NextMeets(s, user, k, 0);
      NextSlotIsLeast(slots, 0);
      if at != 0 {
        GetFinds(s, user, k, at);
        assert Answers(s, user, k, slot, at, a);
      }
    }
  }

  class Database {
    const config: Config
    var nvm: map<nat, Metadata>
    var users: set<UserId>

    ghost function View(): (s: Store)
      reads this
    {
      Store(config, nvm, users)
    }

    /** Every file has the configured slots, and an unoccupied slot is all zeros. */
    ghost predicate Valid()
      reads this
    {
      Good(View())
    }

    /** A device with the files that an earlier run left. */
    constructor (config: Config, nvm: map<nat, Metadata>, users: set<UserId>)
      requires Good(Store(config, nvm, users))
      ensures Valid() && View() == Store(config, nvm, users)
    {
      this.config, this.nvm, this.users := config, nvm, users;
    }

    /** `app_nvm` on the schedule area, by its contract: a read succeeds when the file is there. */
    method Read(user: UserId) returns (m: Option<Metadata>)
      ensures m == Stored(View(), user)
    {
      m := if File(user) in nvm then Some(nvm[File(user)]) else None;
    }

    /** A write replaces or makes the user's file; what it wrote is read back, and no other user's file
        changes. */
    method WriteBack(user: UserId, m: Metadata)
      modifies this`nvm
      ensures View() == Write(old(View()), user, m)
      ensures forall u: UserId :: Stored(View(), u) == if u == user then Some(m) else old(Stored(View(), u))
      ensures old(Valid()) && Shaped(m, config) ==> Valid()
    {
      if Good(View()) && Shaped(m, config) {
        WriteKeeps(View(), user, m);
      }
      forall u: UserId
        ensures Stored(Write(View(), user, m), u) == if u == user then Some(m) else Stored(View(), u)
      {
        WriteRead(View(), user, m, u);
      }
      nvm := nvm[File(user) := m];
    }

    /** Zeros in the files of all users, whatever was there before. */
    method ResetSchedules(maxUsers: nat)
      modifies this`nvm
      ensures View() == Reset(old(View()), maxUsers)
      ensures old(Valid()) || old(NoFileFrom(View(), maxUsers)) ==> Valid()
      ensures EmptyBelow(View(), maxUsers)
    {
      hide Good, EmptyBelow, NoFileFrom;
      ghost var was := View();
      for i := 0 to maxUsers
        invariant View() == Reset(was, i)
      {
        nvm := nvm[i := Zeroed(config)];
      }
      ResetMeets(was, maxUsers);
    }

    method GetScheduleState(user: UserId) returns (state: Option<bool>)
      ensures state == if user in users && Readable(View(), user) then Some(Active(View(), user)) else None
    {
      state := None;
      if user in users {
        var m := Read(user);
        if m.Some? {
          state := Some(m.value.active);
        }
      }
    }

    method SetScheduleState(user: UserId, state: bool) returns (ok: bool)
      requires Valid()
      modifies this`nvm
      ensures Valid() && View() == Apply(old(View()), OpSetState(user, state))
      ensures forall u: UserId :: Active(View(), u) == if u == user && ok then state else Active(old(View()), u)
      ensures forall u: UserId, k: Kind, slot: nat :: Lookup(View(), u, k, slot) == Lookup(old(View()), u, k, slot)
      ensures ok == (user in users && Readable(old(View()), user))
    {
      ApplyKeeps(View(), OpSetState(user, state));
      StateMeets(View(), user, state);
      hide Good, Lookup, Active;
      if user !in users {
        return false;
      }
      var m := Read(user);
      if m == None {
        return false;
      }
      if m.value.active != state {
        WriteBack(user, m.value.(active := state));
        return true;
      }
      assert nvm[File(user) := m.value] == nvm;
      return true;
    }

    method GetScheduleData(k: Kind, slot: nat, user: UserId) returns (a: Answer)
      requires Valid()
      ensures a == Get(View(), user, k, slot)
      ensures a == InvalidGet <==>
                user !in users || slot > config.Count(k) || (k == Other && Readable(View(), user))
      ensures a == ReadFailed <==> user in users && slot <= config.Count(k) && !Readable(View(), user)
      ensures a == OutOfBounds <==>
                && user in users && Readable(View(), user) && k != Other && slot == 0
                && forall t: nat :: Lookup(View(), user, k, t) == None
      ensures a.Found? ==> exists at: nat :: Answers(View(), user, k, slot, at, a)
    {
      GetMeets(View(), user, k, slot);
      hide Answers, Lookup;
      if slot > config.Count(k) || user !in users {
        return InvalidGet;
      }
      var m := Read(user);
      if m == None {
        return ReadFailed;
      }
      var slots, at := m.value.Slots(k), slot;
      if slot == 0 {
        at := GetNextSlot(slots, 0);
        NextSlotIsLeast(slots, 0);
      }
      if k == Other {
        return InvalidGet;
      }
      if at == 0 {
        return OutOfBounds;
      }
      var next := GetNextSlot(slots, at);
      return Found(slots[at - 1].schedule, next);
    }

    /** `framed` says whether the current command frame's options could be fetched. */
    method SetScheduleData(request: Request, user: UserId, k: Kind, slot: nat, image: Image, framed: bool)
      returns (r: Result)
      requires Valid() && (k != Other && slot != 0 ==> slot <= config.Count(k))
      modifies this`nvm
      ensures Valid() && View() == SetStore(old(View()), SetOp(request, user, k, slot, image))
      ensures r == SetResult(View(), request, user, k, slot, framed)
      ensures request == Erase && slot == 0 && user != 0 ==> r == Success(0) && ErasedAll(old(View()), View(), user, k)
      ensures request == Erase && slot != 0 && user != 0 && user in users && old(Readable(View(), user)) ==>
                k != Other ==>
                r.Success? && ErasedOne(old(View()), View(), user, k, slot) && IsNext(View(), user, k, slot, r.next)
      ensures request == ModifySlot && slot != 0 && user != 0 && old(Readable(View(), user)) ==>
                && r.Success? && ModifiedOne(old(View()), View(), user, k, slot, image)
                && IsNext(View(), user, k, slot, r.next)
      ensures r == Working <==> request == Erase && slot == 0 && user == 0 && framed
      ensures r.Success? ==> user != 0 && match request
                case Erase => slot == 0 || (user in users && old(Readable(View(), user)) && k != Other)
                case ModifySlot => slot != 0 && old(Readable(View(), user))
                case Unknown => false
      ensures !r.Success? ==> View() == old(View())
    {
      hide Good, Lookup, Active, ErasedAll, ErasedOne, ModifiedOne, IsNext, Apply;
      r := Fail;
      if request == Erase {
        if slot == 0 {
          if user == 0 {
            r := if framed then Working else Fail;
          } else {
            r := EraseAllOf(user, k);
          }
        } else if user != 0 {
          r := EraseOne(user, k, slot);
        }
      } else if request == ModifySlot && slot != 0 && user != 0 {
        r := ModifyOne(user, k, slot, image);
      }
    }

    method EraseAllOf(user: UserId, k: Kind) returns (r: Result)
      requires Valid()
      modifies this`nvm
      ensures Valid() && View() == Apply(old(View()), OpEraseAll(user, k)) && r == Success(0)
      ensures ErasedAll(old(View()), View(), user, k)
    {
      ApplyKeeps(View(), OpEraseAll(user, k));
      EraseAllMeets(View(), user, k);
      hide Good, ErasedAll, Cleared, Zeroed;
      var data, m := Zeroed(config), None;
      if user in users {
        m := Read(user);
      }
      if m.Some? {
        data := Cleared(m.value, k, config);
      }
      WriteBack(user, data);
      r := Success(0);
    }

    method EraseOne(user: UserId, k: Kind, slot: nat) returns (r: Result)
      requires Valid() && (k != Other ==> 1 <= slot <= config.Count(k))
      modifies this`nvm
      ensures Valid() && View() == Apply(old(View()), OpEraseSlot(user, k, slot))
      ensures r == if user in users && Readable(View(), user) && k != Other
                   then Success(NextSlot(nvm[File(user)].Slots(k), slot)) else Fail
      ensures r.Success? <==> user in users && old(Readable(View(), user)) && k != Other
      ensures if r.Success? then ErasedOne(old(View()), View(), user, k, slot) && IsNext(View(), user, k, slot, r.next)
              else View() == old(View())
    {
      ApplyKeeps(View(), OpEraseSlot(user, k, slot));
      if Readable(View(), user) {
        GoodFile(View(), user);
        if user in users && k != Other {
          EraseOneMeets(View(), user, k, slot);
          NextMeets(EraseSlot(View(), user, k, slot), user, k, slot);
        }
      }
      hide Good, ErasedOne, IsNext, EmptySlot;
      r := Fail;
      if user in users {
        var m := Read(user);
        if m.Some? && k != Other {
          var data := m.value.With(k, m.value.Slots(k)[slot - 1 := EmptySlot(k)]);
          WriteBack(user, data);
          var next := GetNextSlot(data.Slots(k), slot);
          r := Success(next);
        }
      }
    }

    method ModifyOne(user: UserId, k: Kind, slot: nat, image: Image) returns (r: Result)
      requires Valid() && (k != Other ==> 1 <= slot <= config.Count(k))
      modifies this`nvm
      ensures Valid() && View() == Apply(old(View()), OpModify(user, k, slot, image))
      ensures r == if Readable(View(), user) then Success(NextSlot(nvm[File(user)].Slots(k), slot)) else Fail
      ensures r.Success? <==> old(Readable(View(), user))
      ensures if r.Success?
              then ModifiedOne(old(View()), View(), user, k, slot, image) && IsNext(View(), user, k, slot, r.next)
              else View() == old(View())
    {
      ApplyKeeps(View(), OpModify(user, k, slot, image));
      if Readable(View(), user) {
        GoodFile(View(), user);
        ModifyOneMeets(View(), user, k, slot, image);
        NextMeets(Modify(View(), user, k, slot, image), user, k, slot);
      }
      hide Good, ModifiedOne, IsNext;
      r := Fail;
      var m := Read(user);
      if m.Some? {
        var data := m.value;
        if k != Other {
          data := data.With(k, data.Slots(k)[slot - 1 := Slot(true, image)]);
        }
        data := data.(active := true);
        WriteBack(user, data);
        var next := GetNextSlot(data.Slots(k), slot);
        r := Success(next);
      }
    }

    /** The callback for a deleted user; the other user operations leave the schedules alone. */
    method UserChanged(user: UserId, deleted: bool)
      requires Valid()
      modifies this`nvm
      ensures Valid() && View() == if deleted then UserDeleted(old(View()), user) else old(View())
      ensures deleted ==>
                && OnlyUser(old(View()), View(), user)
                && (forall k: Kind, t: nat :: NothingFor(View(), user, k, t))
                && (Readable(View(), user) ==> Stored(View(), user).value.uuid == 0)
    {
      if deleted {
        DeletedKeeps(View(), user);
        DeletedMeets(View(), user);
        hide Good, NothingFor, OnlyUser, Cleared;
        var m := Read(user);
        if m.Some? {
          var data := m.value.(active := false, uuid := 0);
          data := Cleared(data, YearDay, config);
          data := Cleared(data, Daily, config);
          WriteBack(user, data);
        }
      }
    }
  }
}
