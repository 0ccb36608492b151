/** What a setting is, how it is stored in flash, and how start-up loads it: main/nvs_config.c.
    Float settings are not part of this model. */
module Settings {
  import opened Options

  datatype Kind = StrKind | U16Kind | I32Kind | U64Kind | BoolKind

  datatype Value = Str(s: string) | U16(n: nat) | I32(i: int) | U64(w: nat) | Bool(b: bool)
  {
    function Kind(): Kind {
      match this
      case Str(_) => StrKind
      case U16(_) => U16Kind
      case I32(_) => I32Kind
      case U64(_) => U64Kind
      case Bool(_) => BoolKind
    }
  }

  /** `size` 0 is a plain setting, more is a numbered one. */
  datatype Setting = Setting(kind: Kind, size: nat, default: Value)

  /** The settings, and which of them keeps a copy under the key of an older firmware. */
  datatype Table = Table(settings: seq<Setting>, fan: nat)
  {
    predicate Ok() {
      && (forall k :: 0 <= k < |settings| ==> settings[k].default.Kind() == settings[k].kind)
      && fan < |settings| && settings[fan].kind == U16Kind && settings[fan].size == 0
    }

    predicate Has(slot: Slot) {
      slot.key < |settings| && slot.index < Count(settings[slot.key])
    }

    /** A stored value with no characters is not told apart from none. */
    function Normal(slot: Slot, v: Value): Value
      requires Has(slot)
    {
      if v == Str("") then settings[slot.key].default else v
    }
  }

  function Count(setting: Setting): nat {
    if setting.size > 0 then setting.size else 1
  }

  datatype Slot = Slot(key: nat, index: nat)

  datatype FlashKey = Main(slot: Slot) | LegacyFan

  datatype Item = StrItem(s: string) | U16Item(n: nat) | I32Item(i: int) | U64Item(w: nat)

  type Flash = map<FlashKey, Item>
  type Cache = map<Slot, Value>

  datatype Update = Update(slot: Slot, value: Value)

  // ----- Writing -----

  function ToItem(v: Value): Item {
    match v
    case Str(s) => StrItem(s)
    case U16(n) => U16Item(n)
    case I32(i) => I32Item(i)
    case U64(w) => U64Item(w)
    case Bool(b) => U16Item(if b then 1 else 0)
  }

  function WriteMain(flash: Flash, u: Update): Flash {
    flash[Main(u.slot) := ToItem(u.value)]
  }

  function WriteLegacy(table: Table, flash: Flash, u: Update): Flash {
    if u.slot.key == table.fan && u.value.U16? then flash[LegacyFan := U16Item(u.value.n)] else flash
  }

  function Write(table: Table, flash: Flash, u: Update): Flash {
    WriteLegacy(table, WriteMain(flash, u), u)
  }

  // ----- Loading -----

  /** The value found in flash, if it is there in the right form. */
  function Found(setting: Setting, flash: Flash, slot: Slot): Option<Value> {
    if Main(slot) !in flash then None
    else
      match (setting.kind, flash[Main(slot)])
      case (StrKind, StrItem(s)) => if |s| > 0 then Some(Str(s)) else None
      case (U16Kind, U16Item(n)) => Some(U16(n))
      case (I32Kind, I32Item(i)) => Some(I32(i))
      case (U64Kind, U64Item(w)) => Some(U64(w))
      case (BoolKind, U16Item(n)) => Some(Bool(n != 0))
      case _ => None
  }

  function Load(table: Table, flash: Flash, slot: Slot): Value
    requires table.Has(slot)
  {
    var setting := table.settings[slot.key];
    match Found(setting, flash, slot) case Some(v) => v case None => setting.default
  }

  /** A copy left by an older firmware is taken over when there is no newer value. */
  function Migrate(table: Table, flash: Flash): Flash {
    if Main(Slot(table.fan, 0)) !in flash && LegacyFan in flash && flash[LegacyFan].U16Item? && flash[LegacyFan].n > 0
    then flash[Main(Slot(table.fan, 0)) := flash[LegacyFan]]
    else flash
  }

  /** What the next start-up reads from a flash. */
  function Reload(table: Table, flash: Flash, slot: Slot): Value
    requires table.Has(slot)
  {
    Load(table, Migrate(table, flash), slot)
  }

  /** What a start-up makes of an older firmware's fan setting: it is used, and kept under the new key, if it is
      positive and there is no newer value; nothing else in flash is ever changed by it. */
  lemma LegacyFanIsTakenOver(table: Table, flash: Flash, key: FlashKey)
    requires table.Ok()
    ensures var fan, newer := Main(Slot(table.fan, 0)), Reload(table, flash, Slot(table.fan, 0));
            && (fan in flash ==> newer == (if flash[fan].U16Item? then U16(flash[fan].n)
                                           else table.settings[table.fan].default))
            && (fan !in flash && LegacyFan in flash && flash[LegacyFan].U16Item? && flash[LegacyFan].n > 0 ==>
                  newer == U16(flash[LegacyFan].n) && fan in Migrate(table, flash))
            && (fan !in flash && (LegacyFan !in flash || flash[LegacyFan] == U16Item(0) ||
                !flash[LegacyFan].U16Item?) ==>
                  newer == table.settings[table.fan].default && Migrate(table, flash) == flash)
    ensures key != Main(Slot(table.fan, 0)) ==>
              (key in Migrate(table, flash) <==> key in flash) &&
              (key in flash ==> Migrate(table, flash)[key] == flash[key])
  {
  }

  /** Some entry of a setting was found in flash. */
  predicate IsFound(table: Table, flash: Flash, key: nat)
    requires key < |table.settings|
  {
    exists i | 0 <= i < Count(table.settings[key]) :: Found(table.settings[key], flash, Slot(key, i)).Some?
  }

  /** A cache that holds what a flash gives for the first `keys` settings, and nothing else. */
  ghost predicate IsLoaded(table: Table, flash: Flash, cache: Cache, keys: nat) {
    && (forall slot :: table.Has(slot) && slot.key < keys ==> slot in cache && cache[slot] == Load(table, flash, slot))
    && (forall slot :: slot in cache ==> table.Has(slot) && slot.key < keys)
  }

  /** Load the entries of one setting. */
  method LoadSetting(table: Table, flash: Flash, key: nat, before: Cache) returns (cache: Cache, anySet: bool)
    requires key < |table.settings| && IsLoaded(table, flash, before, key)
    ensures IsLoaded(table, flash, cache, key + 1)
    ensures anySet <==> IsFound(table, flash, key)
  {
    var setting := table.settings[key];
    var index := 0;
    cache, anySet := before, false;
    while index < Count(setting)
      invariant index <= Count(setting)
      invariant forall slot :: slot in before ==> slot in cache && cache[slot] == before[slot]
      invariant forall i :: 0 <= i < index ==>
                  Slot(key, i) in cache && cache[Slot(key, i)] == Load(table, flash, Slot(key, i))
      invariant forall slot :: slot in cache ==> slot in before || (slot.key == key && slot.index < index)
      invariant anySet <==> exists i :: 0 <= i < index && Found(setting, flash, Slot(key, i)).Some?
    {
      var found := Found(setting, flash, Slot(key, index));
      cache := cache[Slot(key, index) := if found.Some? then found.value else setting.default];
      anySet := anySet || found.Some?;
      index := index + 1;
    }
  }

  /** The start-up loop: migrate, then fill the cache and the per-setting set flags. Migration concerns one
      setting, comes just before that setting is loaded, and touches no other key. */
  method Init(table: Table, flash: Flash) returns (stored: Flash, cache: Cache, isSet: seq<bool>)
    requires table.Ok()
    ensures stored == Migrate(table, flash)
    ensures IsLoaded(table, stored, cache, |table.settings|)
    ensures |isSet| == |table.settings|
    ensures forall k :: 0 <= k < |isSet| ==> (isSet[k] <==> IsFound(table, stored, k))
  {
    hide IsLoaded, IsFound, Migrate;
    stored, cache, isSet := Migrate(table, flash), map[], [];
    NothingIsLoaded(table, stored);
    while |isSet| < |table.settings|
      invariant |isSet| <= |table.settings| && IsLoaded(table, stored, cache, |isSet|)
      invariant forall k :: 0 <= k < |isSet| ==> (isSet[k] <==> IsFound(table, stored, k))
    {
      var anySet;
      cache, anySet := LoadSetting(table, stored, |isSet|, cache);
      isSet := isSet + [anySet];
    }
  }

  lemma NothingIsLoaded(table: Table, flash: Flash)
    ensures IsLoaded(table, flash, map[], 0)
  {
  }

  // ----- Flash follows cache -----

  /** Loading a flash gives the cache, empty strings apart, and leaves nothing to migrate. */
  ghost predicate Agrees(table: Table, flash: Flash, cache: Cache) {
    && Migrate(table, flash) == flash
    && forall slot :: table.Has(slot) ==>
         slot in cache && cache[slot].Kind() == table.settings[slot.key].kind &&
             Load(table, flash, slot) == table.Normal(slot, cache[slot])
  }

  predicate Fits(table: Table, u: Update) {
    table.Has(u.slot) && u.value.Kind() == table.settings[u.slot.key].kind
  }

  lemma MainFollowsStore(table: Table, flash: Flash, cache: Cache, u: Update)
    requires table.Ok() && Agrees(table, flash, cache) && Fits(table, u)
    ensures Agrees(table, WriteMain(flash, u), cache[u.slot := u.value])
  {
    forall slot | table.Has(slot) && slot != u.slot
      ensures Load(table, WriteMain(flash, u), slot) == Load(table, flash, slot)
    {
    }
  }

  lemma LegacyChangesNothing(table: Table, flash: Flash, cache: Cache, u: Update)
    requires table.Ok() && Agrees(table, flash, cache) && Fits(table, u) && Main(u.slot) in flash
    ensures Agrees(table, WriteLegacy(table, flash, u), cache)
  {
    forall slot | table.Has(slot)
      ensures Load(table, WriteLegacy(table, flash, u), slot) == Load(table, flash, slot)
    {
    }
  }

  /** Writing the main key alone already makes a reload see the update; the older key changes nothing. */
  lemma WriteFollowsStore(table: Table, flash: Flash, cache: Cache, u: Update)
    requires table.Ok() && Agrees(table, flash, cache) && Fits(table, u)
    ensures Agrees(table, WriteMain(flash, u), cache[u.slot := u.value])
    ensures Agrees(table, Write(table, flash, u), cache[u.slot := u.value])
    ensures Write(table, WriteMain(flash, u), u) == Write(table, flash, u)
  {
    hide Agrees, WriteLegacy;
    MainFollowsStore(table, flash, cache, u);
    LegacyChangesNothing(table, WriteMain(flash, u), cache[u.slot := u.value], u);
    assert WriteMain(WriteMain(flash, u), u) == WriteMain(flash, u);
  }

  function WriteAll(table: Table, flash: Flash, us: seq<Update>): Flash {
    if us == [] then flash else Write(table, WriteAll(table, flash, us[..|us| - 1]), us[|us| - 1])
  }

  function StoreAll(cache: Cache, us: seq<Update>): Cache {
    if us == [] then cache else StoreAll(cache, us[..|us| - 1])[us[|us| - 1].slot := us[|us| - 1].value]
  }

  lemma {:induction false} WritesFollowStores(table: Table, flash: Flash, cache: Cache, us: seq<Update>)
    requires table.Ok() && Agrees(table, flash, cache) && forall i :: 0 <= i < |us| ==> Fits(table, us[i])
    ensures Agrees(table, WriteAll(table, flash, us), StoreAll(cache, us))
  {
    if us != [] {
      WritesFollowStores(table, flash, cache, us[..|us| - 1]);
      WriteFollowsStore(table, WriteAll(table, flash, us[..|us| - 1]), StoreAll(cache, us[..|us| - 1]), us[|us| - 1]);
    }
  }

  /** A start-up leaves flash and cache in agreement. */
  lemma InitAgrees(table: Table, flash: Flash, cache: Cache)
    requires table.Ok() && IsLoaded(table, Migrate(table, flash), cache, |table.settings|)
    ensures Agrees(table, Migrate(table, flash), cache)
  {
  }

  /** Reloading gives back every cached value but the empty strings whose default is another one. */
  lemma ReloadIsCache(table: Table, flash: Flash, cache: Cache, slot: Slot)
    requires table.Ok() && Agrees(table, flash, cache) && table.Has(slot)
    ensures Reload(table, flash, slot) == cache[slot] <==>
              (cache[slot] == Str("") ==> table.settings[slot.key].default == Str(""))
  {
  }

  /** A string setting whose default is not empty, cleared by its user and saved, comes back as its default. */
  lemma ClearedComesBack(table: Table, flash: Flash, cache: Cache, slot: Slot)
    requires table.Ok() && Agrees(table, flash, cache) && Fits(table, Update(slot, Str("")))
    requires table.settings[slot.key].default != Str("")
    ensures Reload(table, Write(table, flash, Update(slot, Str(""))), slot) == table.settings[slot.key].default
    ensures Reload(table, Write(table, flash, Update(slot, Str(""))), slot) != Str("")
  {
    var u := Update(slot, Str(""));
    WriteFollowsStore(table, flash, cache, u);
    ReloadIsCache(table, Write(table, flash, u), cache[u.slot := u.value], slot);
  }
}

/** The threads of the settings cache as atomic steps between lock operations: setters under two
    mutexes, getters under one, a save task under none, and a bounded queue between them. */
module NvsConfig {
  import opened Options
  import opened Settings

  const QUEUE_LENGTH := 50

  /** Where a caller of a setter or getter is. Everything from Checking to Leaving holds the update mutex. */
  datatype Thread =
    | Idle
    | WantUpdate(u: Update)
    | Checking(u: Update)    // wants the cache mutex
    | InCheck(u: Update)     // holds it
    | Allocating(u: Update)  // strings only
    | Storing(u: Update)     // wants the cache mutex again
    | InStore(u: Update)     // holds it
    | Sending(u: Update)
    | Leaving
    | WantRead(slot: Slot)
    | Reading(slot: Slot)    // holds the cache mutex
    | GotValue(value: Value)

  /** The save task: waiting on the queue, holding an update, or with its main key already written. */
  datatype Saver = Waiting | Took(u: Update) | MainWritten(u: Update)

  datatype State = State(
    cache: Cache, isSet: seq<bool>, queue: seq<Update>, flash: Flash, saver: Saver,
    updateOwner: Option<nat>, cacheOwner: Option<nat>, threads: seq<Thread>,
    stores: seq<Update>)  // every store into the cache since start-up, in order

  /** `Begin*` is a new call; `Run` one step of a thread already in a call, with its allocations' fate. */
  datatype Action = BeginSet(t: nat, key: int, index: int, indexed: bool, value: Value)
                  | BeginGet(t: nat, slot: Slot)
                  | Run(t: nat, gotMemory: bool)
                  | Save

  /** The slot a setter call addresses, or none if the call is turned away at the door. */
  function Accepted(table: Table, key: int, index: int, indexed: bool, value: Value): Option<Slot> {
    if key < 0 || key >= |table.settings| || table.settings[key].kind != value.Kind() then None
    else if !indexed then Some(Slot(key, 0))
    else if value.Str? && table.settings[key].size >= 1 && 0 <= index < table.settings[key].size
        then Some(Slot(key, index))
    else None
  }

  predicate HoldsUpdate(t: Thread) {
    t.Checking? || t.InCheck? || t.Allocating? || t.Storing? || t.InStore? || t.Sending? || t.Leaving?
  }

  predicate HoldsCache(t: Thread) {
    t.InCheck? || t.InStore? || t.Reading?
  }

  /** Put the update into the cache, mark the setting set, release the cache mutex, and go on to send. */
  function Store(s: State, t: nat, u: Update): State
    requires t < |s.threads| && u.slot.key < |s.isSet|
  {
    s.(cache := s.cache[u.slot := u.value], isSet := s.isSet[u.slot.key := true], stores := s.stores + [u],
       cacheOwner := None, threads := s.threads[t := Sending(u)])
  }

  /** One step of a thread inside a call, if it is not blocked. */
  function RunThread(s: State, t: nat, gotMemory: bool): Option<State>
    requires t < |s.threads|
  {
    match s.threads[t]
    case Idle => None
    case WantUpdate(u) =>
      if s.updateOwner.Some? then None
      else Some(s.(updateOwner := Some(t), threads := s.threads[t := Checking(u)]))
    case Checking(u) =>
      if s.cacheOwner.Some? then None
      else Some(s.(cacheOwner := Some(t), threads := s.threads[t := InCheck(u)]))
    case InCheck(u) =>
      if u.slot !in s.cache || u.slot.key >= |s.isSet| then None
      else if s.cache[u.slot] == u.value && s.isSet[u.slot.key]
          then Some(s.(cacheOwner := None, threads := s.threads[t := Leaving]))
      else if u.value.Str? then Some(s.(cacheOwner := None, threads := s.threads[t := Allocating(u)]))
      else Some(Store(s, t, u))
    case Allocating(u) => Some(s.(threads := s.threads[t := if gotMemory then Storing(u) else Leaving]))
    case Storing(u) =>
      if s.cacheOwner.Some? then None
      else Some(s.(cacheOwner := Some(t), threads := s.threads[t := InStore(u)]))
    case InStore(u) => if u.slot.key >= |s.isSet| then None else Some(Store(s, t, u))
    case Sending(u) =>
      if |s.queue| >= QUEUE_LENGTH then None
      else Some(s.(queue := s.queue + [u], threads := s.threads[t := Leaving]))
    case Leaving => Some(s.(updateOwner := None, threads := s.threads[t := Idle]))
    case WantRead(slot) =>
      if s.cacheOwner.Some? then None
      else Some(s.(cacheOwner := Some(t), threads := s.threads[t := Reading(slot)]))
    case Reading(slot) =>
      if slot !in s.cache then None
          else Some(s.(cacheOwner := None, threads := s.threads[t := GotValue(s.cache[slot])]))
    case GotValue(_) => Some(s.(threads := s.threads[t := Idle]))
  }

  /** One step of the save task. It takes no mutex. */
  function RunSaver(table: Table, s: State): Option<State> {
    match s.saver
    case Waiting => if s.queue == [] then None else Some(s.(saver := Took(s.queue[0]), queue := s.queue[1..]))
    case Took(u) => Some(s.(saver := MainWritten(u), flash := WriteMain(s.flash, u)))
    case MainWritten(u) => Some(s.(saver := Waiting, flash := WriteLegacy(table, s.flash, u)))
  }

  function Next(table: Table, s: State, a: Action): Option<State> {
    match a
    case BeginSet(t, key, index, indexed, value) =>
      if t >= |s.threads| || !s.threads[t].Idle? then None
      else
        (match Accepted(table, key, index, indexed, value)
         case None => Some(s)
         case Some(slot) => Some(s.(threads := s.threads[t := WantUpdate(Update(slot, value))])))
    case BeginGet(t, slot) =>
      if t >= |s.threads| || !s.threads[t].Idle? || !table.Has(slot) then None
      else Some(s.(threads := s.threads[t := WantRead(slot)]))
    case Run(t, gotMemory) => if t >= |s.threads| then None else RunThread(s, t, gotMemory)
    case Save => RunSaver(table, s)
  }

  // ----- The invariant -----

  /** What start-up found. */
  datatype Boot = Boot(table: Table, flash: Flash, cache: Cache)
  {
    ghost predicate Ok() {
      table.Ok() && Agrees(table, flash, cache)
    }
  }

  function InFlight(s: State): seq<Update> {
    if s.saver.Waiting? then [] else [s.saver.u]
  }

  function Pending(s: State): seq<Update> {
    if s.updateOwner.Some? && s.updateOwner.value < |s.threads| && s.threads[s.updateOwner.value].Sending?
    then [s.threads[s.updateOwner.value].u] else []
  }

  /** Stores the cache has and flash may not: being written, queued, or about to be queued. */
  function Outstanding(s: State): seq<Update> {
    InFlight(s) + (s.queue + Pending(s))
  }

  /** The update a thread carries. */
  function Carried(t: Thread): seq<Update> {
    if t.WantUpdate? || t.Checking? || t.InCheck? || t.Allocating? || t.Storing? || t.InStore? || t.Sending? then [t.u]
        else []
  }

  ghost predicate ThreadOk(table: Table, s: State, t: nat)
    requires t < |s.threads|
  {
    && (HoldsUpdate(s.threads[t]) <==> s.updateOwner == Some(t))
    && (HoldsCache(s.threads[t]) <==> s.cacheOwner == Some(t))
    && (forall u :: u in Carried(s.threads[t]) ==> Fits(table, u))
    && (s.threads[t].WantRead? || s.threads[t].Reading? ==> table.Has(s.threads[t].slot))
  }

  ghost predicate Locks(table: Table, s: State) {
    && (forall t :: 0 <= t < |s.threads| ==> ThreadOk(table, s, t))
    && (s.updateOwner.Some? ==> s.updateOwner.value < |s.threads|)
    && (s.cacheOwner.Some? ==> s.cacheOwner.value < |s.threads|)
    && |s.isSet| == |table.settings|
  }

  /** How many stores have reached flash whole. */
  function Saved(s: State): int {
    |s.stores| - |Outstanding(s)|
  }

  /** Flash has the stores made so far but the outstanding ones, and half of the one in flight. */
  ghost predicate Follows(boot: Boot, s: State) {
    && |s.queue| <= QUEUE_LENGTH
    && (forall i :: 0 <= i < |s.stores| ==> Fits(boot.table, s.stores[i]))
    && s.cache == StoreAll(boot.cache, s.stores)
    && 0 <= Saved(s) && s.stores[Saved(s)..] == Outstanding(s)
    && var saved := WriteAll(boot.table, boot.flash, s.stores[..Saved(s)]);
       s.flash == if s.saver.MainWritten? then WriteMain(saved, s.saver.u) else saved
  }

  ghost predicate Inv(boot: Boot, s: State) {
    Locks(boot.table, s) && Follows(boot, s)
  }

  // ----- Every step keeps it -----

  /** A thread's step takes or gives a mutex only as itself, and leaves it in order. */
  lemma RunnerIsOk(table: Table, s: State, r: nat, gotMemory: bool)
    requires Locks(table, s) && r < |s.threads| && RunThread(s, r, gotMemory).Some?
    ensures var s' := RunThread(s, r, gotMemory).value;
            && |s'.threads| == |s.threads| && s'.threads == s.threads[r := s'.threads[r]] && |s'.isSet| == |s.isSet|
            && (s'.updateOwner == s.updateOwner || (s'.updateOwner == Some(r) && s.updateOwner == None)
                || (s'.updateOwner == None && s.updateOwner == Some(r)))
            && (s'.cacheOwner == s.cacheOwner || (s'.cacheOwner == Some(r) && s.cacheOwner == None)
                || (s'.cacheOwner == None && s.cacheOwner == Some(r)))
            && ThreadOk(table, s', r)
  {
    hide Fits;
    assert ThreadOk(table, s, r);
  }

  lemma LocksAreKept(table: Table, s: State, a: Action)
    requires Locks(table, s) && Next(table, s, a).Some?
    ensures Locks(table, Next(table, s, a).value)
  {
    hide RunThread, Fits, Table.Has;
    var s' := Next(table, s, a).value;
    match a
    case Run(r, gotMemory) =>
      RunnerIsOk(table, s, r, gotMemory);
      forall t | 0 <= t < |s'.threads| && t != r
        ensures ThreadOk(table, s', t)
      {
        assert ThreadOk(table, s, t);
      }
    case BeginSet(r, key, index, indexed, value) =>
      AcceptedFits(table, key, index, indexed, value);
      BeginnerIsOk(table, s, s', r);
    case BeginGet(r, _) =>
      BeginnerIsOk(table, s, s', r);
    case Save =>
      forall t | 0 <= t < |s'.threads|
        ensures ThreadOk(table, s', t)
      {
        assert ThreadOk(table, s, t);
      }
  }

  lemma AcceptedFits(table: Table, key: int, index: int, indexed: bool, value: Value)
    ensures Accepted(table, key, index, indexed, value).Some? ==>
              Fits(table, Update(Accepted(table, key, index, indexed, value).value, value))
  {
  }

  lemma BeginnerIsOk(table: Table, s: State, s': State, r: nat)
    requires Locks(table, s) && r < |s.threads| && s.threads[r].Idle? && |s'.threads| == |s.threads|
    requires s' == s.(threads := s.threads[r := s'.threads[r]])
    requires s'.threads[r].Idle? || (s'.threads[r].WantUpdate? && Fits(table, s'.threads[r].u))
          || (s'.threads[r].WantRead? && table.Has(s'.threads[r].slot))
    ensures Locks(table, s')
  {
    forall t | 0 <= t < |s'.threads|
      ensures ThreadOk(table, s', t)
    {
      assert ThreadOk(table, s, t);
    }
  }

  /** The save task takes the queue in order: only finishing an update takes it off the outstanding. */
  lemma SaverOutstanding(table: Table, s: State)
    requires RunSaver(table, s).Some?
    ensures var s' := RunSaver(table, s).value;
            Outstanding(s) == if s.saver.MainWritten? then [s.saver.u] + Outstanding(s') else Outstanding(s')
  {
    hide WriteMain, WriteLegacy;
    var s' := RunSaver(table, s).value;
    assert Pending(s') == Pending(s);
    if s.saver.Waiting? {
      assert [s.queue[0]] + (s.queue[1..] + Pending(s)) == [] + (s.queue + Pending(s));
    }
  }

  lemma TailOfTail(us: seq<Update>, n: nat, u: Update, rest: seq<Update>)
    requires n <= |us| && us[n..] == [u] + rest
    ensures n < |us| && us[n] == u && us[n + 1..] == rest
  {
    assert us[n] == us[n..][0];
    assert us[n + 1..] == us[n..][1..];
  }

  lemma FinishFollows(boot: Boot, s: State)
    requires Follows(boot, s) && s.saver.MainWritten?
    ensures Follows(boot, RunSaver(boot.table, s).value)
  {
    hide Fits, WriteMain, WriteLegacy, WriteAll, StoreAll, Outstanding;
    SaverOutstanding(boot.table, s);
    TailOfTail(s.stores, Saved(s), s.saver.u, Outstanding(RunSaver(boot.table, s).value));
    WriteOneMore(boot.table, boot.flash, s.stores, Saved(s));
  }

  /** Receiving an update moves it from the queue to the save task; its two writes bring it into flash whole. */
  lemma SaverFollows(boot: Boot, s: State)
    requires Follows(boot, s) && RunSaver(boot.table, s).Some?
    ensures Follows(boot, RunSaver(boot.table, s).value)
  {
    hide Fits, WriteMain, WriteLegacy, WriteAll, StoreAll, Outstanding;
    SaverOutstanding(boot.table, s);
    if s.saver.MainWritten? {
      FinishFollows(boot, s);
    }
  }

  lemma WriteOneMore(table: Table, flash: Flash, us: seq<Update>, n: nat)
    requires n < |us|
    ensures WriteAll(table, flash, us[..n + 1])
         == WriteLegacy(table, WriteMain(WriteAll(table, flash, us[..n]), us[n]), us[n])
  {
    assert us[..n + 1][..n] == us[..n];
  }

  lemma QuietStepFrame(s: State, t: nat, gotMemory: bool)
    requires t < |s.threads| && RunThread(s, t, gotMemory).Some? && |s.queue| <= QUEUE_LENGTH
    requires RunThread(s, t, gotMemory).value.stores == s.stores
    ensures var s' := RunThread(s, t, gotMemory).value;
            s'.cache == s.cache && s'.flash == s.flash && s'.saver == s.saver && |s'.queue| <= QUEUE_LENGTH
  {
  }

  /** A step that stores nothing moves at most one update, from its thread to the queue. */
  lemma QuietStepFollows(boot: Boot, s: State, t: nat, gotMemory: bool)
    requires Inv(boot, s) && t < |s.threads| && RunThread(s, t, gotMemory).Some?
    requires RunThread(s, t, gotMemory).value.stores == s.stores
    ensures Follows(boot, RunThread(s, t, gotMemory).value)
  {
    hide Fits, WriteAll, WriteMain, StoreAll, Outstanding, Locks, RunThread;
    QuietStepFrame(s, t, gotMemory);
    PendingIsQueued(boot.table, s, t, gotMemory);
  }

  /** A thread's step either stores and leaves one more outstanding, or moves it to the queue, or neither. */
  lemma ThreadFollows(boot: Boot, s: State, t: nat, gotMemory: bool)
    requires Inv(boot, s) && t < |s.threads| && RunThread(s, t, gotMemory).Some?
    ensures Follows(boot, RunThread(s, t, gotMemory).value)
  {
    hide Follows, Locks;
    if RunThread(s, t, gotMemory).value.stores == s.stores {
      QuietStepFollows(boot, s, t, gotMemory);
    } else {
      StoreFollows(boot, s, t);
    }
  }

  lemma PendingIsQueued(table: Table, s: State, t: nat, gotMemory: bool)
    requires Locks(table, s) && t < |s.threads| && RunThread(s, t, gotMemory).Some?
    requires RunThread(s, t, gotMemory).value.stores == s.stores
    ensures Outstanding(RunThread(s, t, gotMemory).value) == Outstanding(s)
  {
    assert ThreadOk(table, s, t);
    var s' := RunThread(s, t, gotMemory).value;
    assert s'.queue + Pending(s') == s.queue + Pending(s);
  }

  lemma StoreIsOutstanding(table: Table, s: State, t: nat)
    requires Locks(table, s) && t < |s.threads| && (s.threads[t].InCheck? || s.threads[t].InStore?)
    requires s.threads[t].u.slot.key < |s.isSet|
    ensures Outstanding(Store(s, t, s.threads[t].u)) == Outstanding(s) + [s.threads[t].u] && Fits(table, s.threads[t].u)
  {
    hide Fits;
    assert ThreadOk(table, s, t);
    assert s.threads[t].u in Carried(s.threads[t]);
    assert Pending(s) == [] && Pending(Store(s, t, s.threads[t].u)) == [s.threads[t].u];
  }

  lemma StoreFollows(boot: Boot, s: State, t: nat)
    requires Inv(boot, s) && t < |s.threads| && (s.threads[t].InCheck? || s.threads[t].InStore?)
    requires s.threads[t].u.slot.key < |s.isSet|
    ensures Follows(boot, Store(s, t, s.threads[t].u))
  {
    hide Fits, WriteAll, WriteMain, Locks, Outstanding;
    StoreIsOutstanding(boot.table, s, t);
    var s' := Store(s, t, s.threads[t].u);
    assert s'.stores[..|s.stores|] == s.stores;
    assert s'.stores[..Saved(s)] == s.stores[..Saved(s)];
  }

  lemma StepKeepsInv(boot: Boot, s: State, a: Action)
    requires Inv(boot, s) && Next(boot.table, s, a).Some?
    ensures Inv(boot, Next(boot.table, s, a).value)
  {
    hide Locks, Follows, WriteAll, StoreAll, Fits;
    LocksAreKept(boot.table, s, a);
    match a
    case BeginSet(_, _, _, _, _) => BeginFollows(boot, s, a);
    case BeginGet(_, _) => BeginFollows(boot, s, a);
    case Run(t, gotMemory) => ThreadFollows(boot, s, t, gotMemory);
    case Save => SaverFollows(boot, s);
  }

  lemma BeginFollows(boot: Boot, s: State, a: Action)
    requires Inv(boot, s) && Next(boot.table, s, a).Some? && (a.BeginSet? || a.BeginGet?)
    ensures Follows(boot, Next(boot.table, s, a).value)
  {
    hide Fits, WriteAll, WriteMain, StoreAll;
    assert ThreadOk(boot.table, s, a.t);
    assert Outstanding(Next(boot.table, s, a).value) == Outstanding(s);
  }

  // ----- Runs -----

  /** A run from start-up: each action enabled where it is taken. */
  function RunAll(table: Table, s: State, actions: seq<Action>): Option<State> {
    if actions == [] then Some(s)
    else
      match RunAll(table, s, actions[..|actions| - 1])
      case None => None
      case Some(before) => Next(table, before, actions[|actions| - 1])
  }

  function Start(boot: Boot, isSet: seq<bool>, threads: nat): State {
    State(boot.cache, isSet, [], boot.flash, Waiting, None, None, seq(threads, i => Idle), [])
  }

  lemma StartIsInv(boot: Boot, isSet: seq<bool>, threads: nat)
    requires boot.Ok() && |isSet| == |boot.table.settings|
    ensures Inv(boot, Start(boot, isSet, threads))
  {
  }

  lemma {:induction false} RunKeepsInv(boot: Boot, s: State, actions: seq<Action>)
    requires Inv(boot, s) && RunAll(boot.table, s, actions).Some?
    ensures Inv(boot, RunAll(boot.table, s, actions).value)
  {
    hide Inv, Next;
    if actions != [] {
      RunKeepsInv(boot, s, actions[..|actions| - 1]);
      StepKeepsInv(boot, RunAll(boot.table, s, actions[..|actions| - 1]).value, actions[|actions| - 1]);
    }
  }

  // ----- What one call does -----

  /** An idle thread can always call. Its setter call gets past the door exactly for a value of the setting's
      kind, in every entry of a string setting and in the first of any other; its getter call for any entry. */
  lemma DoorIsExact(table: Table, s: State, t: nat, key: int, index: int, indexed: bool, value: Value, slot: Slot)
    requires t < |s.threads| && s.threads[t].Idle?
    ensures var next := Next(table, s, BeginSet(t, key, index, indexed, value));
            && next.Some?
            && (next.value.threads[t] == WantUpdate(Update(slot, value)) <==>
                  && slot.key == key && slot.index == (if indexed then index else 0)
                  && key < |table.settings| && table.settings[slot.key].kind == value.Kind()
                  && (indexed ==> value.Str? && slot.index < table.settings[slot.key].size))
    ensures table.Has(slot) ==>
              var next := Next(table, s, BeginGet(t, slot)); next.Some? && next.value.threads[t] == WantRead(slot)
  {
  }

  /** The last store to a slot is this one. */
  predicate IsNewest(s: State, u: Update) {
    exists n :: 0 <= n < |s.stores| && s.stores[n] == u && forall m :: n < m < |s.stores| ==> s.stores[m].slot != u.slot
  }

  predicate WasThere(s: State, u: Update) {
    u.slot in s.cache && s.cache[u.slot] == u.value && u.slot.key < |s.isSet| && s.isSet[u.slot.key]
  }

  /** At some instant of a run an update was the newest store to its slot, or what it would store was there and
      marked as set, or its caller was refused the memory for a string. */
  predicate TookEffect(table: Table, s: State, actions: seq<Action>, t: nat, u: Update) {
    var now := RunAll(table, s, actions);
    && now.Some?
    && (|| IsNewest(now.value, u) || WasThere(now.value, u)
        || (actions != [] &&
            (|| TookEffect(table, s, actions[..|actions| - 1], t, u)
             || (u.value.Str? && actions[|actions| - 1] == Run(t, false) &&
                 IsAt(RunAll(table, s, actions[..|actions| - 1]), t, Allocating(u))))))
  }

  predicate IsAt(s: Option<State>, t: nat, at: Thread) {
    s.Some? && t < |s.value.threads| && s.value.threads[t] == at
  }

  /** A thread has been in a call ever since, up to the last step at least. */
  predicate StaysInCall(table: Table, s: State, actions: seq<Action>, t: nat) {
    actions != [] ==>
      && !IsAt(RunAll(table, s, actions[..|actions| - 1]), t, Idle)
      && StaysInCall(table, s, actions[..|actions| - 1], t)
  }

  /** One step of any thread takes a setter one stage on, or leaves it where it is. */
  lemma StepOfSetter(table: Table, s: State, a: Action, t: nat, u: Update)
    requires Next(table, s, a).Some? && t < |s.threads|
    requires s.threads[t] in {WantUpdate(u), Checking(u), InCheck(u), Allocating(u), Storing(u), InStore(u), Sending(u),
                              Leaving}
    ensures var s' := Next(table, s, a).value;
            && t < |s'.threads|
            && (s.threads[t] in {Sending(u), Leaving} ==> s'.threads[t] in {Sending(u), Leaving, Idle})
            && (s.threads[t] !in {Sending(u), Leaving} ==>
                  || s'.threads[t] in {WantUpdate(u), Checking(u), InCheck(u), Allocating(u), Storing(u), InStore(u)}
                  || (s'.threads[t] in {Sending(u), Leaving} &&
                      (IsNewest(s', u) || WasThere(s', u) || (s.threads[t] == Allocating(u) && a == Run(t, false)))))
  {
    hide IsNewest;
    if a.Run? && a.t == t && s.threads[t] != Leaving {
      StoredIsNewest(s, t, u);
    }
  }

  lemma StoredIsNewest(s: State, t: nat, u: Update)
    requires t < |s.threads|
    ensures u.slot.key < |s.isSet| ==> IsNewest(Store(s, t, u), u)
  {
    if u.slot.key < |s.isSet| {
      var stores := Store(s, t, u).stores;
      assert stores[|s.stores|] == u;
    }
  }

  lemma OnlyStringsAllocate(table: Table, s: State, a: Action, t: nat, u: Update)
    requires Next(table, s, a).Some? && t < |s.threads| && s.threads[t] != Allocating(u)
    ensures t < |Next(table, s, a).value.threads| &&
              (Next(table, s, a).value.threads[t] == Allocating(u) ==> u.value.Str?)
  {
  }

  lemma {:induction false} SetterSoFar(table: Table, s: State, actions: seq<Action>, t: nat, u: Update)
    requires RunAll(table, s, actions).Some? && t < |s.threads| && s.threads[t] == WantUpdate(u)
    requires StaysInCall(table, s, actions, t)
    ensures var now := RunAll(table, s, actions).value;
            && t < |now.threads|
            && (now.threads[t] == Allocating(u) ==> u.value.Str?)
            && (|| now.threads[t] in {WantUpdate(u), Checking(u), InCheck(u), Allocating(u), Storing(u), InStore(u)}
                || (now.threads[t] in {Sending(u), Leaving, Idle} && TookEffect(table, s, actions, t, u)))
  {
    hide Next, IsNewest, WasThere;
    if actions != [] {
      var n := |actions| - 1;
      var before := RunAll(table, s, actions[..n]).value;
      SetterSoFar(table, s, actions[..n], t, u);
      StepOfSetter(table, before, actions[n], t, u);
      if before.threads[t] != Allocating(u) {
        OnlyStringsAllocate(table, before, actions[n], t, u);
      }
    }
  }

  /** A set call that has come to its end took effect at some instant of it: its value was then the newest
      stored in its slot, or was found there and set; or it is a string's and got no memory. */
  lemma SetTakesEffect(table: Table, s: State, actions: seq<Action>, t: nat, u: Update)
    requires RunAll(table, s, actions).Some? && t < |s.threads| && s.threads[t] == WantUpdate(u)
    requires StaysInCall(table, s, actions, t)
    requires var now := RunAll(table, s, actions); IsAt(now, t, Leaving) || IsAt(now, t, Idle)
    ensures TookEffect(table, s, actions, t, u)
  {
    SetterSoFar(table, s, actions, t, u);
  }

  /** At some instant of a run a slot's cached value was this one. */
  predicate WasCached(table: Table, s: State, actions: seq<Action>, slot: Slot, value: Value) {
    var now := RunAll(table, s, actions);
    && now.Some?
    && (|| (slot in now.value.cache && now.value.cache[slot] == value)
        || (actions != [] && WasCached(table, s, actions[..|actions| - 1], slot, value)))
  }

  lemma StepOfGetter(table: Table, s: State, a: Action, t: nat, slot: Slot)
    requires Next(table, s, a).Some? && t < |s.threads|
    requires s.threads[t] == WantRead(slot) || s.threads[t] == Reading(slot) || s.threads[t].GotValue?
    ensures var s' := Next(table, s, a).value;
            && t < |s'.threads|
            && (s.threads[t].GotValue? ==> s'.threads[t] == s.threads[t] || s'.threads[t] == Idle)
            && (!s.threads[t].GotValue? ==>
                  || s'.threads[t] == WantRead(slot) || s'.threads[t] == Reading(slot)
                  || (s'.threads[t].GotValue? && slot in s'.cache && s'.cache[slot] == s'.threads[t].value))
  {
  }

  /** What a get call returns was, at an instant of the call, the cached value of the slot it asks for. */
  lemma {:induction false} GetReturnsCached(table: Table, s: State, actions: seq<Action>, t: nat, slot: Slot)
    requires RunAll(table, s, actions).Some? && t < |s.threads| && s.threads[t] == WantRead(slot)
    requires StaysInCall(table, s, actions, t)
    ensures var now := RunAll(table, s, actions).value;
            && t < |now.threads|
            && (now.threads[t] == WantRead(slot) || now.threads[t] == Reading(slot) || now.threads[t].GotValue? ||
                now.threads[t] == Idle)
            && (now.threads[t].GotValue? ==> WasCached(table, s, actions, slot, now.threads[t].value))
  {
    hide Next;
    if actions != [] {
      var n := |actions| - 1;
      GetReturnsCached(table, s, actions[..n], t, slot);
      StepOfGetter(table, RunAll(table, s, actions[..n]).value, actions[n], t, slot);
    }
  }

  /** A setting counts as set if start-up found it so or anything was ever stored in it. */
  predicate MarksStores(isSet: seq<bool>, s: State) {
    |s.isSet| == |isSet| && forall k :: 0 <= k < |isSet| ==> (s.isSet[k] <==> isSet[k] || IsStored(s.stores, k))
  }

  predicate IsStored(stores: seq<Update>, key: nat) {
    exists n :: 0 <= n < |stores| && stores[n].slot.key == key
  }

  lemma {:induction false} SetMeansStored(boot: Boot, isSet: seq<bool>, threads: nat, actions: seq<Action>)
    requires RunAll(boot.table, Start(boot, isSet, threads), actions).Some?
    ensures MarksStores(isSet, RunAll(boot.table, Start(boot, isSet, threads), actions).value)
  {
    hide Next, MarksStores;
    if actions == [] {
      NothingMarked(boot, isSet, threads);
    } else {
      var n := |actions| - 1;
      SetMeansStored(boot, isSet, threads, actions[..n]);
      StepMarksStores(boot.table, isSet, RunAll(boot.table, Start(boot, isSet, threads), actions[..n]).value,
          actions[n]);
    }
  }

  lemma NothingMarked(boot: Boot, isSet: seq<bool>, threads: nat)
    ensures MarksStores(isSet, Start(boot, isSet, threads))
  {
  }

  lemma StepMarksStores(table: Table, isSet: seq<bool>, s: State, a: Action)
    requires MarksStores(isSet, s) && Next(table, s, a).Some?
    ensures MarksStores(isSet, Next(table, s, a).value)
  {
    hide IsStored;
    var s' := Next(table, s, a).value;
    if s'.stores != s.stores {
      MoreStored(s.stores, s'.stores[|s.stores|]);
    }
  }

  lemma MoreStored(stores: seq<Update>, u: Update)
    ensures forall k :: IsStored(stores + [u], k) <==> IsStored(stores, k) || k == u.slot.key
  {
    assert (stores + [u])[|stores|] == u;
    forall k | IsStored(stores, k)
      ensures IsStored(stores + [u], k)
    {
      var n :| 0 <= n < |stores| && stores[n].slot.key == k;
      assert (stores + [u])[n] == stores[n];
    }
  }

  lemma {:induction false} WriteAllSplits(table: Table, flash: Flash, us: seq<Update>, vs: seq<Update>)
    ensures WriteAll(table, flash, us + vs) == WriteAll(table, WriteAll(table, flash, us), vs)
  {
    if vs == [] {
      assert us + vs == us;
    } else {
      WriteAllSplits(table, flash, us, vs[..|vs| - 1]);
      assert (us + vs)[..|us + vs| - 1] == us + vs[..|vs| - 1];
    }
  }

  /** Writing an update's main key first does not change what writing it and the rest leaves. */
  lemma RewriteIsIdempotent(table: Table, flash: Flash, us: seq<Update>)
    requires us != []
    ensures WriteAll(table, WriteMain(flash, us[0]), us) == WriteAll(table, flash, us)
  {
    assert us == [us[0]] + us[1..];
    WriteAllSplits(table, WriteMain(flash, us[0]), [us[0]], us[1..]);
    WriteAllSplits(table, flash, [us[0]], us[1..]);
    WriteAllOfOne(table, WriteMain(flash, us[0]), us[0]);
    WriteAllOfOne(table, flash, us[0]);
    assert WriteMain(WriteMain(flash, us[0]), us[0]) == WriteMain(flash, us[0]);
  }

  lemma WriteAllOfOne(table: Table, flash: Flash, u: Update)
    ensures WriteAll(table, flash, [u]) == Write(table, flash, u)
  {
    assert [u][..0] == [];
    assert WriteAll(table, flash, [][..]) == flash;
  }

  /** Flash plus everything still on its way to it is all the stores, in order. */
  lemma FlashCatchesUp(boot: Boot, s: State)
    requires Follows(boot, s)
    ensures WriteAll(boot.table, s.flash, Outstanding(s)) == WriteAll(boot.table, boot.flash, s.stores)
  {
    hide WriteAll, WriteMain, Fits;
    var n := Saved(s);
    assert s.stores == s.stores[..n] + Outstanding(s);
    WriteAllSplits(boot.table, boot.flash, s.stores[..n], Outstanding(s));
    if s.saver.MainWritten? {
      RewriteIsIdempotent(boot.table, WriteAll(boot.table, boot.flash, s.stores[..n]), Outstanding(s));
    }
  }

  /** Write-behind agreement: in every state of every run, a reload of flash and the outstanding
      updates gives exactly the cache, an empty string standing for its default. */
  lemma ReloadOfEverythingIsCache(boot: Boot, isSet: seq<bool>, threads: nat, actions: seq<Action>, slot: Slot)
    requires boot.Ok() && |isSet| == |boot.table.settings| && boot.table.Has(slot)
    requires RunAll(boot.table, Start(boot, isSet, threads), actions).Some?
    ensures var s := RunAll(boot.table, Start(boot, isSet, threads), actions).value;
            && slot in s.cache
            && Reload(boot.table, WriteAll(boot.table, s.flash, Outstanding(s)), slot)
                == boot.table.Normal(slot, s.cache[slot])
  {
    hide RunAll, WriteAll, StoreAll, Outstanding, Start, Locks;
    var s := RunAll(boot.table, Start(boot, isSet, threads), actions).value;
    StartIsInv(boot, isSet, threads);
    RunKeepsInv(boot, Start(boot, isSet, threads), actions);
    FlashCatchesUp(boot, s);
    WritesFollowStores(boot.table, boot.flash, boot.cache, s.stores);
  }

  /** Losing power at any moment: what a reload then finds is the cache as it was after some of the
      stores, missing at most the ones still outstanding. No update is torn or reordered. */
  lemma PowerLossIsAPastCache(boot: Boot, s: State)
    requires boot.Ok() && Inv(boot, s)
    ensures exists n :: && |s.stores| - |Outstanding(s)| <= n <= |s.stores|
              && Agrees(boot.table, s.flash, StoreAll(boot.cache, s.stores[..n]))
  {
    hide WriteAll, StoreAll, Agrees, Fits, WriteMain, Locks;
    var n := Saved(s);
    WritesFollowStores(boot.table, boot.flash, boot.cache, s.stores[..n]);
    if s.saver.MainWritten? {
      assert s.stores[n] == s.stores[n..][0] == s.saver.u;
      WriteFollowsStore(boot.table, WriteAll(boot.table, boot.flash, s.stores[..n]),
          StoreAll(boot.cache, s.stores[..n]), s.saver.u);
      StoreOneMore(boot.cache, s.stores, n);
      assert Agrees(boot.table, s.flash, StoreAll(boot.cache, s.stores[..n + 1]));
    } else {
      assert Agrees(boot.table, s.flash, StoreAll(boot.cache, s.stores[..n]));
    }
  }

  lemma StoreOneMore(cache: Cache, us: seq<Update>, n: nat)
    requires n < |us|
    ensures StoreAll(cache, us[..n + 1]) == StoreAll(cache, us[..n])[us[n].slot := us[n].value]
  {
    assert us[..n + 1][..n] == us[..n];
  }

  // ----- No deadlock, and every run without new calls drains -----

  function Rank(t: Thread): nat {
    match t
    case Idle => 0 case WantUpdate(_) => 11 case Checking(_) => 10 case InCheck(_) => 9 case Allocating(_) => 8
    case Storing(_) => 7 case InStore(_) => 6 case Sending(_) => 5 case Leaving => 1
    case WantRead(_) => 3 case Reading(_) => 2 case GotValue(_) => 1
  }

  function Ranks(ts: seq<Thread>): nat {
    if ts == [] then 0 else Ranks(ts[..|ts| - 1]) + Rank(ts[|ts| - 1])
  }

  /** What is left to do. Every step but a new call takes some of it away. */
  function Work(s: State): nat {
    Ranks(s.threads) + 3 * |s.queue| + (match s.saver case Waiting => 0 case Took(_) => 2 case MainWritten(_) => 1)
  }

  lemma {:induction false} RanksUpdate(ts: seq<Thread>, t: nat, x: Thread)
    requires t < |ts|
    ensures Ranks(ts[t := x]) == Ranks(ts) - Rank(ts[t]) + Rank(x)
  {
    if t == |ts| - 1 {
      assert ts[t := x][..t] == ts[..t];
    } else {
      RanksUpdate(ts[..|ts| - 1], t, x);
      assert ts[t := x][..|ts| - 1] == ts[..|ts| - 1][t := x];
    }
  }

  lemma StepTakesWork(table: Table, s: State, a: Action)
    requires (a.Run? || a.Save?) && Next(table, s, a).Some?
    ensures Work(Next(table, s, a).value) < Work(s)
  {
    hide Ranks;
    if a.Run? {
      RanksUpdate(s.threads, a.t, Next(table, s, a).value.threads[a.t]);
    }
  }

  /** Nothing in flight, queued or being called. */
  predicate AtRest(s: State) {
    s.saver.Waiting? && s.queue == [] && forall t :: 0 <= t < |s.threads| ==> s.threads[t].Idle?
  }

  lemma CacheCoversTable(boot: Boot, s: State)
    requires boot.Ok() && Follows(boot, s)
    ensures forall slot :: boot.table.Has(slot) ==> slot in s.cache
  {
    hide Fits, WriteAll, StoreAll, Outstanding;
    WritesFollowStores(boot.table, boot.flash, boot.cache, s.stores);
  }

  /** Whoever holds the cache mutex waits for nothing; whoever holds the update mutex waits only for
      the cache mutex and a place in the queue; anyone else only for a mutex. */
  lemma OwnersRun(table: Table, s: State, t: nat)
    requires Locks(table, s) && t < |s.threads| && !s.threads[t].Idle?
    requires forall slot :: table.Has(slot) ==> slot in s.cache
    requires s.cacheOwner == Some(t)
          || (s.cacheOwner == None && s.updateOwner == Some(t) && |s.queue| < QUEUE_LENGTH)
          || (s.cacheOwner == None && s.updateOwner == None)
    ensures RunThread(s, t, true).Some?
  {
    hide Store;
    assert ThreadOk(table, s, t);
    assert forall u :: u in Carried(s.threads[t]) ==> table.Has(u.slot);
    if s.threads[t].InCheck? || s.threads[t].InStore? {
      assert s.threads[t].u in Carried(s.threads[t]);
    }
  }

  /** No deadlock: unless all is at rest, the save task or some caller can take a step. */
  lemma NeverStuck(boot: Boot, s: State)
    requires boot.Ok() && Inv(boot, s) && !AtRest(s)
    ensures exists a: Action :: (a.Run? || a.Save?) && Next(boot.table, s, a).Some?
  {
    hide RunThread, Fits, ThreadOk, Carried, Follows;
    if !s.saver.Waiting? || s.queue != [] {
      assert Next(boot.table, s, Save).Some?;
    } else {
      var idler :| 0 <= idler < |s.threads| && !s.threads[idler].Idle?;
      var t := if s.cacheOwner.Some? then s.cacheOwner.value else if s.updateOwner.Some? then s.updateOwner.value
          else idler;
      CacheCoversTable(boot, s);
      OwnerIsBusy(boot.table, s, t);
      OwnersRun(boot.table, s, t);
      assert Next(boot.table, s, Run(t, true)).Some?;
    }
  }

  lemma OwnerIsBusy(table: Table, s: State, t: nat)
    requires Locks(table, s) && t < |s.threads| &&
               (s.cacheOwner == Some(t) || s.updateOwner == Some(t) || !s.threads[t].Idle?)
    ensures !s.threads[t].Idle?
  {
    assert ThreadOk(table, s, t);
  }

  /** A run without new calls takes at most as many steps as there is work. */
  lemma {:induction false} DrainIsBounded(table: Table, s: State, actions: seq<Action>)
    requires RunAll(table, s, actions).Some? && forall i :: 0 <= i < |actions| ==> actions[i].Run? || actions[i].Save?
    ensures |actions| + Work(RunAll(table, s, actions).value) <= Work(s)
  {
    hide Work, Next;
    if actions != [] {
      var n := |actions| - 1;
      DrainIsBounded(table, s, actions[..n]);
      StepTakesWork(table, RunAll(table, s, actions[..n]).value, actions[n]);
    }
  }

  /** Once everything is at rest, flash itself reloads as the cache. */
  lemma RestIsSaved(boot: Boot, s: State)
    requires boot.Ok() && Inv(boot, s) && AtRest(s)
    ensures Agrees(boot.table, s.flash, s.cache)
  {
    hide WriteAll, StoreAll, Fits, Agrees;
    assert Outstanding(s) == [] by {
      if s.updateOwner.Some? {
        assert ThreadOk(boot.table, s, s.updateOwner.value);
      }
    }
    assert s.stores[..|s.stores|] == s.stores;
    WritesFollowStores(boot.table, boot.flash, boot.cache, s.stores);
  }
}
