/** The bounded cache of generated leaf configurations and the double-checked protocol that
    fills it while the lock is dropped for certificate generation. */
module LeafCache {
  import opened Common

  datatype Key = Key(host: string, alpn: Option<Bytes>)

  /** A generated server configuration, remembering the key it was generated for. */
  datatype Config = Config(subject: Key, serial: nat)

  datatype Cache = Cache(capacity: nat, entries: map<Key, Config>, recency: seq<Key>)

  function Members(s: seq<Key>): set<Key> {
    set k | k in s
  }

  /** What the two structures owe each other. */
  predicate Coherent(c: Cache) {
    && Distinct(c.recency) && Members(c.recency) == c.entries.Keys && |c.entries| <= c.capacity
  }

  // ---- Operations ----

  function Without(s: seq<Key>, key: Key): seq<Key> {
    if s == [] then []
    else
      var last := s[|s| - 1];
      if last == key then Without(s[..|s| - 1], key) else Without(s[..|s| - 1], key) + [last]
  }

  function Touched(c: Cache, key: Key): Cache {
    if key in c.entries then c.(recency := Without(c.recency, key) + [key]) else c
  }

  function Evicted(c: Cache): Cache {
    if |c.entries| == c.capacity && c.recency != []
    then c.(entries := c.entries - {c.recency[0]}, recency := c.recency[1..]) else c
  }

  function Inserted(c: Cache, key: Key, config: Config): Cache {
    if c.capacity == 0 then c
    else
      var room := Evicted(c);
      room.(entries := room.entries[key := config], recency := room.recency + [key])
  }

  /** The cache as the program holds it. */
  class LeafCacheTable {
    const capacity: nat
    var entries: map<Key, Config>
    var recency: seq<Key>

    function State(): Cache
      reads this
    {
      Cache(capacity, entries, recency)
    }

    constructor (capacity: nat)
      ensures State() == Cache(capacity, map[], []) && Coherent(State())
    {
      this.capacity := capacity;
      entries, recency := map[], [];
    }

    /** A hit makes the entry the most recent. */
    method Get(key: Key) returns (r: Option<Config>)
      modifies this
      ensures r == if key in old(entries) then Some(old(entries)[key]) else None
      ensures State() == Touched(old(State()), key)
    {
      if key !in entries {
        return None;
      }
      var kept := [];
      for i := 0 to |recency|
        invariant kept == Without(recency[..i], key) && State() == old(State())
      {
        assert recency[..i + 1][..i] == recency[..i];
        if recency[i] != key {
          kept := kept + [recency[i]];
        }
      }
      assert recency[..|recency|] == recency;
      recency := kept + [key];
      r := Some(entries[key]);
    }

    /** Makes room by dropping the least recent entry, then adds the new one as the most recent. */
    method Insert(key: Key, config: Config)
      modifies this
      ensures State() == Inserted(old(State()), key, config)
    {
      if capacity == 0 {
        return;
      }
      if |entries| == capacity && recency != [] {
        entries := entries - {recency[0]};
        recency := recency[1..];
      }
      recency := recency + [key];
      entries := entries[key := config];
    }
  }

  // ---- What insertion needs of its caller ----

  lemma {:induction false} DistinctCount(s: seq<Key>)
    requires Distinct(s)
    ensures |Members(s)| == |s|
  {
    if s != [] {
      var front, last := s[..|s| - 1], s[|s| - 1];
      DistinctCount(front);
      assert Members(s) == Members(front) + {last};
      assert last !in front;
    }
  }

  lemma RecencyCounts(c: Cache)
    requires Coherent(c)
    ensures |c.recency| == |c.entries|
  {
    DistinctCount(c.recency);
    assert |c.entries| == |c.entries.Keys|;
  }

  lemma TailMembers(s: seq<Key>)
    requires Distinct(s) && s != []
    ensures Distinct(s[1..]) && Members(s[1..]) == Members(s) - {s[0]}
  {
  }

  lemma DropOne(entries: map<Key, Config>, key: Key)
    requires key in entries
    ensures (entries - {key}).Keys == entries.Keys - {key} && |entries - {key}| == |entries| - 1
  {
  }

  lemma EvictedCoherent(c: Cache)
    requires Coherent(c) && c.capacity > 0
    ensures Coherent(Evicted(c)) && |Evicted(c).entries| < c.capacity
    ensures |c.entries| == c.capacity ==>
              c.recency != [] && Evicted(c).entries.Keys == c.entries.Keys - {c.recency[0]}
    ensures |c.entries| < c.capacity ==> Evicted(c) == c
  {
    RecencyCounts(c);
    if |c.entries| == c.capacity {
      TailMembers(c.recency);
      assert c.recency[0] in Members(c.recency);
      DropOne(c.entries, c.recency[0]);
    }
  }

  lemma AppendKey(s: seq<Key>, key: Key)
    requires Distinct(s)
    ensures Distinct(s + [key]) <==> key !in s
    ensures Members(s + [key]) == Members(s) + {key}
  {
    if key in s {
      var i :| 0 <= i < |s| && s[i] == key;
      assert (s + [key])[i] == (s + [key])[|s|];
    }
  }

  lemma GrowOne(entries: map<Key, Config>, key: Key, config: Config)
    requires key !in entries
    ensures entries[key := config].Keys == entries.Keys + {key} && |entries[key := config]| == |entries| + 1
  {
  }

  lemma AddOne(room: Cache, key: Key, config: Config)
    requires Coherent(room) && |room.entries| < room.capacity
    ensures Coherent(room.(entries := room.entries[key := config], recency := room.recency + [key]))
            <==> key !in room.entries
  {
    AppendKey(room.recency, key);
    if key in room.entries {
      assert key in Members(room.recency);
    } else {
      assert key !in Members(room.recency);
      GrowOne(room.entries, key, config);
    }
  }

  /** Inserting keeps the structures coherent exactly when the key is absent, or is the very entry
      about to be dropped for it, or nothing is ever cached. */
  lemma InsertCoherentIff(c: Cache, key: Key, config: Config)
    requires Coherent(c)
    ensures Coherent(Inserted(c, key, config)) <==>
            || c.capacity == 0
            || key !in c.entries
            || (|c.entries| == c.capacity && c.recency != [] && c.recency[0] == key)
  {
    RecencyCounts(c);
    if c.capacity > 0 {
      EvictedCoherent(c);
      AddOne(Evicted(c), key, config);
    }
  }

  /** Inserting a key that is cached already breaks the cache: its recency list then holds it twice. */
  lemma InsertTwiceBreaks(host: string)
    ensures var key := Key(host, None);
            var once := Inserted(Cache(2, map[], []), key, Config(key, 0));
            Coherent(once) && !Coherent(Inserted(once, key, Config(key, 1)))
  {
    var key := Key(host, None);
    var empty := Cache(2, map[], []);
    InsertCoherentIff(empty, key, Config(key, 0));
    var once := Inserted(empty, key, Config(key, 0));
    assert once.entries == map[key := Config(key, 0)];
    InsertCoherentIff(once, key, Config(key, 1));
  }

  lemma {:induction false} WithoutMembers(s: seq<Key>, key: Key)
    requires Distinct(s)
    ensures Distinct(Without(s, key)) && Members(Without(s, key)) == Members(s) - {key}
  {
    if s != [] {
      var front, last := s[..|s| - 1], s[|s| - 1];
      WithoutMembers(front, key);
      assert Members(s) == Members(front) + {last};
      assert last !in front;
      assert last !in Members(Without(front, key));
      AppendKey(Without(front, key), last);
    }
  }

  lemma TouchedCoherent(c: Cache, key: Key)
    requires Coherent(c)
    ensures Coherent(Touched(c, key))
  {
    if key in c.entries {
      WithoutMembers(c.recency, key);
      assert key !in Members(Without(c.recency, key));
      AppendKey(Without(c.recency, key), key);
    }
  }

  // ---- The reference: entries stamped with the time of their last use ----

  datatype Stamped = Stamped(config: Config, used: nat)

  datatype Lru = Lru(capacity: nat, clock: nat, store: map<Key, Stamped>)

  predicate LeastRecent(l: Lru, victim: Key) {
    victim in l.store && forall k | k in l.store :: l.store[victim].used <= l.store[k].used
  }

  function Used(l: Lru, key: Key, config: Config): Lru {
    l.(store := l.store[key := Stamped(config, l.clock)], clock := l.clock + 1)
  }

  datatype Action = Nothing | Use(key: Key) | Add(key: Key, config: Config)

  /** An LRU map's moves: a use stamps the entry, and adding to a full map first drops the entry
      whose last use is oldest. */
  ghost predicate LruMoves(before: Lru, action: Action, after: Lru) {
    match action
    case Nothing => after == before
    case Use(key) => key in before.store && after == Used(before, key, before.store[key].config)
    case Add(key, config) =>
      if before.capacity == 0 then after == before
      else if |before.store| < before.capacity then after == Used(before, key, config)
      else exists victim ::
             LeastRecent(before, victim) && after == Used(before.(store := before.store - {victim}), key, config)
  }

  /** Uses recorded by `recency` happened in that order. */
  predicate InOrder(store: map<Key, Stamped>, s: seq<Key>) {
    && (forall i | 0 <= i < |s| :: s[i] in store)
    && (forall i, j | 0 <= i < j < |s| :: store[s[i]].used < store[s[j]].used)
  }

  predicate SameContents(entries: map<Key, Config>, store: map<Key, Stamped>) {
    entries.Keys == store.Keys && forall k | k in entries :: entries[k] == store[k].config
  }

  predicate Past(l: Lru) {
    forall k | k in l.store :: l.store[k].used < l.clock
  }

  predicate Represents(c: Cache, l: Lru) {
    && Coherent(c) && c.capacity == l.capacity
    && SameContents(c.entries, l.store) && InOrder(l.store, c.recency) && Past(l)
  }

  lemma {:induction false} WithoutInOrder(store: map<Key, Stamped>, s: seq<Key>, key: Key)
    requires InOrder(store, s)
    ensures InOrder(store, Without(s, key))
    ensures forall k | k in Without(s, key) :: k in s && k != key
  {
    if s != [] {
      var front, last := s[..|s| - 1], s[|s| - 1];
      WithoutInOrder(store, front, key);
      forall k | k in Without(front, key) ensures k in s && store[k].used < store[last].used {
        var i :| 0 <= i < |front| && front[i] == k;
        assert s[i] == k;
      }
    }
  }

  /** Stamping a key with the present time puts it last. */
  lemma StampedLast(l: Lru, s: seq<Key>, key: Key, config: Config)
    requires InOrder(l.store, s) && Past(l) && key !in s
    ensures InOrder(Used(l, key, config).store, s + [key])
  {
  }

  lemma UsedContents(entries: map<Key, Config>, l: Lru, key: Key, config: Config)
    requires SameContents(entries, l.store) && Past(l)
    ensures SameContents(entries[key := config], Used(l, key, config).store) && Past(Used(l, key, config))
  {
  }

  lemma DroppedContents(entries: map<Key, Config>, l: Lru, key: Key)
    requires SameContents(entries, l.store) && Past(l)
    ensures SameContents(entries - {key}, l.store - {key}) && Past(l.(store := l.store - {key}))
  {
  }

  lemma TailInOrder(store: map<Key, Stamped>, s: seq<Key>)
    requires InOrder(store, s) && s != []
    ensures InOrder(store - {s[0]}, s[1..])
  {
  }

  lemma UseRefines(c: Cache, l: Lru, key: Key)
    requires Represents(c, l) && key in c.entries
    ensures Represents(Touched(c, key), Used(l, key, l.store[key].config))
  {
    TouchedCoherent(c, key);
    WithoutInOrder(l.store, c.recency, key);
    StampedLast(l, Without(c.recency, key), key, l.store[key].config);
    UsedContents(c.entries, l, key, l.store[key].config);
    assert c.entries[key := l.store[key].config] == c.entries;
  }

  lemma OldestIsLeastRecent(c: Cache, l: Lru)
    requires Represents(c, l) && c.recency != []
    ensures LeastRecent(l, c.recency[0])
  {
  }

  lemma EvictRefines(c: Cache, l: Lru)
    requires Represents(c, l) && c.capacity > 0
    ensures Represents(Evicted(c), if |c.entries| == c.capacity && c.recency != []
                                   then l.(store := l.store - {c.recency[0]}) else l)
  {
    EvictedCoherent(c);
    if |c.entries| == c.capacity && c.recency != [] {
      DroppedContents(c.entries, l, c.recency[0]);
      TailInOrder(l.store, c.recency);
    }
  }

  lemma SameSize(entries: map<Key, Config>, store: map<Key, Stamped>)
    requires entries.Keys == store.Keys
    ensures |entries| == |store|
  {
  }

  lemma AddToRoomRefines(room: Cache, l: Lru, key: Key, config: Config)
    requires Represents(room, l) && |room.entries| < room.capacity && key !in room.entries
    ensures Represents(
              room.(entries := room.entries[key := config], recency := room.recency + [key]), Used(l, key, config))
  {
    AddOne(room, key, config);
    assert key !in Members(room.recency);
    StampedLast(l, room.recency, key, config);
    UsedContents(room.entries, l, key, config);
  }

  lemma AddRefines(c: Cache, l: Lru, key: Key, config: Config) returns (after: Lru)
    requires Represents(c, l) && key !in c.entries
    ensures LruMoves(l, Add(key, config), after) && Represents(Inserted(c, key, config), after)
  {
    SameSize(c.entries, l.store);
    if c.capacity == 0 {
      after := l;
    } else {
      RecencyCounts(c);
      EvictedCoherent(c);
      EvictRefines(c, l);
      var room := if |c.entries| == c.capacity then l.(store := l.store - {c.recency[0]}) else l;
      AddToRoomRefines(Evicted(c), room, key, config);
      after := Used(room, key, config);
      if |c.entries| == c.capacity {
        OldestIsLeastRecent(c, l);
      }
    }
  }

  // ---- Concurrent callers ----

  datatype Caller =
    | Idle
    | Looking(key: Key)
    | Generating(key: Key)
    | Generated(key: Key, config: Config)
    | Served(key: Key, config: Config, hit: bool)
    | Refused(key: Key)

  datatype System = System(cache: Cache, callers: map<nat, Caller>)

  /** One step of one caller. Lookups and insertion happen under the lock, generation does not. */
  datatype Event =
    | Call(caller: nat, key: Key)
    | FirstLookup(caller: nat)
    | Generate(caller: nat, serial: Option<nat>)
    | Publish(caller: nat)
    | LockPoisoned(caller: nat)

  function CallerOf(s: System, id: nat): Caller {
    if id in s.callers then s.callers[id] else Idle
  }

  function Becomes(s: System, id: nat, caller: Caller): System {
    s.(callers := s.callers[id := caller])
  }

  predicate Enabled(s: System, e: Event) {
    var caller := CallerOf(s, e.caller);
    match e
    case Call(_, _) => caller.Idle?
    case FirstLookup(_) => caller.Looking?
    case Generate(_, _) => caller.Generating?
    case Publish(_) => caller.Generated?
    case LockPoisoned(_) => caller.Looking? || caller.Generated?
  }

  function Step(s: System, e: Event): System
    requires Enabled(s, e)
  {
    var caller := CallerOf(s, e.caller);
    match e
    case Call(id, key) => Becomes(s, id, Looking(key))
    case FirstLookup(id) =>
      if caller.key in s.cache.entries
      then Becomes(s.(cache := Touched(s.cache, caller.key)), id,
                   Served(caller.key, s.cache.entries[caller.key], true))
      else Becomes(s, id, Generating(caller.key))
    case Generate(id, serial) =>
      if serial.Some? then Becomes(s, id, Generated(caller.key, Config(caller.key, serial.value)))
      else Becomes(s, id, Refused(caller.key))
    case Publish(id) =>
      if caller.key in s.cache.entries
      then Becomes(s.(cache := Touched(s.cache, caller.key)), id,
                   Served(caller.key, s.cache.entries[caller.key], true))
      else Becomes(s.(cache := Inserted(s.cache, caller.key, caller.config)), id,
                   Served(caller.key, caller.config, false))
    case LockPoisoned(id) => Becomes(s, id, Refused(caller.key))
  }

  /** What a step does to the cache, as the reference sees it. */
  function ActionOf(s: System, e: Event): Action
    requires Enabled(s, e)
  {
    var caller := CallerOf(s, e.caller);
    if e.FirstLookup? && caller.key in s.cache.entries then Use(caller.key)
    else if e.Publish? then
      if caller.key in s.cache.entries then Use(caller.key) else Add(caller.key, caller.config)
    else Nothing
  }

  /** Steps that are not enabled do not happen. */
  function Next(s: System, e: Event): System {
    if Enabled(s, e) then Step(s, e) else s
  }

  function Run(capacity: nat, events: seq<Event>): System {
    if events == [] then System(Cache(capacity, map[], []), map[])
    else Next(Run(capacity, events[..|events| - 1]), events[|events| - 1])
  }

  /** Every cached configuration was generated for the key it is cached under. */
  predicate Genuine(entries: map<Key, Config>) {
    forall k | k in entries :: entries[k].subject == k
  }

  predicate Honest(caller: Caller) {
    (caller.Generated? || caller.Served?) ==> caller.config.subject == caller.key
  }

  predicate AllHonest(callers: map<nat, Caller>) {
    forall id | id in callers :: Honest(callers[id])
  }

  lemma StepKeepsGenuine(s: System, e: Event)
    requires Genuine(s.cache.entries) && AllHonest(s.callers) && Enabled(s, e)
    ensures Genuine(Step(s, e).cache.entries) && AllHonest(Step(s, e).callers)
  {
  }

  /** In every run, whoever is served gets a configuration generated for the key it asked for. */
  lemma {:induction false} ServedOwnConfig(capacity: nat, events: seq<Event>)
    ensures Genuine(Run(capacity, events).cache.entries) && AllHonest(Run(capacity, events).callers)
  {
    if events != [] {
      var front, e := events[..|events| - 1], events[|events| - 1];
      ServedOwnConfig(capacity, front);
      if Enabled(Run(capacity, front), e) {
        StepKeepsGenuine(Run(capacity, front), e);
      }
    }
  }

  /** The step of one caller is a move of the reference; the second lookup is what makes the
      inserted key absent. */
  lemma StepRefines(s: System, l: Lru, e: Event) returns (after: Lru)
    requires Represents(s.cache, l) && Enabled(s, e)
    ensures LruMoves(l, ActionOf(s, e), after) && Represents(Step(s, e).cache, after)
  {
    var action := ActionOf(s, e);
    match action
    case Nothing => after := l;
    case Use(key) =>
      UseRefines(s.cache, l, key);
      after := Used(l, key, l.store[key].config);
    case Add(key, config) => after := AddRefines(s.cache, l, key, config);
  }

  /** Action taken by the last event of a run. */
  function LastAction(capacity: nat, events: seq<Event>): Action
    requires events != []
  {
    var s := Run(capacity, events[..|events| - 1]);
    if Enabled(s, events[|events| - 1]) then ActionOf(s, events[|events| - 1]) else Nothing
  }

  /** `path` is the reference's run beside `events`: one legal move per event. */
  ghost predicate Accompanies(capacity: nat, events: seq<Event>, path: seq<Lru>)
    decreases |events|
  {
    && |path| == |events| + 1
    && if events == [] then path[0] == Lru(capacity, 0, map[])
       else
         && Accompanies(capacity, events[..|events| - 1], path[..|path| - 1])
         && LruMoves(path[|path| - 2], LastAction(capacity, events), path[|path| - 1])
  }

  /** However callers interleave, the cache is a least-recently-used map of bounded size, and its
      recency list and its entries hold the same keys, each once. */
  lemma {:induction false} RunRefines(capacity: nat, events: seq<Event>) returns (path: seq<Lru>)
    ensures Accompanies(capacity, events, path)
    ensures Represents(Run(capacity, events).cache, path[|path| - 1])
  {
    if events == [] {
      path := [Lru(capacity, 0, map[])];
    } else {
      var front, e := events[..|events| - 1], events[|events| - 1];
      var before := RunRefines(capacity, front);
      var s, l := Run(capacity, front), before[|before| - 1];
      var after := l;
      if Enabled(s, e) {
        after := StepRefines(s, l, e);
      }
      path := before + [after];
      assert path[..|path| - 1] == before;
    }
  }

  /** A caller that is served leaves with the configuration cached for its key at that moment. */
  lemma ServedIsCached(s: System, e: Event)
    requires Enabled(s, e) && s.cache.capacity > 0
    requires CallerOf(Step(s, e), e.caller).Served?
    ensures var served := CallerOf(Step(s, e), e.caller);
            var cache := Step(s, e).cache;
            && served.key in cache.entries && cache.entries[served.key] == served.config
            && (served.hit <==> served.key in s.cache.entries)
            && cache.recency != [] && cache.recency[|cache.recency| - 1] == served.key
  {
  }
}
