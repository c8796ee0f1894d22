/** The cache of databases loaded at old versions, as a value. Entries and databases are
    named by whatever identifies them. */
module HistoricalStates {

  datatype Record<D> = Record(version: int, db: D, refs: int, evicted: bool)

  /** `entries` are the cached ones, the most recently used first; `records` are all there
      ever were, and `closes` counts how often each loaded database was closed. */
  datatype Cache<E, D> = Cache(maxSize: nat, entries: seq<E>, closed: bool, records: map<E, Record<D>>,
                               closes: map<D, nat>)

  /** All entries in the list are on record. */
  ghost predicate Listed<E, D>(c: Cache<E, D>) {
    forall i :: 0 <= i < |c.entries| ==> c.entries[i] in c.records
  }

  /** The position of the entry for a version, or -1. */
  ghost function IndexOf<E, D>(c: Cache<E, D>, version: int): (r: int)
    requires Listed(c)
    ensures -1 <= r < |c.entries|
    ensures r >= 0 ==> c.records[c.entries[r]].version == version
    ensures forall i :: 0 <= i < (if r < 0 then |c.entries| else r) ==> c.records[c.entries[i]].version != version
    decreases |c.entries|
  {
    if c.entries == [] then -1
    else
      var init := c.(entries := c.entries[..|c.entries| - 1]);
      var r := IndexOf(init, version);
      if r >= 0 then r
      else if c.records[c.entries[|c.entries| - 1]].version == version then |c.entries| - 1
      else -1
  }

  ghost function ToFront<E>(s: seq<E>, i: nat): seq<E>
    requires i < |s|
  {
    [s[i]] + s[..i] + s[i + 1..]
  }

  ghost function WithRefs<E, D>(c: Cache<E, D>, e: E, refs: int): Cache<E, D>
    requires e in c.records
  {
    c.(records := c.records[e := c.records[e].(refs := refs)])
  }

  /** The entry at a position gets a reference and moves to the front. */
  ghost function Taken<E, D>(c: Cache<E, D>, i: nat): Cache<E, D>
    requires Listed(c) && i < |c.entries|
  {
    WithRefs(c, c.entries[i], c.records[c.entries[i]].refs + 1).(entries := ToFront(c.entries, i))
  }

  ghost function CloseDb<E, D>(c: Cache<E, D>, d: D): Cache<E, D> {
    c.(closes := c.closes[d := if d in c.closes then c.closes[d] + 1 else 1])
  }

  /** An entry leaves the list; its database is closed unless it is borrowed. */
  ghost function Dropped<E, D>(c: Cache<E, D>, e: E): Cache<E, D>
    requires e in c.records
  {
    var t := c.(records := c.records[e := c.records[e].(evicted := true)]);
    if c.records[e].refs == 0 then CloseDb(t, c.records[e].db) else t
  }

  ghost function Evicted<E, D>(c: Cache<E, D>): Cache<E, D>
    requires Listed(c) && c.entries != []
  {
    var n := |c.entries| - 1;
    Dropped(c, c.entries[n]).(entries := c.entries[..n])
  }

  ghost function Added<E, D>(c: Cache<E, D>, e: E, version: int, d: D): Cache<E, D>
    requires Listed(c)
  {
    var room := if |c.entries| >= c.maxSize && c.entries != [] then Evicted(c) else c;
    room.(entries := [e] + room.entries, records := room.records[e := Record(version, d, 1, false)])
  }

  /** One reference less; the last one of an evicted entry closes its database. */
  ghost function Released<E, D>(c: Cache<E, D>, e: E): Cache<E, D>
    requires e in c.records
  {
    var r := c.records[e];
    var t := WithRefs(c, e, r.refs - 1);
    if r.refs - 1 == 0 && r.evicted then CloseDb(t, r.db) else t
  }

  ghost function DroppedAll<E, D>(c: Cache<E, D>, s: seq<E>): (t: Cache<E, D>)
    requires forall i :: 0 <= i < |s| ==> s[i] in c.records
    ensures t.records.Keys == c.records.Keys && t.entries == c.entries && t.maxSize == c.maxSize && t.closed == c.closed
    decreases |s|
  {
    if s == [] then c else Dropped(DroppedAll(c, s[..|s| - 1]), s[|s| - 1])
  }

  ghost function Shut<E, D>(c: Cache<E, D>): Cache<E, D>
    requires Listed(c)
  {
    DroppedAll(c.(closed := true), c.entries).(entries := [])
  }

  // -------------------------------------------------------- what the cache keeps

  ghost predicate DistinctVersions<E, D>(c: Cache<E, D>)
    requires Listed(c)
  {
    forall i, j :: 0 <= i < j < |c.entries| ==> c.records[c.entries[i]].version != c.records[c.entries[j]].version
  }

  /** At most so many entries, of different versions; those not in the list are evicted. */
  ghost predicate Tidy<E, D>(c: Cache<E, D>) {
    && c.maxSize >= 1 && |c.entries| <= c.maxSize && Listed(c) && DistinctVersions(c)
    && (forall e :: e in c.records ==> (c.records[e].evicted <==> e !in c.entries))
    && (c.closed ==> c.entries == [])
  }

  /** The database of an entry is closed once, when it is evicted and nobody uses it. */
  ghost predicate Counted<E, D>(c: Cache<E, D>) {
    && (forall e :: e in c.records ==> var r := c.records[e];
        r.db in c.closes && c.closes[r.db] == if r.evicted && r.refs == 0 then 1 else 0)
    && (forall e, f :: e in c.records && f in c.records && e != f ==> c.records[e].db != c.records[f].db)
  }

  lemma TakenKeeps<E, D>(c: Cache<E, D>, i: nat)
    requires Tidy(c) && Counted(c) && i < |c.entries| && c.records[c.entries[i]].refs >= 0
    ensures Tidy(Taken(c, i)) && Counted(Taken(c, i))
  {
    TakenTidy(c, i);
    TakenCounted(c, i);
  }

  lemma TakenTidy<E, D>(c: Cache<E, D>, i: nat)
    requires Tidy(c) && i < |c.entries|
    ensures Tidy(Taken(c, i))
  {
    var t := Taken(c, i);
    FrontSame(c.entries, i);
    SameFields(c, i);
    hide ToFront, WithRefs, Taken;
    forall k, l | 0 <= k < l < |t.entries| ensures t.records[t.entries[k]].version != t.records[t.entries[l]].version {
      FrontAt(c.entries, i, k);
      FrontAt(c.entries, i, l);
    }
  }

  lemma FrontAt<E>(s: seq<E>, i: nat, k: nat)
    requires i < |s| && k < |s|
    ensures |ToFront(s, i)| == |s| && ToFront(s, i)[k] == s[if k == 0 then i else if k <= i then k - 1 else k]
  {
  }

  lemma FrontSame<E>(s: seq<E>, i: nat)
    requires i < |s|
    ensures |ToFront(s, i)| == |s| && forall x :: x in ToFront(s, i) <==> x in s
  {
    assert s == s[..i] + [s[i]] + s[i + 1..];
  }

  lemma SameFields<E, D>(c: Cache<E, D>, i: nat)
    requires Listed(c) && i < |c.entries|
    ensures var t := Taken(c, i);
      && t.maxSize == c.maxSize && t.closed == c.closed && t.entries == ToFront(c.entries, i)
          && t.records.Keys == c.records.Keys
      && forall x :: x in c.records ==>
          t.records[x].version == c.records[x].version && t.records[x].evicted == c.records[x].evicted
  {
  }

  lemma TakenCounted<E, D>(c: Cache<E, D>, i: nat)
    requires Listed(c) && Counted(c) && i < |c.entries| && c.records[c.entries[i]].refs >= 0
    requires !c.records[c.entries[i]].evicted
    ensures Counted(Taken(c, i))
  {
    hide ToFront;
  }

  lemma DroppedCounted<E, D>(c: Cache<E, D>, e: E)
    requires Counted(c) && e in c.records && !c.records[e].evicted
    ensures Counted(Dropped(c, e))
  {
  }

  lemma EvictedKeeps<E, D>(c: Cache<E, D>)
    requires Tidy(c) && Counted(c) && c.entries != []
    ensures Tidy(Evicted(c)) && Counted(Evicted(c)) && |Evicted(c).entries| == |c.entries| - 1
  {
    var n := |c.entries| - 1;
    var t, e := Evicted(c), c.entries[n];
    DroppedCounted(c, e);
    hide Counted;
    assert c.entries == c.entries[..n] + [e];
    assert e !in c.entries[..n];
    assert forall x :: x in c.records ==> t.records[x].version == c.records[x].version;
  }

  lemma AddedKeeps<E, D>(c: Cache<E, D>, e: E, version: int, d: D)
    requires Tidy(c) && Counted(c) && !c.closed && e !in c.records
    requires IndexOf(c, version) < 0 && d in c.closes && c.closes[d] == 0
    requires forall f :: f in c.records ==> c.records[f].db != d
    ensures Tidy(Added(c, e, version, d)) && Counted(Added(c, e, version, d))
  {
    hide IndexOf;
    assert forall i :: 0 <= i < |c.entries| ==> c.records[c.entries[i]].version != version;
    if |c.entries| >= c.maxSize {
      EvictedKeeps(c);
      EvictedSame(c);
      InFront(Evicted(c), e, version, d);
    } else {
      InFront(c, e, version, d);
    }
  }

  lemma EvictedSame<E, D>(c: Cache<E, D>)
    requires Tidy(c) && Counted(c) && c.entries != []
    ensures var t := Evicted(c); var last := c.records[c.entries[|c.entries| - 1]].db;
      && t.records.Keys == c.records.Keys && t.closed == c.closed && t.maxSize == c.maxSize
      && (forall x :: x in c.records ==>
          && t.records[x].version == c.records[x].version && t.records[x].db == c.records[x].db
          && t.records[x].refs == c.records[x].refs)
      && (forall x :: x in c.closes && x != last ==> x in t.closes && t.closes[x] == c.closes[x])
      && t.closes.Keys == c.closes.Keys
  {
    var last := c.entries[|c.entries| - 1];
    assert last in c.records;
  }

  lemma InFront<E, D>(c: Cache<E, D>, e: E, version: int, d: D)
    requires Tidy(c) && Counted(c) && !c.closed && e !in c.records && |c.entries| < c.maxSize
    requires forall i :: 0 <= i < |c.entries| ==> c.records[c.entries[i]].version != version
    requires d in c.closes && c.closes[d] == 0 && forall f :: f in c.records ==> c.records[f].db != d
    ensures var t := c.(entries := [e] + c.entries, records := c.records[e := Record(version, d, 1, false)]);
      Tidy(t) && Counted(t)
  {
  }

  lemma ReleasedKeeps<E, D>(c: Cache<E, D>, e: E)
    requires Tidy(c) && Counted(c) && e in c.records && c.records[e].refs > 0
    ensures Tidy(Released(c, e)) && Counted(Released(c, e))
  {
    var t := Released(c, e);
    assert forall x :: x in c.records ==>
      && t.records[x].version == c.records[x].version && t.records[x].db == c.records[x].db
      && t.records[x].evicted == c.records[x].evicted;
  }

  /** What dropping entries does to their records, and to no others. */
  lemma {:induction false} DroppedAllRecords<E, D>(c: Cache<E, D>, s: seq<E>)
    requires (forall e :: e in c.records ==> c.records[e].db in c.closes) && forall i :: 0 <= i < |s| ==>
      s[i] in c.records
    ensures var t := DroppedAll(c, s);
      && t.closes.Keys == c.closes.Keys
      && (forall e :: e in c.records ==> t.records[e] == if e in s then c.records[e].(evicted := true)
          else c.records[e])
    decreases |s|
  {
    if s != [] {
      var init, e := s[..|s| - 1], s[|s| - 1];
      assert s == init + [e];
      DroppedAllRecords(c, init);
    }
  }

  lemma {:induction false} DroppedAllKeeps<E, D>(c: Cache<E, D>, s: seq<E>)
    requires Counted(c) && (forall i :: 0 <= i < |s| ==> s[i] in c.records && !c.records[s[i]].evicted)
    requires forall i, j :: 0 <= i < j < |s| ==> s[i] != s[j]
    ensures Counted(DroppedAll(c, s))
    decreases |s|
  {
    if s != [] {
      var init, e := s[..|s| - 1], s[|s| - 1];
      assert e !in init;
      DroppedAllRecords(c, init);
      hide Counted, Dropped;
      DroppedAllKeeps(c, init);
      DroppedCounted(DroppedAll(c, init), e);
    }
  }

  lemma ShutKeeps<E, D>(c: Cache<E, D>)
    requires Tidy(c) && Counted(c)
    ensures Tidy(Shut(c)) && Counted(Shut(c)) && Shut(c).closed && Shut(c).closes.Keys == c.closes.Keys
    ensures forall e :: e in c.records ==> e in Shut(c).records && Shut(c).records[e] == c.records[e].(evicted := true)
    ensures Shut(c).records.Keys == c.records.Keys
  {
    DroppedAllKeeps(c.(closed := true), c.entries);
    DroppedAllRecords(c.(closed := true), c.entries);
    var t := DroppedAll(c.(closed := true), c.entries);
    assert t.records.Keys == c.records.Keys;
  }
}

/** Any number of callers that borrow and give back databases, in any interleaving. A caller
    holds the lock of the cache during each of its steps, and not in between; it loads
    without the lock. */
module HistoricalProtocol {
  import opened Bytes
  import opened HistoricalStates

  /** Where a caller is. After a miss it waits for the semaphore, loads, comes back with a
      database, closes it if it is not needed, gives the semaphore back, and then holds the
      entry it got, if it got one. */
  datatype Phase<E, D> =
    | Idle
    | Waiting(version: int)
    | Loading(version: int)
    | Loaded(version: int, db: D)
    | Closing(db: D, next: Option<E>)
    | Leaving(next: Option<E>)
    | Holding(entry: E)

  /** `taken` counts the places of the semaphore that are in use. */
  datatype System<E, D> = System(cache: Cache<E, D>, callers: map<nat, Phase<E, D>>, taken: nat)

  datatype Action<E, D> =
    | Borrow(caller: nat, version: int)
    | Acquire(caller: nat)
    | LoadFails(caller: nat)
    | LoadEnds(caller: nat, db: D)
    | Insert(caller: nat, entry: E)
    | CloseLoaded(caller: nat)
    | Leave(caller: nat)
    | Release(caller: nat)
    | CloseCache

  function PhaseOf<E, D>(callers: map<nat, Phase<E, D>>, c: nat): Phase<E, D> {
    if c in callers then callers[c] else Idle
  }

  /** New entries and databases are not known before. */
  ghost predicate Enabled<E, D>(s: System<E, D>, a: Action<E, D>) {
    && Listed(s.cache)
    && match a
      case Borrow(c, _) => PhaseOf(s.callers, c).Idle?
      case Acquire(c) => PhaseOf(s.callers, c).Waiting? && s.taken < s.cache.maxSize
      case LoadFails(c) => PhaseOf(s.callers, c).Loading?
      case LoadEnds(c, d) => PhaseOf(s.callers, c).Loading? && d !in s.cache.closes
      case Insert(c, e) => PhaseOf(s.callers, c).Loaded? && e !in s.cache.records
      case CloseLoaded(c) => PhaseOf(s.callers, c).Closing?
      case Leave(c) => PhaseOf(s.callers, c).Leaving? && s.taken > 0
      case Release(c) => PhaseOf(s.callers, c).Holding? && PhaseOf(s.callers, c).entry in s.cache.records
      case CloseCache => true
  }

  function Moved<E, D>(s: System<E, D>, c: nat, p: Phase<E, D>): System<E, D> {
    s.(callers := s.callers[c := p])
  }

  ghost function Next<E, D>(s: System<E, D>, a: Action<E, D>): System<E, D>
    requires Enabled(s, a)
  {
    match a
    case Borrow(c, version) =>
      if s.cache.closed then s
      else
        var i := IndexOf(s.cache, version);
        if i < 0 then Moved(s, c, Waiting(version))
        else Moved(s, c, Holding(s.cache.entries[i])).(cache := Taken(s.cache, i))
    case Acquire(c) => Moved(s, c, Loading(PhaseOf(s.callers, c).version)).(taken := s.taken + 1)
    case LoadFails(c) => Moved(s, c, Leaving(None))
    case LoadEnds(c, d) =>
      Moved(s, c, Loaded(PhaseOf(s.callers, c).version, d)).(cache := s.cache.(closes := s.cache.closes[d := 0]))
    case Insert(c, e) =>
      var p := PhaseOf(s.callers, c);
      if s.cache.closed then Moved(s, c, Closing(p.db, None))
      else
        var i := IndexOf(s.cache, p.version);
        if i >= 0 then Moved(s, c, Closing(p.db, Some(s.cache.entries[i]))).(cache := Taken(s.cache, i))
        else Moved(s, c, Leaving(Some(e))).(cache := Added(s.cache, e, p.version, p.db))
    case CloseLoaded(c) =>
      var p := PhaseOf(s.callers, c);
      Moved(s, c, Leaving(p.next)).(cache := CloseDb(s.cache, p.db))
    case Leave(c) =>
      var p := PhaseOf(s.callers, c);
      Moved(s, c, if p.next.None? then Idle else Holding(p.next.value)).(taken := s.taken - 1)
    case Release(c) => Moved(s, c, Idle).(cache := Released(s.cache, PhaseOf(s.callers, c).entry))
    case CloseCache => s.(cache := Shut(s.cache))
  }

  // ---------------------------------------------------------- the invariant

  predicate Holds<E(==), D>(p: Phase<E, D>, e: E) {
    match p
    case Holding(x) => x == e
    case Closing(_, next) => next == Some(e)
    case Leaving(next) => next == Some(e)
    case _ => false
  }

  ghost function Holders<E, D>(callers: map<nat, Phase<E, D>>, e: E): set<nat> {
    set c | c in callers && Holds(callers[c], e)
  }

  predicate UsesPlace<E, D>(p: Phase<E, D>) {
    p.Loading? || p.Loaded? || p.Closing? || p.Leaving?
  }

  ghost function InFlight<E, D>(callers: map<nat, Phase<E, D>>): set<nat> {
    set c | c in callers && UsesPlace(callers[c])
  }

  /** A caller that is the only one to know a loaded database. */
  predicate Carries<E, D(==)>(p: Phase<E, D>, d: D) {
    (p.Loaded? || p.Closing?) && p.db == d
  }

  /** References are the callers that hold the entry. */
  ghost predicate RefsAreHolders<E(!new), D>(s: System<E, D>) {
    && (forall e :: e in s.cache.records ==> s.cache.records[e].refs == |Holders(s.callers, e)|)
    && (forall c, e :: c in s.callers && Holds(s.callers[c], e) ==> e in s.cache.records)
  }

  ghost predicate PlacesCounted<E, D>(s: System<E, D>) {
    s.taken == |InFlight(s.callers)| && s.taken <= s.cache.maxSize
  }

  /** A database that a caller carries is open and belongs to no entry. */
  ghost predicate CarriedOpen<E(!new), D(!new)>(s: System<E, D>) {
    forall c, d :: c in s.callers && Carries(s.callers[c], d) ==>
      d in s.cache.closes && s.cache.closes[d] == 0 && forall e :: e in s.cache.records ==> s.cache.records[e].db != d
  }

  ghost predicate CarriedOnce<E, D(!new)>(s: System<E, D>) {
    forall c, k, d :: c in s.callers && k in s.callers && Carries(s.callers[c], d) && Carries(s.callers[k], d) ==>
      c == k
  }

  ghost predicate RestClosed<E, D(!new)>(s: System<E, D>) {
    forall d :: d in s.cache.closes ==> Kept(s, d) || s.cache.closes[d] == 1
  }

  /** Every loaded database belongs to one entry or is carried by one caller, or it has been
      closed by the caller that carried it. */
  ghost predicate DbsAccounted<E(!new), D(!new)>(s: System<E, D>) {
    CarriedOpen(s) && CarriedOnce(s) && RestClosed(s)
  }

  ghost predicate Kept<E, D>(s: System<E, D>, d: D) {
    (exists c :: c in s.callers && Carries(s.callers[c], d))
      || (exists e :: e in s.cache.records && s.cache.records[e].db == d)
  }

  ghost predicate Inv<E(!new), D(!new)>(s: System<E, D>) {
    Tidy(s.cache) && Counted(s.cache) && RefsAreHolders(s) && PlacesCounted(s) && DbsAccounted(s)
  }

  ghost function Start<E, D>(size: int): System<E, D> {
    System(Cache(if size <= 0 then 4 else size, [], false, map[], map[]), map[], 0)
  }

  lemma StartIsSound<E(!new), D(!new)>(size: int)
    ensures Inv(Start<E, D>(size))
  {
    var s := Start<E, D>(size);
    assert InFlight(s.callers) == {};
  }

  // ------------------------------------------------------------- one caller moves

  lemma HoldersMove<E, D>(callers: map<nat, Phase<E, D>>, c: nat, p: Phase<E, D>, e: E)
    ensures var was, now := Holds(PhaseOf(callers, c), e), Holds(p, e);
      |Holders(callers[c := p], e)| == |Holders(callers, e)| - (if was then 1 else 0) + (if now then 1 else 0)
  {
    var h := Holders(callers, e);
    assert Holders(callers[c := p], e) == if Holds(p, e) then (h - {c}) + {c} else h - {c};
  }

  lemma PlacesMove<E, D>(callers: map<nat, Phase<E, D>>, c: nat, p: Phase<E, D>)
    ensures var was, now := UsesPlace(PhaseOf(callers, c)), UsesPlace(p);
      |InFlight(callers[c := p])| == |InFlight(callers)| - (if was then 1 else 0) + (if now then 1 else 0)
  {
    var h := InFlight(callers);
    assert InFlight(callers[c := p]) == if UsesPlace(p) then (h - {c}) + {c} else h - {c};
  }

  /** The places of the semaphore follow every step. */
  lemma PlacesStep<E(!new), D(!new)>(s: System<E, D>, a: Action<E, D>)
    requires Inv(s) && Enabled(s, a)
    ensures PlacesCounted(Next(s, a))
  {
    hide Tidy, Counted, RefsAreHolders, DbsAccounted, InFlight, Taken, Added, CloseDb, Released, Shut;
    MaxSizeStays(s, a);
    var t := Next(s, a);
    if !a.CloseCache? { PlacesMove(s.callers, a.caller, PhaseOf(t.callers, a.caller)); }
  }

  lemma MaxSizeStays<E(!new), D(!new)>(s: System<E, D>, a: Action<E, D>)
    requires Enabled(s, a)
    ensures Next(s, a).cache.maxSize == s.cache.maxSize
  {
  }

  // ------------------------------------------------------------- references

  /** References that follow one caller. */
  lemma RefsMove<E(!new), D>(s: System<E, D>, c: nat, p: Phase<E, D>, cache: Cache<E, D>)
    requires RefsAreHolders(s) && s.cache.records.Keys <= cache.records.Keys
    requires forall e :: Holds(p, e) ==> e in cache.records
    requires forall e :: e in s.cache.records ==>
      cache.records[e].refs == s.cache.records[e].refs - (if Holds(PhaseOf(s.callers, c), e) then 1 else 0)
        + (if Holds(p, e) then 1 else 0)
    requires forall e :: e in cache.records && e !in s.cache.records ==>
      cache.records[e].refs == if Holds(p, e) then 1 else 0
    ensures RefsAreHolders(Moved(s, c, p).(cache := cache))
  {
    var t := Moved(s, c, p).(cache := cache);
    forall e | e in cache.records ensures cache.records[e].refs == |Holders(t.callers, e)| {
      HoldersMove(s.callers, c, p, e);
      if e !in s.cache.records { assert Holders(s.callers, e) == {}; }
    }
  }

  lemma RefsStay<E, D>(c: Cache<E, D>)
    requires Tidy(c)
    ensures var t := Shut(c); t.records.Keys == c.records.Keys && forall e :: e in c.records ==>
      t.records[e].refs == c.records[e].refs
  {
    DroppedRefs(c.(closed := true), c.entries);
  }

  lemma {:induction false} DroppedRefs<E, D>(c: Cache<E, D>, s: seq<E>)
    requires forall i :: 0 <= i < |s| ==> s[i] in c.records
    ensures forall e :: e in c.records ==> DroppedAll(c, s).records[e].refs == c.records[e].refs
    decreases |s|
  {
    if s != [] { DroppedRefs(c, s[..|s| - 1]); }
  }

  /** One entry has so many references more, all others have what they had. */
  ghost predicate RefsBy<E, D>(a: Cache<E, D>, b: Cache<E, D>, e: Option<E>, more: int) {
    && b.records.Keys == a.records.Keys
    && forall x :: x in a.records ==> b.records[x].refs == a.records[x].refs + (if Some(x) == e then more else 0)
  }

  lemma TakenRefs<E, D>(c: Cache<E, D>, i: nat)
    requires Listed(c) && i < |c.entries|
    ensures RefsBy(c, Taken(c, i), Some(c.entries[i]), 1)
  {
  }

  lemma ReleasedRefs<E, D>(c: Cache<E, D>, e: E)
    requires e in c.records
    ensures RefsBy(c, Released(c, e), Some(e), -1)
  {
  }

  lemma SameRefs<E, D>(a: Cache<E, D>, b: Cache<E, D>)
    requires a.records == b.records
    ensures RefsBy(a, b, None, 0)
  {
  }

  /** A caller lets go of an entry, or comes to hold one, and the references follow. */
  lemma RefsFollow<E(!new), D>(s: System<E, D>, c: nat, p: Phase<E, D>, cache: Cache<E, D>, taken: nat, e: Option<E>,
                               more: int)
    requires RefsAreHolders(s) && RefsBy(s.cache, cache, e, more) && (e.Some? ==> e.value in s.cache.records)
    requires forall x :: x in s.cache.records ==>
      (if Holds(p, x) then 1 else 0) - (if Holds(PhaseOf(s.callers, c), x) then 1 else 0) == if Some(x) == e then more
        else 0
    requires forall x :: Holds(p, x) ==> x in s.cache.records
    ensures RefsAreHolders(System(cache, s.callers[c := p], taken))
  {
    hide RefsAreHolders, Holds;
    RefsMove(s, c, p, cache);
    SameHolders(Moved(s, c, p).(cache := cache), taken);
  }

  lemma SameHolders<E(!new), D>(s: System<E, D>, taken: nat)
    requires RefsAreHolders(s)
    ensures RefsAreHolders(s.(taken := taken))
  {
  }

  lemma RefsStep<E(!new), D(!new)>(s: System<E, D>, a: Action<E, D>)
    requires Inv(s) && Enabled(s, a)
    ensures RefsAreHolders(Next(s, a))
  {
    hide Tidy, Counted, DbsAccounted, PlacesCounted, IndexOf, RefsAreHolders, RefsBy, Taken, Added, Released, Shut,
         CloseDb;
    match a
    case Borrow(c, version) => RefsBorrow(s, c, version);
    case Insert(c, e) => RefsInsert(s, c, e);
    case Release(c) =>
      var e := PhaseOf(s.callers, c).entry;
      ReleasedRefs(s.cache, e);
      RefsFollow(s, c, Idle, Released(s.cache, e), s.taken, Some(e), -1);
    case CloseCache => RefsShut(s);
    case _ => RefsQuiet(s, a);
  }

  lemma RefsBorrow<E(!new), D(!new)>(s: System<E, D>, c: nat, version: int)
    requires RefsAreHolders(s) && Enabled(s, Borrow(c, version))
    ensures RefsAreHolders(Next(s, Borrow(c, version)))
  {
    hide IndexOf, RefsAreHolders, RefsBy, Taken;
    if s.cache.closed {
      return;
    }
    var i := IndexOf(s.cache, version);
    if i >= 0 {
      TakenRefs(s.cache, i);
      RefsFollow(s, c, Holding(s.cache.entries[i]), Taken(s.cache, i), s.taken, Some(s.cache.entries[i]), 1);
    } else {
      SameRefs(s.cache, s.cache);
      RefsFollow(s, c, Waiting(version), s.cache, s.taken, None, 0);
    }
  }

  lemma RefsInsert<E(!new), D(!new)>(s: System<E, D>, c: nat, e: E)
    requires RefsAreHolders(s) && Enabled(s, Insert(c, e))
    ensures RefsAreHolders(Next(s, Insert(c, e)))
  {
    hide IndexOf, RefsAreHolders, RefsBy, Taken, Added;
    var p := PhaseOf(s.callers, c);
    if s.cache.closed {
      SameRefs(s.cache, s.cache);
      RefsFollow(s, c, Closing(p.db, None), s.cache, s.taken, None, 0);
      return;
    }
    var i := IndexOf(s.cache, p.version);
    if i >= 0 {
      TakenRefs(s.cache, i);
      RefsFollow(s, c, Closing(p.db, Some(s.cache.entries[i])), Taken(s.cache, i), s.taken,
        Some(s.cache.entries[i]), 1);
    } else {
      AddedRefs(s.cache, e, p.version, p.db);
      RefsMove(s, c, Leaving(Some(e)), Added(s.cache, e, p.version, p.db));
    }
  }

  lemma RefsShut<E(!new), D(!new)>(s: System<E, D>)
    requires RefsAreHolders(s) && Tidy(s.cache)
    ensures RefsAreHolders(s.(cache := Shut(s.cache)))
  {
    hide Shut, Tidy, Holders;
    RefsStay(s.cache);
  }

  /** Steps that have nothing to do with entries. */
  lemma RefsQuiet<E(!new), D(!new)>(s: System<E, D>, a: Action<E, D>)
    requires RefsAreHolders(s) && Enabled(s, a)
      && (a.Acquire? || a.LoadFails? || a.LoadEnds? || a.CloseLoaded? || a.Leave?)
    ensures RefsAreHolders(Next(s, a))
  {
    var t, c := Next(s, a), a.caller;
    HoldersKnown(s, c);
    hide RefsAreHolders, RefsBy;
    SameRefs(s.cache, t.cache);
    RefsFollow(s, c, t.callers[c], t.cache, t.taken, None, 0);
  }

  lemma HoldersKnown<E(!new), D>(s: System<E, D>, c: nat)
    requires RefsAreHolders(s)
    ensures forall e :: Holds(PhaseOf(s.callers, c), e) ==> e in s.cache.records
  {
  }

  lemma AddedRefs<E, D>(c: Cache<E, D>, e: E, version: int, d: D)
    requires Listed(c) && e !in c.records
    ensures var t := Added(c, e, version, d);
      && t.records.Keys == c.records.Keys + {e} && t.records[e].refs == 1
      && forall x :: x in c.records ==> t.records[x].refs == c.records[x].refs
  {
  }

  // ------------------------------------------------------------- the cache itself

  lemma HolderCounts<E(!new), D>(s: System<E, D>, c: nat, e: E)
    requires RefsAreHolders(s) && c in s.callers && Holds(s.callers[c], e)
    ensures e in s.cache.records && s.cache.records[e].refs > 0
  {
    assert c in Holders(s.callers, e);
  }

  lemma CacheStep<E(!new), D(!new)>(s: System<E, D>, a: Action<E, D>)
    requires Inv(s) && Enabled(s, a)
    ensures Tidy(Next(s, a).cache) && Counted(Next(s, a).cache)
  {
    hide IndexOf, Taken, Added, Released, Shut, PlacesCounted;
    match a
    case Borrow(c, version) =>
      if !s.cache.closed && IndexOf(s.cache, version) >= 0 { TakeKeeps(s, IndexOf(s.cache, version)); }
    case Insert(c, e) =>
      if !s.cache.closed { InsertKeeps(s, c, e); }
    case Release(c) =>
      HolderCounts(s, c, PhaseOf(s.callers, c).entry);
      ReleasedKeeps(s.cache, PhaseOf(s.callers, c).entry);
    case CloseCache => ShutKeeps(s.cache);
    case CloseLoaded(c) => CarriedApart(s, c);
    case _ =>
  }

  lemma TakeKeeps<E(!new), D(!new)>(s: System<E, D>, i: nat)
    requires Inv(s) && i < |s.cache.entries|
    ensures Tidy(Taken(s.cache, i)) && Counted(Taken(s.cache, i))
  {
    hide Taken, PlacesCounted, DbsAccounted, Counted;
    assert s.cache.entries[i] in s.cache.records;
    TakenKeeps(s.cache, i);
  }

  lemma CarriedApart<E(!new), D(!new)>(s: System<E, D>, c: nat)
    requires DbsAccounted(s) && (PhaseOf(s.callers, c).Loaded? || PhaseOf(s.callers, c).Closing?)
    ensures var d := PhaseOf(s.callers, c).db;
      d in s.cache.closes && s.cache.closes[d] == 0 && forall e :: e in s.cache.records ==> s.cache.records[e].db != d
  {
    assert Carries(s.callers[c], s.callers[c].db);
  }

  lemma InsertKeeps<E(!new), D(!new)>(s: System<E, D>, c: nat, e: E)
    requires Inv(s) && Enabled(s, Insert(c, e)) && !s.cache.closed
    ensures Tidy(Next(s, Insert(c, e)).cache) && Counted(Next(s, Insert(c, e)).cache)
  {
    hide IndexOf, Taken, Added, PlacesCounted, Tidy, Counted, RefsAreHolders;
    var p := PhaseOf(s.callers, c);
    CarriedApart(s, c);
    hide DbsAccounted;
    var i := IndexOf(s.cache, p.version);
    if i >= 0 { TakeKeeps(s, i); } else { AddedKeeps(s.cache, e, p.version, p.db); }
  }

  // ------------------------------------------------------------- the databases

  /** Databases of entries stay theirs, and only they may have been closed. */
  ghost predicate DbsKept<E, D(!new)>(a: Cache<E, D>, b: Cache<E, D>) {
    && a.records.Keys == b.records.Keys && a.closes.Keys == b.closes.Keys
    && (forall e :: e in a.records ==> b.records[e].db == a.records[e].db)
    && (forall d :: d in a.closes && (forall e :: e in a.records ==> a.records[e].db != d) ==>
        b.closes[d] == a.closes[d])
  }

  lemma TakenDbs<E, D(!new)>(c: Cache<E, D>, i: nat)
    requires Listed(c) && i < |c.entries|
    ensures DbsKept(c, Taken(c, i))
  {
  }

  lemma DroppedDbs<E, D(!new)>(c: Cache<E, D>, e: E)
    requires Counted(c) && e in c.records
    ensures DbsKept(c, Dropped(c, e))
  {
  }

  lemma ReleasedDbs<E, D(!new)>(c: Cache<E, D>, e: E)
    requires Counted(c) && e in c.records
    ensures DbsKept(c, Released(c, e))
  {
  }

  lemma {:induction false} DroppedAllDbs<E, D(!new)>(c: Cache<E, D>, s: seq<E>)
    requires (forall e :: e in c.records ==> c.records[e].db in c.closes) && forall i :: 0 <= i < |s| ==>
      s[i] in c.records
    ensures DbsKept(c, DroppedAll(c, s))
    decreases |s|
  {
    if s != [] { DroppedAllDbs(c, s[..|s| - 1]); }
  }

  /** What is kept in one state is kept in the next. */
  lemma StillKept<E(!new), D(!new)>(s: System<E, D>, t: System<E, D>, d: D)
    requires Kept(s, d) && forall k :: k in s.callers && Carries(s.callers[k], d) ==>
      k in t.callers && Carries(t.callers[k], d)
    requires forall e :: e in s.cache.records ==> e in t.cache.records && t.cache.records[e].db == s.cache.records[e].db
    ensures Kept(t, d)
  {
    if k :| k in s.callers && Carries(s.callers[k], d) {
      assert k in t.callers && Carries(t.callers[k], d);
    } else {
      var e :| e in s.cache.records && s.cache.records[e].db == d;
      assert e in t.cache.records && t.cache.records[e].db == d;
    }
  }

  /** A step in which no caller comes by a database or lets go of one. */
  lemma DbsSame<E(!new), D(!new)>(s: System<E, D>, t: System<E, D>)
    requires DbsAccounted(s) && DbsKept(s.cache, t.cache)
    requires forall k, d :: k in t.callers && Carries(t.callers[k], d) ==> k in s.callers && Carries(s.callers[k], d)
    requires forall k, d :: k in s.callers && Carries(s.callers[k], d) ==> k in t.callers && Carries(t.callers[k], d)
    ensures DbsAccounted(t)
  {
    assert CarriedOpen(t) && CarriedOnce(t) by { hide Kept; }
    forall d | d in t.cache.closes ensures Kept(t, d) || t.cache.closes[d] == 1 {
      if Kept(s, d) {
        StillKept(s, t, d);
      } else {
        RestStays(s, t.cache, d);
      }
    }
  }

  lemma RestStays<E, D(!new)>(s: System<E, D>, cache: Cache<E, D>, d: D)
    requires DbsKept(s.cache, cache) && d in s.cache.closes && !Kept(s, d)
    ensures cache.closes[d] == s.cache.closes[d]
  {
  }

  lemma DbsMove<E(!new), D(!new)>(s: System<E, D>, c: nat, p: Phase<E, D>, cache: Cache<E, D>, taken: nat)
    requires DbsAccounted(s) && DbsKept(s.cache, cache)
    requires forall d :: Carries(p, d) <==> Carries(PhaseOf(s.callers, c), d)
    ensures DbsAccounted(System(cache, s.callers[c := p], taken))
  {
    hide DbsAccounted, DbsKept;
    DbsSame(s, System(cache, s.callers[c := p], taken));
  }

  lemma DbsLoaded<E(!new), D(!new)>(s: System<E, D>, c: nat, version: int, d: D)
    requires DbsAccounted(s) && Counted(s.cache) && d !in s.cache.closes && PhaseOf(s.callers, c).Loading?
    ensures DbsAccounted(Moved(s, c, Loaded(version, d)).(cache := s.cache.(closes := s.cache.closes[d := 0])))
  {
    var t := Moved(s, c, Loaded(version, d)).(cache := s.cache.(closes := s.cache.closes[d := 0]));
    forall k, x | k in t.callers && Carries(t.callers[k], x)
      ensures k != c ==> k in s.callers && Carries(s.callers[k], x) && x != d
      ensures x in t.cache.closes && t.cache.closes[x] == 0 && forall e :: e in t.cache.records ==>
        t.cache.records[e].db != x
    {
      if k != c { assert k in s.callers && Carries(s.callers[k], x); } else { assert x == d; }
    }
    forall k, j, x | k in t.callers && j in t.callers && Carries(t.callers[k], x) && Carries(t.callers[j], x)
      ensures k == j {
      assert k == c ==> x == d;
      assert j == c ==> x == d;
    }
    forall x | x in t.cache.closes ensures Kept(t, x) || t.cache.closes[x] == 1 {
      if x == d {
        assert c in t.callers && Carries(t.callers[c], d);
      } else if Kept(s, x) {
        StillKept(s, t, x);
      }
    }
  }

  /** A cache after a database was closed or taken over by an entry; it may differ in the
      databases of other entries, but in no others. */
  ghost predicate TakenOver<E, D(!new)>(a: Cache<E, D>, b: Cache<E, D>, d: D) {
    && b.closes.Keys == a.closes.Keys && d in a.closes
    && (forall e :: e in a.records ==> e in b.records && b.records[e].db == a.records[e].db)
    && (forall e :: e in b.records && e !in a.records ==> b.records[e].db == d)
    && (b.closes[d] == 1 || exists e :: e in b.records && b.records[e].db == d)
    && (forall x :: x in a.closes && x != d && (forall e :: e in a.records ==> a.records[e].db != x) ==>
        b.closes[x] == a.closes[x])
  }

  /** A caller lets go of its database: it closes it, or an entry takes it over. */
  lemma DbsLetGo<E(!new), D(!new)>(s: System<E, D>, c: nat, p: Phase<E, D>, cache: Cache<E, D>)
    requires DbsAccounted(s) && c in s.callers && (s.callers[c].Loaded? || s.callers[c].Closing?) && forall d ::
      !Carries(p, d)
    requires TakenOver(s.cache, cache, s.callers[c].db)
    ensures DbsAccounted(Moved(s, c, p).(cache := cache))
  {
    hide CarriedOpen, RestClosed, TakenOver, Carries;
    OthersCarry(s, c, p);
    LetGoOpen(s, c, p, cache);
    LetGoRest(s, c, p, cache);
  }

  lemma LetGoOpen<E(!new), D(!new)>(s: System<E, D>, c: nat, p: Phase<E, D>, cache: Cache<E, D>)
    requires CarriedOpen(s) && c in s.callers && (s.callers[c].Loaded? || s.callers[c].Closing?)
      && TakenOver(s.cache, cache, s.callers[c].db)
    requires var callers := s.callers[c := p];
      forall k, x :: k in callers && Carries(callers[k], x) ==>
        k in s.callers && k != c && Carries(s.callers[k], x) && x != s.callers[c].db
    ensures CarriedOpen(Moved(s, c, p).(cache := cache))
  {
    hide Carries;
    var t := Moved(s, c, p).(cache := cache);
    forall k, x | k in t.callers && Carries(t.callers[k], x)
      ensures x in t.cache.closes && t.cache.closes[x] == 0 && forall e :: e in t.cache.records ==>
        t.cache.records[e].db != x
    {
      assert k in s.callers && Carries(s.callers[k], x);
      assert x in s.cache.closes && s.cache.closes[x] == 0;
      assert forall e :: e in s.cache.records ==> s.cache.records[e].db != x;
    }
  }

  lemma LetGoRest<E(!new), D(!new)>(s: System<E, D>, c: nat, p: Phase<E, D>, cache: Cache<E, D>)
    requires RestClosed(s) && c in s.callers && (s.callers[c].Loaded? || s.callers[c].Closing?)
      && TakenOver(s.cache, cache, s.callers[c].db)
    ensures RestClosed(Moved(s, c, p).(cache := cache))
  {
    var t, d := Moved(s, c, p).(cache := cache), s.callers[c].db;
    forall x | x in cache.closes ensures Kept(t, x) || cache.closes[x] == 1 {
      if x != d && Kept(s, x) { StillKept(s, t, x); }
    }
  }

  /** The other callers carry what they carried, and not what this one did. */
  lemma OthersCarry<E(!new), D(!new)>(s: System<E, D>, c: nat, p: Phase<E, D>)
    requires CarriedOnce(s) && c in s.callers && (s.callers[c].Loaded? || s.callers[c].Closing?) && forall d ::
      !Carries(p, d)
    ensures var callers := s.callers[c := p];
      forall k, x :: k in callers && Carries(callers[k], x) ==>
        k in s.callers && k != c && Carries(s.callers[k], x) && x != s.callers[c].db
    ensures CarriedOnce(Moved(s, c, p))
  {
    assert Carries(s.callers[c], s.callers[c].db);
    var callers := s.callers[c := p];
    forall k, x | k in callers && Carries(callers[k], x)
      ensures k in s.callers && k != c && Carries(s.callers[k], x) && x != s.callers[c].db {
      assert callers[c] == p;
    }
  }

  lemma DbsClosed<E(!new), D(!new)>(s: System<E, D>, c: nat)
    requires DbsAccounted(s) && PhaseOf(s.callers, c).Closing?
    ensures var p := PhaseOf(s.callers, c); DbsAccounted(Moved(s, c, Leaving(p.next)).(cache := CloseDb(s.cache, p.db)))
  {
    CarriedApart(s, c);
    var p := PhaseOf(s.callers, c);
    hide DbsAccounted;
    DbsLetGo(s, c, Leaving(p.next), CloseDb(s.cache, p.db));
  }

  lemma DbsAdded<E(!new), D(!new)>(s: System<E, D>, c: nat, e: E, room: Cache<E, D>)
    requires DbsAccounted(s) && PhaseOf(s.callers, c).Loaded? && e !in s.cache.records && DbsKept(s.cache, room)
    ensures var p := PhaseOf(s.callers, c);
      DbsAccounted(Moved(s, c, Leaving(Some(e))).(cache :=
        room.(entries := [e] + room.entries, records := room.records[e := Record(p.version, p.db, 1, false)])))
  {
    CarriedApart(s, c);
    hide DbsAccounted;
    var p := PhaseOf(s.callers, c);
    var cache := room.(entries := [e] + room.entries, records := room.records[e := Record(p.version, p.db, 1, false)]);
    assert e in cache.records && cache.records[e].db == p.db;
    DbsLetGo(s, c, Leaving(Some(e)), cache);
  }

  lemma DbsStep<E(!new), D(!new)>(s: System<E, D>, a: Action<E, D>)
    requires Inv(s) && Enabled(s, a)
    ensures DbsAccounted(Next(s, a))
  {
    hide IndexOf, Taken, Released, Tidy, Counted, PlacesCounted, RefsAreHolders, DbsAccounted, DbsKept, Evicted,
         CloseDb;
    SameDbs(s.cache);
    match a
    case Borrow(c, version) =>
      if !s.cache.closed {
        var i := IndexOf(s.cache, version);
        if i >= 0 { TakenDbs(s.cache, i); DbsMove(s, c, Holding(s.cache.entries[i]), Taken(s.cache, i), s.taken); }
        else { DbsMove(s, c, Waiting(version), s.cache, s.taken); }
      }
    case LoadEnds(c, d) => DbsLoaded(s, c, PhaseOf(s.callers, c).version, d);
    case Insert(c, e) => DbsInsert(s, c, e);
    case CloseLoaded(c) => DbsClosed(s, c);
    case Release(c) =>
      ReleasedDbs(s.cache, PhaseOf(s.callers, c).entry);
      DbsMove(s, c, Idle, Released(s.cache, PhaseOf(s.callers, c).entry), s.taken);
    case CloseCache => DbsShut(s);
    case _ => DbsMove(s, a.caller, Next(s, a).callers[a.caller], s.cache, Next(s, a).taken);
  }

  lemma SameDbs<E, D(!new)>(c: Cache<E, D>)
    ensures DbsKept(c, c)
  {
  }

  lemma DbsShut<E(!new), D(!new)>(s: System<E, D>)
    requires DbsAccounted(s) && Counted(s.cache) && Tidy(s.cache)
    ensures DbsAccounted(s.(cache := Shut(s.cache)))
  {
    DroppedAllDbs(s.cache.(closed := true), s.cache.entries);
    hide Counted, Tidy, DroppedAll, DbsAccounted;
    DbsSame(s, s.(cache := Shut(s.cache)));
  }

  lemma DbsInsert<E(!new), D(!new)>(s: System<E, D>, c: nat, e: E)
    requires Inv(s) && Enabled(s, Insert(c, e))
    ensures DbsAccounted(Next(s, Insert(c, e)))
  {
    hide IndexOf, Taken, PlacesCounted, RefsAreHolders, DbsAccounted, DbsKept;
    SameDbs(s.cache);
    var p := PhaseOf(s.callers, c);
    if s.cache.closed {
      DbsMove(s, c, Closing(p.db, None), s.cache, s.taken);
      return;
    }
    var i := IndexOf(s.cache, p.version);
    if i >= 0 {
      TakenDbs(s.cache, i);
      DbsMove(s, c, Closing(p.db, Some(s.cache.entries[i])), Taken(s.cache, i), s.taken);
    } else if |s.cache.entries| >= s.cache.maxSize && s.cache.entries != [] {
      EvictedDbs(s.cache);
      DbsAdded(s, c, e, Evicted(s.cache));
    } else {
      DbsAdded(s, c, e, s.cache);
    }
  }

  lemma EvictedDbs<E, D(!new)>(c: Cache<E, D>)
    requires Tidy(c) && Counted(c) && c.entries != []
    ensures DbsKept(c, Evicted(c))
  {
    DroppedDbs(c, c.entries[|c.entries| - 1]);
    hide Counted;
  }

  // ------------------------------------------------------------- whole runs

  lemma StepKeepsInv<E(!new), D(!new)>(s: System<E, D>, a: Action<E, D>)
    requires Inv(s) && Enabled(s, a)
    ensures Inv(Next(s, a))
  {
    hide Next, Enabled, Tidy, Counted, RefsAreHolders, PlacesCounted, DbsAccounted;
    CacheStep(s, a);
    RefsStep(s, a);
    PlacesStep(s, a);
    DbsStep(s, a);
  }

  ghost predicate Reaches<E, D>(s: System<E, D>, run: seq<Action<E, D>>, t: System<E, D>)
    decreases |run|
  {
    if run == [] then s == t else Enabled(s, run[0]) && Reaches(Next(s, run[0]), run[1..], t)
  }

  lemma {:induction false} RunKeepsInv<E(!new), D(!new)>(s: System<E, D>, run: seq<Action<E, D>>, t: System<E, D>)
    requires Reaches(s, run, t)
    ensures Inv(s) ==> Inv(t)
    decreases |run|
  {
    hide Inv, Next, Enabled;
    if Inv(s) && run != [] {
      StepKeepsInv(s, run[0]);
      RunKeepsInv(Next(s, run[0]), run[1..], t);
    }
  }

  /** Over every run: the references of an entry are the callers that hold it; no database is
      closed twice, or while it is held; at most so many loads are under way, and so many
      entries cached, of different versions; and a caller that gives an entry back finds a
      reference to take off. */
  lemma BorrowingIsSafe<E(!new), D(!new)>(size: int, run: seq<Action<E, D>>, t: System<E, D>)
    requires Reaches(Start(size), run, t)
    ensures forall e :: e in t.cache.records ==> t.cache.records[e].refs == |Holders(t.callers, e)|
    ensures forall d :: d in t.cache.closes ==> t.cache.closes[d] <= 1
    ensures forall c, e :: c in t.callers && Holds(t.callers[c], e) ==>
      && e in t.cache.records && t.cache.records[e].refs > 0
      && t.cache.records[e].db in t.cache.closes && t.cache.closes[t.cache.records[e].db] == 0
    ensures |InFlight(t.callers)| <= t.cache.maxSize && |t.cache.entries| <= t.cache.maxSize
    ensures Listed(t.cache) && DistinctVersions(t.cache)
  {
    StartIsSound<E, D>(size);
    RunKeepsInv(Start(size), run, t);
    forall d | d in t.cache.closes ensures t.cache.closes[d] <= 1 {
      assert Kept(t, d) || t.cache.closes[d] == 1;
    }
    forall c, e | c in t.callers && Holds(t.callers[c], e)
      ensures e in t.cache.records && t.cache.records[e].refs > 0
      ensures t.cache.records[e].db in t.cache.closes && t.cache.closes[t.cache.records[e].db] == 0
    {
      HolderCounts(t, c, e);
    }
  }

  /** Once the cache is closed and no caller is busy, every database that was ever loaded has
      been closed exactly once. */
  lemma AllClosedInTheEnd<E(!new), D(!new)>(size: int, run: seq<Action<E, D>>, t: System<E, D>, d: D)
    requires Reaches(Start(size), run, t) && t.cache.closed && d in t.cache.closes
    requires forall c :: c in t.callers ==> t.callers[c].Idle? || t.callers[c].Waiting?
    ensures t.cache.closes[d] == 1
  {
    StartIsSound<E, D>(size);
    RunKeepsInv(Start(size), run, t);
    if Kept(t, d) {
      var e :| e in t.cache.records && t.cache.records[e].db == d;
      assert Holders(t.callers, e) == {};
    }
  }
}
