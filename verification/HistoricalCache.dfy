/** The cache of databases loaded at old versions. Borrowers share an entry, and a database
    that is no longer cached is closed by whoever uses it last. Each method is one critical
    section; `HistoricalProtocol` says what callers make of them. */
module HistoricalCaches {
  import opened HistoricalStates

  const DEFAULT_SIZE := 4

  class Database {
    // how often it was closed
    ghost var closes: nat

    constructor ()
      ensures closes == 0
    {
      closes := 0;
    }

    method Close()
      modifies this
      ensures closes == old(closes) + 1
    {
      closes := closes + 1;
    }
  }

  class Entry {
    const version: int
    const db: Database
    var refs: int
    var evicted: bool

    constructor (version: int, db: Database)
      ensures this.version == version && this.db == db && refs == 1 && !evicted
    {
      this.version, this.db, refs, evicted := version, db, 1, false;
    }
  }

  datatype Borrowed = CacheClosed | Hit(entry: Entry) | Miss

  class HistoricalCache {
    const maxSize: nat
    var entries: seq<Entry>
    var closed: bool
    // every entry there ever was, and every database loaded
    ghost var all: set<Entry>
    ghost var dbs: set<Database>

    ghost function Value(): Cache<Entry, Database>
      reads this, all, dbs
    {
      Cache(maxSize, entries, closed,
        map e | e in all :: Record(e.version, e.db, e.refs, e.evicted),
        map d | d in dbs :: d.closes)
    }

    ghost predicate Valid()
      reads this, all
    {
      maxSize >= 1 && (forall e :: e in entries ==> e in all) && (forall e :: e in all ==> e.db in dbs)
    }

    constructor (size: int)
      ensures Valid() && Value() == Cache(if size <= 0 then DEFAULT_SIZE else size, [], false, map[], map[])
    {
      maxSize := if size <= 0 then DEFAULT_SIZE else size;
      entries, closed, all, dbs := [], false, {}, {};
    }

    /** Finds an entry, takes a reference, and moves it to the front. */
    method Lookup(version: int) returns (e: Entry?)
      requires Valid()
      modifies this`entries, all
      ensures Valid() && Listed(old(Value()))
      ensures var i := IndexOf(old(Value()), version);
        if i < 0 then e == null && Value() == old(Value())
        else e == old(entries)[i] && Value() == Taken(old(Value()), i)
    {
      hide IndexOf;
      for i := 0 to |entries|
        invariant forall k :: 0 <= k < i ==> entries[k].version != version
        invariant entries == old(entries) && Value() == old(Value())
      {
        if entries[i].version == version {
          assert IndexOf(Value(), version) == i by { FoundAt(Value(), version, i); }
          e := entries[i];
          e.refs := e.refs + 1;
          entries := [e] + entries[..i] + entries[i + 1..];
          assert Value().records == Taken(old(Value()), i).records;
          return;
        }
      }
      NotFound(Value(), version);
      return null;
    }

    /** The first half of a borrow. */
    method BeginBorrow(version: int) returns (r: Borrowed)
      requires Valid()
      modifies this`entries, all
      ensures Valid() && Listed(old(Value()))
      ensures var i := IndexOf(old(Value()), version);
        if old(closed) then r == CacheClosed && Value() == old(Value())
        else if i < 0 then r == Miss && Value() == old(Value())
        else r == Hit(old(entries)[i]) && Value() == Taken(old(Value()), i)
    {
      hide IndexOf, Taken;
      if closed {
        return CacheClosed;
      }
      var e := Lookup(version);
      if e != null {
        return Hit(e);
      }
      return Miss;
    }

    /** A load brings a database that nobody else knows. */
    method Load() returns (db: Database)
      requires Valid()
      modifies this`dbs
      ensures Valid() && fresh(db) && db in dbs
      ensures Value() == old(Value()).(closes := old(Value()).closes[db := 0])
    {
      db := new Database();
      dbs := dbs + {db};
      assert Value().closes == old(Value()).closes[db := 0];
    }

    /** Takes an entry out of the list that it is in; its database is closed unless it is
        borrowed. */
    method Drop(e: Entry)
      requires Valid() && e in all
      modifies e, e.db
      ensures Valid() && Value() == Dropped(old(Value()), e)
    {
      e.evicted := true;
      if e.refs == 0 {
        e.db.Close();
      }
      assert Value().records == Dropped(old(Value()), e).records;
      assert Value().closes == Dropped(old(Value()), e).closes;
    }

    /** The second half of a borrow, with a database that was loaded. If it is not put into the
        cache, the caller is to close it. */
    method EndBorrow(version: int, db: Database) returns (r: Borrowed, inserted: bool)
      requires Valid() && db in dbs
      modifies this`entries, this`all, all, dbs
      ensures Valid() && Listed(old(Value()))
      ensures var i := IndexOf(old(Value()), version);
        if old(closed) then r == CacheClosed && !inserted && Value() == old(Value())
        else if i >= 0 then r == Hit(old(entries)[i]) && !inserted && Value() == Taken(old(Value()), i)
        else r.Hit? && fresh(r.entry) && inserted && Value() == Added(old(Value()), r.entry, version, db)
    {
      hide IndexOf, Taken, Evicted, HistoricalCache.Value;
      EntriesListed();
      if closed {
        return CacheClosed, false;
      }
      var e := Lookup(version);
      if e != null {
        return Hit(e), false;
      }
      EntriesListed();
      if |entries| >= maxSize {
        EvictOldest();
        EntriesListed();
      }
      var entry := PutInFront(version, db);
      return Hit(entry), true;
    }

    lemma EntriesListed()
      requires Valid()
      ensures Listed(Value()) && Value().entries == entries && Value().closed == closed && Value().maxSize == maxSize
    {
    }

    /** Makes room for one entry. */
    method EvictOldest()
      requires Valid() && entries != []
      modifies this`entries, all, dbs
      ensures Valid() && Listed(old(Value())) && Value() == Evicted(old(Value()))
    {
      hide Dropped;
      var oldest := entries[|entries| - 1];
      Drop(oldest);
      entries := entries[..|entries| - 1];
    }

    method PutInFront(version: int, db: Database) returns (e: Entry)
      requires Valid() && db in dbs
      modifies this`entries, this`all
      ensures Valid() && fresh(e)
      ensures Value() == old(Value()).(entries := [e] + old(entries),
        records := old(Value()).records[e := Record(version, db, 1, false)])
    {
      e := new Entry(version, db);
      entries := [e] + entries;
      all := all + {e};
      assert Value().records == old(Value()).records[e := Record(version, db, 1, false)];
    }

    /** Giving back more than was borrowed is a panic. */
    method Release(e: Entry?) returns (panics: bool)
      requires Valid() && (e != null ==> e in all)
      modifies all, dbs
      ensures Valid()
      ensures panics <==> e != null && old(e.refs) <= 0
      ensures Value() == if e == null || panics then old(Value()) else Released(old(Value()), e)
    {
      if e == null {
        return false;
      }
      if e.refs <= 0 {
        return true;
      }
      e.refs := e.refs - 1;
      if e.refs == 0 && e.evicted {
        e.db.Close();
      }
      assert Value().records == Released(old(Value()), e).records;
      assert Value().closes == Released(old(Value()), e).closes;
      return false;
    }

    /** Empties the cache; databases still borrowed are left to their borrowers. */
    method Close()
      requires Valid()
      modifies this`entries, this`closed, all, dbs
      ensures Valid() && Listed(old(Value())) && Value() == Shut(old(Value()))
    {
      hide HistoricalCache.Value, DroppedAll;
      EntriesListed();
      SetClosed();
      EntriesListed();
      DropAll();
      SetEntries([]);
    }

    method SetClosed()
      modifies this`closed
      ensures closed && Value() == old(Value()).(closed := true)
    {
      closed := true;
    }

    method SetEntries(list: seq<Entry>)
      modifies this`entries
      ensures entries == list && Value() == old(Value()).(entries := list)
    {
      entries := list;
    }

    method DropAll()
      requires Valid()
      modifies all, dbs
      ensures Valid() && Listed(old(Value())) && Value() == DroppedAll(old(Value()), entries)
    {
      hide Dropped, HistoricalCache.Value;
      EntriesListed();
      assert entries[..0] == [];
      for i := 0 to |entries|
        invariant Valid() && entries == old(entries) && all == old(all) && dbs == old(dbs)
        invariant Value() == DroppedAll(old(Value()), entries[..i])
      {
        assert entries[..i + 1][..i] == entries[..i];
        Drop(entries[i]);
      }
      assert entries[..|entries|] == entries;
    }
  }

  lemma FoundAt(c: Cache<Entry, Database>, version: int, i: nat)
    requires Listed(c) && i < |c.entries| && c.records[c.entries[i]].version == version
    requires forall k :: 0 <= k < i ==> c.records[c.entries[k]].version != version
    ensures IndexOf(c, version) == i
  {
    hide IndexOf;
    var r := IndexOf(c, version);
    assert r >= 0 && r >= i;
  }

  lemma NotFound(c: Cache<Entry, Database>, version: int)
    requires Listed(c) && forall k :: 0 <= k < |c.entries| ==> c.records[c.entries[k]].version != version
    ensures IndexOf(c, version) < 0
  {
    hide IndexOf;
  }
}
