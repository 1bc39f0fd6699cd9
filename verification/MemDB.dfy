/** The overlays a block runs on: a write buffer over a committed cache over the store. */
module MemDBs {
  import opened Basics
  import opened Transfers

  /** The persistent store, one balance per key that was ever written. */
  class PrefixStore {
    var data: Balances

    constructor (data: Balances)
      ensures this.data == data
    {
      this.data := data;
    }
  }

  /** rb extended with the balances of the accounts that were read from below the write buffer. */
  ghost function Cached(rb: Balances, accounts: set<Account>, wb: Balances, committed: Balances): Balances {
    rb + (map a | a in accounts && a !in wb :: Lookup(committed, a))
  }

  class MemoryDB {
    const db: PrefixStore
    var memDB: Balances
    var writeBuffer: Balances
    var readBuffer: Balances

    /** Level one: what CommitWrite has kept, over the store. */
    ghost function Committed(): Balances
      reads this, db
    {
      db.data + memDB
    }

    /** Level two: what the running transaction sees. */
    ghost function Current(): Balances
      reads this, db
    {
      Committed() + writeBuffer
    }

    /** Cached reads are never stale. */
    ghost predicate Valid()
      reads this, db
    {
      forall k :: k in readBuffer ==> readBuffer[k] == Lookup(Committed(), k)
    }

    constructor (db: PrefixStore)
      ensures Valid() && this.db == db
      ensures memDB == map[] && writeBuffer == map[] && readBuffer == map[]
      ensures Committed() == db.data
    {
      this.db := db;
      memDB, writeBuffer, readBuffer := map[], map[], map[];
      new;
      assert db.data + map[] == db.data;
    }

    /** A read from below both buffers: the cache of the store, which a first read fills. */
    method Load(key: Account) returns (v: uint32)
      requires Valid()
      modifies this`memDB
      ensures v == Lookup(Committed(), key) && Committed() == old(Committed())
      ensures memDB.Keys <= old(memDB).Keys + db.data.Keys
    {
      if key in memDB {
        return memDB[key];
      }
      if key !in db.data {
        return INIT_BALANCE;
      }
      v := db.data[key];
      memDB := memDB[key := v];
      assert Committed() == old(Committed());
    }

    method Get(key: Account) returns (v: uint32)
      requires Valid()
      modifies this
      ensures Valid()
      ensures v == Lookup(Current(), key)
      ensures Committed() == old(Committed()) && writeBuffer == old(writeBuffer)
      ensures readBuffer == Cached(old(readBuffer), {key}, writeBuffer, Committed())
      ensures memDB.Keys <= old(memDB).Keys + db.data.Keys
    {
      if key in writeBuffer {
        return writeBuffer[key];
      }
      if key in readBuffer {
        return readBuffer[key];
      }
      v := Load(key);
      readBuffer := readBuffer[key := v];
    }

    method Set(key: Account, value: uint32)
      requires Valid()
      modifies this`writeBuffer
      ensures Valid()
      ensures writeBuffer == old(writeBuffer)[key := value]
      ensures Current() == old(Current())[key := value]
    {
      writeBuffer := writeBuffer[key := value];
    }

    method CommitWrite(keep: bool)
      requires Valid()
      modifies this
      ensures Valid()
      ensures writeBuffer == map[] && readBuffer == map[]
      ensures memDB == if keep then old(memDB) + old(writeBuffer) else old(memDB)
      ensures Committed() == if keep then old(Current()) else old(Committed())
    {
      if keep {
        memDB := memDB + writeBuffer;
      }
      writeBuffer, readBuffer := map[], map[];
    }

    /** Persists the committed entries inside a key range and forgets the rest. */
    method WriteRange(range: Account -> bool)
      modifies this`memDB, db
      ensures db.data == old(db.data) + (map k | k in old(memDB) && range(k) :: old(memDB)[k])
      ensures memDB == map[]
    {
      db.data := db.data + map k | k in memDB && range(k) :: memDB[k];
      memDB := map[];
    }
  }

  /** The two ways a transaction reaches an overlay. */
  datatype TxDB = RangeDB(db: MemoryDB, range: Account -> bool) | CrossShardDB(db: MemoryDB, crossShardData: Balances)
  {
    /** What a read returns now. */
    ghost function Now(): View
      reads db, db.db
    {
      match this
      case RangeDB(_, range) => Ranged(db.Current(), range)
      case CrossShardDB(_, data) => Shipped(data + db.writeBuffer)
    }

    /** Everything but the buffers stays as it is; cached reads are added on the range path. */
    twostate predicate ReadOnly(accounts: set<Account>)
      reads db, db.db
    {
      && db.Committed() == old(db.Committed())
      && db.writeBuffer == old(db.writeBuffer)
      && db.readBuffer == (if RangeDB? then Cached(old(db.readBuffer), accounts, db.writeBuffer, db.Committed())
                           else old(db.readBuffer))
      && (CrossShardDB? ==> db.memDB == old(db.memDB))
    }

    method Get(key: Account) returns (r: Option<uint32>)
      requires db.Valid()
      modifies db
      ensures db.Valid()
      ensures r == Now().Read(key) && Now() == old(Now())
      ensures r.Some? ==> ReadOnly({key})
      ensures db.Committed() == old(db.Committed()) && db.writeBuffer == old(db.writeBuffer)
      ensures CrossShardDB? ==> db.memDB == old(db.memDB) && db.readBuffer == old(db.readBuffer)
    {
      match this {
        case RangeDB(m, range) =>
          if !range(key) {
            return None;
          }
          var v := m.Get(key);
          r := Some(v);
        case CrossShardDB(m, data) =>
          if key in m.writeBuffer {
            r := Some(m.writeBuffer[key]);
          } else if key in data {
            r := Some(data[key]);
          } else {
            r := None;
          }
      }
    }

    method Set(key: Account, value: uint32) returns (ok: bool)
      requires db.Valid()
      modifies db`writeBuffer
      ensures db.Valid()
      ensures ok == (RangeDB? ==> range(key))
      ensures db.writeBuffer == if ok then old(db.writeBuffer)[key := value] else old(db.writeBuffer)
    {
      if RangeDB? && !range(key) {
        return false;
      }
      db.Set(key, value);
      ok := true;
    }

    method GetReadSet() returns (m: Balances)
      ensures m == if RangeDB? then db.readBuffer else crossShardData
    {
      match this
      case RangeDB(d, _) => m := d.readBuffer;
      case CrossShardDB(_, data) => m := data;
    }
  }
}
