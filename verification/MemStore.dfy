/** The store as an object: a concurrent map of concurrent maps, mutated in place. Each method
    is proved against the atomic object for a caller that is alone; StoreMachine and
    Linearization cover the interleavings. The clock reading is a parameter. */
module MemStore {
  import opened Options
  import opened AtomicStore
  import opened SerialStore

  /** The part of Go's `sync.Map` the store uses. */
  class SyncMap<V(==)> {
    var entries: map<Name, V>

    constructor ()
      ensures entries == map[]
    {
      entries := map[];
    }

    method Load(key: Name) returns (value: Option<V>)
      ensures value == if key in entries then Some(entries[key]) else None
    {
      value := if key in entries then Some(entries[key]) else None;
    }

    method LoadOrStore(key: Name, value: V) returns (actual: V, loaded: bool)
      modifies this
      ensures loaded == (key in old(entries))
      ensures actual == if loaded then old(entries)[key] else value
      ensures entries == if loaded then old(entries) else old(entries)[key := value]
    {
      if key in entries {
        return entries[key], true;
      }
      entries := entries[key := value];
      return value, false;
    }

    method LoadAndDelete(key: Name) returns (value: Option<V>)
      modifies this
      ensures value == if key in old(entries) then Some(old(entries)[key]) else None
      ensures entries == old(entries) - {key}
      ensures value.None? ==> entries == old(entries)
    {
      value := if key in entries then Some(entries[key]) else None;
      entries := entries - {key};
    }

    method Delete(key: Name)
      modifies this
      ensures entries == if key in old(entries) then old(entries) - {key} else old(entries)
    {
      entries := entries - {key};
    }

    method Store(key: Name, value: V)
      modifies this
      ensures entries == old(entries)[key := value]
    {
      entries := entries[key := value];
    }

    method CompareAndSwap(key: Name, was: V, value: V) returns (swapped: bool)
      modifies this
      ensures swapped == (key in old(entries) && old(entries)[key] == was)
      ensures entries == if swapped then old(entries)[key := value] else old(entries)
    {
      if key in entries && entries[key] == was {
        entries := entries[key := value];
        return true;
      }
      return false;
    }

    method CompareAndDelete(key: Name, was: V) returns (deleted: bool)
      modifies this
      ensures deleted == (key in old(entries) && old(entries)[key] == was)
      ensures entries == if deleted then old(entries) - {key} else old(entries)
    {
      if key in entries && entries[key] == was {
        entries := entries - {key};
        return true;
      }
      return false;
    }
  }

  class MemStore {
    const scopes: SyncMap<SyncMap<Item>>

    /** No namespace shares its map with another. */
    ghost predicate Valid()
      reads this, scopes
    {
      forall m, n :: m in scopes.entries && n in scopes.entries && m != n ==> scopes.entries[m] != scopes.entries[n]
    }

    ghost function Db(): Contents
      reads this, scopes, scopes.entries.Values
    {
      map ns | ns in scopes.entries :: scopes.entries[ns].entries
    }

    constructor ()
      ensures Valid() && Db() == map[] && fresh(scopes)
    {
      scopes := new SyncMap();
    }

    /** The contents when only the map of `ns` holds anything new. */
    twostate lemma OneScope(ns: Name)
      requires old(Valid()) && Valid() && ns in scopes.entries && scopes.entries == old(scopes.entries)
      requires forall m :: m in scopes.entries && m != ns ==> scopes.entries[m].entries == old(scopes.entries[m].entries)
      ensures Db() == old(Db())[ns := scopes.entries[ns].entries]
    {
    }

    method Read(ns: Name, key: Name, now: Time) returns (r: Response)
      requires Valid()
      ensures r == SerialAnswer(Db(), Op.Read(ns, key), now)
    {
      var scoped := scopes.Load(ns);
      if scoped.None? {
        return Failed(InvalidNamespace);
      }
      var item := scoped.value.Load(key);
      if item.None? {
        return Failed(InvalidKey);
      }
      if item.value.purge < now {
        return Failed(ExpiredItem);
      }
      return Got(item.value.value);
    }

    method ReadAndRemove(ns: Name, key: Name, now: Time) returns (r: Response)
      requires Valid()
      modifies scopes.entries.Values
      ensures Valid() && scopes.entries == old(scopes.entries)
      ensures Db() == SerialAfter(old(Db()), Op.ReadAndRemove(ns, key), now)
      ensures r == SerialAnswer(old(Db()), Op.ReadAndRemove(ns, key), now)
    {
      var scoped := scopes.Load(ns);
      if scoped.None? {
        return Failed(InvalidNamespace);
      }
      var item := scoped.value.LoadAndDelete(key);
      OneScope(ns);
      if item.None? {
        return Failed(InvalidKey);
      }
      if item.value.purge < now {
        return Failed(ExpiredItem);
      }
      return Got(item.value.value);
    }

    /** Loads the namespace's map, creating it when it is missing. */
    method Scope(ns: Name) returns (scoped: SyncMap<Item>)
      requires Valid()
      modifies scopes
      ensures Valid() && ns in scopes.entries && scopes.entries[ns] == scoped
      ensures Db() == WithNamespace(old(Db()), ns)
      ensures ns in old(scopes.entries) ==> scopes.entries == old(scopes.entries)
      ensures fresh(scopes.entries.Values - old(scopes.entries.Values))
    {
      var found := scopes.Load(ns);
      if found.Some? {
        return found.value;
      }
      var created := new SyncMap();
      var loaded;
      scoped, loaded := scopes.LoadOrStore(ns, created);
      assert !loaded && Db() == old(Db())[ns := map[]];
    }

    method CheckAndSet(ns: Name, key: Name, value: Value, ttl: int, now: Time) returns (r: Response)
      requires Valid()
      modifies scopes, scopes.entries.Values
      ensures Valid() && fresh(scopes.entries.Values - old(scopes.entries.Values))
      ensures Db() == SerialAfter(old(Db()), Op.CheckAndSet(ns, key, value, ttl), now)
      ensures r == SerialAnswer(old(Db()), Op.CheckAndSet(ns, key, value, ttl), now)
    {
      SerialWrite(Db(), Op.CheckAndSet(ns, key, value, ttl), now);
      hide SerialAfter, SerialAnswer, WithNamespace;
      var scoped := Scope(ns);
      ghost var ready := Db();
      label Opened:
      var held, loaded := scoped.LoadOrStore(key, Item(now + ttl, value));
      OneScope@Opened(ns);
      if loaded {
        assert Db() == ready;
        return Failed(ItemAlreadyExists);
      }
      return Ok;
    }

    method Set(ns: Name, key: Name, value: Value, ttl: int, now: Time) returns (r: Response)
      requires Valid()
      modifies scopes, scopes.entries.Values
      ensures Valid() && fresh(scopes.entries.Values - old(scopes.entries.Values))
      ensures Db() == SerialAfter(old(Db()), Op.Set(ns, key, value, ttl), now)
      ensures r == SerialAnswer(old(Db()), Op.Set(ns, key, value, ttl), now)
    {
      SerialWrite(Db(), Op.Set(ns, key, value, ttl), now);
      hide SerialAfter, SerialAnswer, WithNamespace;
      var scoped := Scope(ns);
      ghost var ready := Db();
      label Opened:
      scoped.Store(key, Item(now + ttl, value));
      OneScope@Opened(ns);
      return Ok;
    }

    method Refresh(ns: Name, key: Name, ttl: int, now: Time) returns (r: Response)
      requires Valid()
      modifies scopes.entries.Values
      ensures Valid() && scopes.entries == old(scopes.entries)
      ensures Db() == SerialAfter(old(Db()), Op.Refresh(ns, key, ttl), now)
      ensures r == SerialAnswer(old(Db()), Op.Refresh(ns, key, ttl), now)
    {
      SerialRefresh(Db(), Op.Refresh(ns, key, ttl), now);
      hide SerialAfter, SerialAnswer;
      var scoped := scopes.Load(ns);
      if scoped.None? {
        return Failed(InvalidNamespace);
      }
      var item := scoped.value.Load(key);
      if item.None? {
        return Failed(InvalidKey);
      }
      var newItem := Item(now + ttl, item.value.value);
      var swapped := scoped.value.CompareAndSwap(key, item.value, newItem);
      OneScope(ns);
      if !swapped {
        return Failed(ItemChanged);
      }
      return Ok;
    }

    method Remove(ns: Name, key: Name, now: Time)
      requires Valid()
      modifies scopes.entries.Values
      ensures Valid() && scopes.entries == old(scopes.entries)
      ensures Db() == SerialAfter(old(Db()), Op.Remove(ns, key), now)
    {
      SerialRemove(Db(), Op.Remove(ns, key), now);
      hide SerialAfter;
      var scoped := scopes.Load(ns);
      if scoped.Some? {
        scoped.value.Delete(key);
        OneScope(ns);
      }
    }

    /** One pass of the collector: both Ranges in any order. */
    method Collect(now: Time)
      requires Valid()
      modifies scopes.entries.Values
      ensures Valid() && scopes.entries == old(scopes.entries)
      ensures Db() == WithoutExpired(old(Db()), now)
    {
      ghost var db := Db();
      var todo := scopes.entries.Keys;
      while todo != {}
        invariant scopes.entries == old(scopes.entries) && todo <= scopes.entries.Keys
        invariant forall ns :: ns in scopes.entries ==>
                    scopes.entries[ns].entries == if ns in todo then db[ns] else WithoutExpired(db, now)[ns]
        decreases todo
      {
        var ns :| ns in todo;
        CollectScope(scopes.entries[ns], now);
        todo := todo - {ns};
      }
    }

    method CollectScope(scoped: SyncMap<Item>, now: Time)
      modifies scoped
      ensures scoped.entries
           == map key | key in old(scoped.entries) && old(scoped.entries)[key].purge >= now :: old(scoped.entries)[key]
    {
      var items := scoped.entries;
      var todo := items.Keys;
      while todo != {}
        invariant todo <= items.Keys
        invariant forall key :: key in scoped.entries <==> key in items && (key in todo || items[key].purge >= now)
        invariant forall key :: key in scoped.entries ==> scoped.entries[key] == items[key]
        decreases todo
      {
        var key :| key in todo;
        todo := todo - {key};
        if items[key].purge < now {
          var _ := scoped.CompareAndDelete(key, items[key]);
        }
      }
    }
  }
}
