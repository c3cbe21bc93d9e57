/** The store used by one caller at a time: each operation as a function of the contents and
    the clock, and what collection passes in between can and cannot change. */
module SerialStore {
  import opened Options
  import opened AtomicStore

  function WithNamespace(db: Contents, ns: Name): Contents {
    if ns in db then db else db[ns := map[]]
  }

  /** Writers open their namespace first. */
  function Prepared(db: Contents, op: Op): Contents {
    if op.Writes() then WithNamespace(db, op.ns) else db
  }

  /** The one effect `op` has on these contents at this time. */
  function SerialEffect(db: Contents, op: Op, now: Time): Effect {
    var held := Lookup(db, op.ns, op.key);
    if op.Writes() then
      var item := Item(now + op.ttl, op.value);
      if op.CheckAndSet? then if held.Some? then Refused(held.value) else Inserted(item)
      else if held.Some? then Overwrote(held.value, item)
      else Wrote(item)
    else if op.ns !in db then NoNamespace
    else if held.None? then NoKey
    else if op.Read? then Looked(held.value)
    else if op.ReadAndRemove? then Took(held.value)
    else if op.Refresh? then Swapped(held.value, Item(now + op.ttl, held.value.value))
    else Removed(held.value)
  }

  function SerialAfter(db: Contents, op: Op, now: Time): Contents {
    var ready := Prepared(db, op);
    if op.ns in ready then Effected(ready, op.ns, op.key, SerialEffect(db, op, now)) else ready
  }

  function SerialAnswer(db: Contents, op: Op, now: Time): Response {
    Verdict(op, SerialEffect(db, op, now), now)
  }

  /** A serial call is a legal call of the atomic object, made and answered in one instant. */
  lemma SerialIsAtomic(db: Contents, op: Op, now: Time, t: ThreadId, since: nat)
    ensures Prepared(db, op) != db ==> Legal(db, Opened(op.ns)) && Prepared(db, op) == Apply(db, Opened(op.ns))
    ensures Legal(Prepared(db, op), Called(t, op, SerialEffect(db, op, now), now, since, now))
    ensures !SerialEffect(db, op, now).Changed?
    ensures SerialAfter(db, op, now) == Apply(Prepared(db, op), Called(t, op, SerialEffect(db, op, now), now, since, now))
  {
  }

  // ----- what each operation does, spelled out

  lemma SerialRead(db: Contents, op: Op, now: Time)
    requires op.Read? || op.ReadAndRemove?
    ensures SerialAnswer(db, op, now) ==
              if op.ns !in db then Failed(InvalidNamespace)
              else if op.key !in db[op.ns] then Failed(InvalidKey)
              else if db[op.ns][op.key].purge < now then Failed(ExpiredItem)
              else Got(db[op.ns][op.key].value)
    ensures SerialAfter(db, op, now) ==
              if op.ReadAndRemove? && op.ns in db then db[op.ns := db[op.ns] - {op.key}] else db
  {
    if op.ns in db && op.key !in db[op.ns] {
      assert db[op.ns] - {op.key} == db[op.ns];
      assert db[op.ns := db[op.ns]] == db;
    }
  }

  lemma SerialWrite(db: Contents, op: Op, now: Time)
    requires op.CheckAndSet? || op.Set?
    ensures var keys := if op.ns in db then db[op.ns] else map[];
            var ready := db[op.ns := keys];
            var free := op.Set? || op.key !in keys;
            && Prepared(db, op) == ready
            && SerialAfter(db, op, now)
               == (if free then db[op.ns := keys[op.key := Item(now + op.ttl, op.value)]] else ready)
            && SerialAnswer(db, op, now) == (if free then Ok else Failed(ItemAlreadyExists))
  {
    var keys := if op.ns in db then db[op.ns] else map[];
    assert Prepared(db, op) == db[op.ns := keys];
    var more := keys[op.key := Item(now + op.ttl, op.value)];
    assert db[op.ns := keys][op.ns := more] == db[op.ns := more];
  }

  lemma SerialRefresh(db: Contents, op: Op, now: Time)
    requires op.Refresh?
    ensures SerialAfter(db, op, now) ==
              if op.ns in db && op.key in db[op.ns]
              then db[op.ns := db[op.ns][op.key := Item(now + op.ttl, db[op.ns][op.key].value)]] else db
    ensures SerialAnswer(db, op, now) ==
              if op.ns !in db then Failed(InvalidNamespace) else if op.key !in db[op.ns] then Failed(InvalidKey) else Ok
  {
  }

  lemma SerialRemove(db: Contents, op: Op, now: Time)
    requires op.Remove?
    ensures SerialAfter(db, op, now) == if op.ns in db then db[op.ns := db[op.ns] - {op.key}] else db
    ensures SerialAnswer(db, op, now) == Ok
  {
    if op.ns in db && op.key !in db[op.ns] {
      assert db[op.ns] - {op.key} == db[op.ns];
      assert db[op.ns := db[op.ns]] == db;
    }
  }

  /** What a whole collection pass leaves. */
  function WithoutExpired(db: Contents, now: Time): Contents {
    map ns | ns in db :: map key | key in db[ns] && db[ns][key].purge >= now :: db[ns][key]
  }

  // ----- collection is invisible to readers

  /** What a read at `now` can return. */
  function Visible(db: Contents, ns: Name, key: Name, now: Time): Option<Value> {
    var held := Lookup(db, ns, key);
    if held.Some? && held.value.purge >= now then Some(held.value.value) else None
  }

  /** The two agree on every item that is live at `now`, purge times included. */
  ghost predicate SameLive(a: Contents, b: Contents, now: Time) {
    forall ns, key, item: Item | item.purge >= now ::
      Lookup(a, ns, key) == Some(item) <==> Lookup(b, ns, key) == Some(item)
  }

  datatype Command = Call(op: Op, now: Time) | Collect(now: Time)

  function Execute(db: Contents, c: Command): Contents {
    match c
    case Call(op, now) => SerialAfter(db, op, now)
    case Collect(now) => WithoutExpired(db, now)
  }

  /** What the caller of a read learns: the value, or that there is none to be had. */
  function Learned(db: Contents, op: Op, now: Time): Option<Value> {
    var answer := SerialAnswer(db, op, now);
    if answer.Got? then Some(answer.value) else None
  }

  /** The values returned to the calls, in order. */
  function Observations(db: Contents, commands: seq<Command>): seq<Option<Value>>
    decreases commands
  {
    if commands == [] then []
    else
      var c := commands[0];
      (if c.Call? then [Learned(db, c.op, c.now)] else []) + Observations(Execute(db, c), commands[1..])
  }

  function WithoutPasses(commands: seq<Command>): seq<Command> {
    if commands == [] then []
    else (if commands[0].Call? then [commands[0]] else []) + WithoutPasses(commands[1..])
  }

  /** The clock does not run backwards, and no CheckAndSet or Refresh is used. */
  ghost predicate Plain(commands: seq<Command>, now: Time) {
    commands == [] ||
    var c := commands[0];
    && now <= c.now
    && (c.Call? ==> !c.op.CheckAndSet? && !c.op.Refresh?)
    && Plain(commands[1..], c.now)
  }

  lemma CollectedLookup(db: Contents, now: Time, ns: Name, key: Name)
    ensures Lookup(WithoutExpired(db, now), ns, key)
         == if Lookup(db, ns, key).Some? && Lookup(db, ns, key).value.purge >= now then Lookup(db, ns, key) else None
  {
  }

  lemma SerialLookup(db: Contents, op: Op, now: Time, ns: Name, key: Name)
    requires !op.CheckAndSet? && !op.Refresh?
    ensures Lookup(SerialAfter(db, op, now), ns, key)
         == if op.ns != ns || op.key != key || op.Read? then Lookup(db, ns, key)
            else if op.Set? then Some(Item(now + op.ttl, op.value)) else None
  {
  }

  lemma SameLiveLater(a: Contents, b: Contents, now: Time, later: Time)
    requires SameLive(a, b, now) && now <= later
    ensures SameLive(a, b, later)
  {
  }

  lemma PassKeepsSameLive(a: Contents, b: Contents, now: Time)
    requires SameLive(a, b, now)
    ensures SameLive(WithoutExpired(a, now), b, now)
  {
    forall ns, key, item: Item | item.purge >= now
      ensures Lookup(WithoutExpired(a, now), ns, key) == Some(item) <==> Lookup(b, ns, key) == Some(item)
    {
      CollectedLookup(a, now, ns, key);
      assert Lookup(a, ns, key) == Some(item) <==> Lookup(b, ns, key) == Some(item);
    }
  }

  lemma CallKeepsSameLive(a: Contents, b: Contents, op: Op, now: Time)
    requires SameLive(a, b, now) && !op.CheckAndSet? && !op.Refresh?
    ensures SameLive(SerialAfter(a, op, now), SerialAfter(b, op, now), now)
    ensures Learned(a, op, now) == Learned(b, op, now)
  {
    forall ns, key, item: Item | item.purge >= now
      ensures Lookup(SerialAfter(a, op, now), ns, key) == Some(item)
         <==> Lookup(SerialAfter(b, op, now), ns, key) == Some(item)
    {
      SerialLookup(a, op, now, ns, key);
      SerialLookup(b, op, now, ns, key);
      assert Lookup(a, ns, key) == Some(item) <==> Lookup(b, ns, key) == Some(item);
    }
    VisibleAgrees(a, b, op.ns, op.key, now);
    LearnedIsVisible(a, op, now);
    LearnedIsVisible(b, op, now);
  }

  lemma VisibleAgrees(a: Contents, b: Contents, ns: Name, key: Name, now: Time)
    requires SameLive(a, b, now)
    ensures Visible(a, ns, key, now) == Visible(b, ns, key, now)
  {
    if Visible(a, ns, key, now).Some? {
      assert Lookup(b, ns, key) == Some(Lookup(a, ns, key).value);
    }
    if Visible(b, ns, key, now).Some? {
      assert Lookup(a, ns, key) == Some(Lookup(b, ns, key).value);
    }
  }

  lemma LearnedIsVisible(db: Contents, op: Op, now: Time)
    ensures Learned(db, op, now)
         == if op.Read? || op.ReadAndRemove? then Visible(db, op.ns, op.key, now) else None
  {
  }

  lemma {:induction false} PassesChangeNothing(a: Contents, b: Contents, commands: seq<Command>, now: Time)
    requires SameLive(a, b, now) && Plain(commands, now)
    ensures Observations(a, commands) == Observations(b, WithoutPasses(commands))
    decreases commands
  {
    if commands != [] {
      var c, rest := commands[0], commands[1..];
      SameLiveLater(a, b, now, c.now);
      if c.Call? {
        CallKeepsSameLive(a, b, c.op, c.now);
        PassesChangeNothing(SerialAfter(a, c.op, c.now), SerialAfter(b, c.op, c.now), rest, c.now);
        assert WithoutPasses(commands)[1..] == WithoutPasses(rest);
      } else {
        PassKeepsSameLive(a, b, c.now);
        PassesChangeNothing(WithoutExpired(a, c.now), b, rest, c.now);
        assert WithoutPasses(commands) == WithoutPasses(rest);
      }
    }
  }

  /** Collection is invisible to readers: in any sequence of Read, ReadAndRemove, Set and
      Remove calls, passes inserted anywhere change no value that any read returns. */
  lemma CollectionIsInvisible(db: Contents, commands: seq<Command>)
    requires forall i, j :: 0 <= i < j < |commands| ==> commands[i].now <= commands[j].now
    requires forall i :: 0 <= i < |commands| && commands[i].Call? ==>
               commands[i].op.Read? || commands[i].op.ReadAndRemove? || commands[i].op.Set? || commands[i].op.Remove?
    ensures Observations(db, commands) == Observations(db, WithoutPasses(commands))
  {
    if commands != [] {
      InOrderIsPlain(commands, commands[0].now);
      PassesChangeNothing(db, db, commands, commands[0].now);
    }
  }

  lemma {:induction false} InOrderIsPlain(commands: seq<Command>, now: Time)
    requires forall i, j :: 0 <= i < j < |commands| ==> commands[i].now <= commands[j].now
    requires forall i :: 0 <= i < |commands| && commands[i].Call? ==>
               commands[i].op.Read? || commands[i].op.ReadAndRemove? || commands[i].op.Set? || commands[i].op.Remove?
    requires commands != [] ==> now <= commands[0].now
    ensures Plain(commands, now)
    decreases commands
  {
    if commands != [] { InOrderIsPlain(commands[1..], commands[0].now); }
  }

  // ----- where collection shows

  /** A pass just before a call changes its answer exactly when the key holds an item that
      the pass collects, and the call is not one that answers Ok anyway. For the two reads it
      is the error that changes; CheckAndSet and Refresh look at presence, not at expiry. */
  lemma CollectionShowsExactlyWhen(db: Contents, op: Op, cutoff: Time, now: Time)
    ensures SerialAnswer(WithoutExpired(db, cutoff), op, now) != SerialAnswer(db, op, now)
       <==> !op.Set? && !op.Remove? && Lookup(db, op.ns, op.key).Some? && Lookup(db, op.ns, op.key).value.purge < cutoff
  {
    CollectedLookup(db, cutoff, op.ns, op.key);
    assert op.ns in WithoutExpired(db, cutoff) <==> op.ns in db;
    hide WithoutExpired;
  }

  /** So a key whose item has expired is refused to CheckAndSet, and its item revived by
      Refresh, until a pass has come by. */
  lemma ExpiredItemsLinger(ns: Name, key: Name, value: Value, ttl: int)
    ensures var db := SerialAfter(map[], Set(ns, key, value, 0), 0);
            var insert, extend := CheckAndSet(ns, key, value, ttl), Refresh(ns, key, ttl);
            && SerialAnswer(db, Read(ns, key), 1) == Failed(ExpiredItem)
            && SerialAnswer(db, insert, 1) == Failed(ItemAlreadyExists) && SerialAnswer(WithoutExpired(db, 1), insert, 1) == Ok
            && SerialAnswer(db, extend, 1) == Ok && SerialAnswer(WithoutExpired(db, 1), extend, 1) == Failed(InvalidKey)
            && Lookup(SerialAfter(db, extend, 1), ns, key) == Some(Item(1 + ttl, value))
  {
    var db := SerialAfter(map[], Set(ns, key, value, 0), 0);
    assert db == map[ns := map[key := Item(0, value)]];
    CollectedLookup(db, 1, ns, key);
    assert ns in WithoutExpired(db, 1);
    hide WithoutExpired;
  }
}
