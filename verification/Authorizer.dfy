/** The authorizer's two bounded retry loops over CheckAndSet. Random strings come from an
    oracle: one draw per attempt, with the clock reading the store takes for it. */
module Authorizer {
  import opened Options
  import opened AtomicStore
  import opened SerialStore
  import opened MemStore

  const RETRIES: nat := 10
  const CODE_SIZE := 32
  const AUTH_CODES: Name := "auth_code"
  const QR_TOKENS: Name := "qrc"

  datatype Draw = Draw(text: Option<string>, now: Time)

  datatype Error = RandomFailed | StoreFailed(error: StoreError)

  /** How a retry loop ends: at attempt `index`, or not before the retries ran out. */
  datatype Ending = Issued(index: nat) | DrawFailed(index: nat) | Exhausted

  predicate Collides(db: Contents, ns: Name, draw: Draw) {
    draw.text.Some? && Lookup(db, ns, draw.text.value).Some?
  }

  /** The loop stops at the first draw that fails or that names a free key. */
  function EndingFrom(db: Contents, ns: Name, draws: seq<Draw>, i: nat): (e: Ending)
    requires i <= RETRIES <= |draws|
    ensures e.Issued? ==> i <= e.index < RETRIES && draws[e.index].text.Some?
    ensures e.DrawFailed? ==> i <= e.index < RETRIES && draws[e.index].text.None?
    decreases RETRIES - i
  {
    if i == RETRIES then Exhausted
    else if draws[i].text.None? then DrawFailed(i)
    else if Collides(db, ns, draws[i]) then EndingFrom(db, ns, draws, i + 1)
    else Issued(i)
  }

  /** The contents afterwards: one new item if a key was issued, and otherwise nothing but
      the namespace, opened by the first attempt that got as far as the store. */
  function Aftermath(db: Contents, ns: Name, value: Value, ttl: int, draws: seq<Draw>): Contents
    requires RETRIES <= |draws|
  {
    match EndingFrom(db, ns, draws, 0)
    case Issued(i) => Put(WithNamespace(db, ns), ns, draws[i].text.value, Item(draws[i].now + ttl, value))
    case DrawFailed(i) => if i == 0 then db else WithNamespace(db, ns)
    case Exhausted => WithNamespace(db, ns)
  }

  /** What is issued was free, came within ten tries, and every earlier try met a held key. */
  lemma {:induction false} EndingIsFirst(db: Contents, ns: Name, draws: seq<Draw>, i: nat)
    requires i <= RETRIES <= |draws|
    ensures var e := EndingFrom(db, ns, draws, i);
            && (e.Issued? ==> !Collides(db, ns, draws[e.index]))
            && forall j :: i <= j < (if e.Exhausted? then RETRIES else e.index) ==> Collides(db, ns, draws[j])
    decreases RETRIES - i
  {
    if i < RETRIES && Collides(db, ns, draws[i]) {
      EndingIsFirst(db, ns, draws, i + 1);
    }
  }

  lemma {:induction false} CollisionsGoOn(db: Contents, ns: Name, draws: seq<Draw>, i: nat)
    requires i <= RETRIES <= |draws|
    requires forall j :: 0 <= j < i ==> Collides(db, ns, draws[j])
    ensures EndingFrom(db, ns, draws, 0) == EndingFrom(db, ns, draws, i)
  {
    if i > 0 {
      CollisionsGoOn(db, ns, draws, i - 1);
    }
  }

  /** "No error" does not mean "a code was issued": GenerateAuthorizationRequest answers an
      empty code and no error exactly when all ten draws name held keys. */
  lemma ExhaustedExactlyWhen(db: Contents, ns: Name, draws: seq<Draw>)
    requires 10 <= |draws|
    ensures EndingFrom(db, ns, draws, 0) == Exhausted <==> forall j :: 0 <= j < 10 ==> Collides(db, ns, draws[j])
  {
    EndingIsFirst(db, ns, draws, 0);
  }

  /** A loop issues its `i`-th draw exactly when that is one of the first ten, names a free
      key, and all before it name held ones. */
  lemma IssuedExactlyWhen(db: Contents, ns: Name, draws: seq<Draw>, i: nat)
    requires 10 <= |draws| && i < |draws|
    ensures EndingFrom(db, ns, draws, 0) == Issued(i) <==>
              && i < 10
              && draws[i].text.Some? && Lookup(db, ns, draws[i].text.value).None?
              && forall j :: 0 <= j < i ==> draws[j].text.Some? && Lookup(db, ns, draws[j].text.value).Some?
  {
    EndingIsFirst(db, ns, draws, 0);
    if i < 10 && forall j :: 0 <= j < i ==> Collides(db, ns, draws[j]) {
      CollisionsGoOn(db, ns, draws, i);
    }
  }

  /** And it does happen: once a code of any text has been issued, a call whose ten draws all
      come up with that text ends with neither a code nor an error, and leaves the store as
      it was. */
  lemma ExhaustionHappens(code: string, data: AuthCodeData, ttl: int, now: Time)
    ensures var db := SerialAfter(map[], CheckAndSet(AUTH_CODES, code, AuthCode(data), ttl), now);
            var draws := seq(RETRIES, _ => Draw(Some(code), now));
            && EndingFrom(db, AUTH_CODES, draws, 0) == Exhausted
            && Aftermath(db, AUTH_CODES, AuthCode(data), ttl, draws) == db
  {
  }

  /** What is issued is bound to the value, with the purge time of the attempt that issued it. */
  lemma IssuedIsBound(db: Contents, ns: Name, value: Value, ttl: int, draws: seq<Draw>)
    requires RETRIES <= |draws| && EndingFrom(db, ns, draws, 0).Issued?
    ensures var draw := draws[EndingFrom(db, ns, draws, 0).index];
            Lookup(Aftermath(db, ns, value, ttl, draws), ns, draw.text.value) == Some(Item(draw.now + ttl, value))
  {
  }

  /** Issuing disturbs no key that was held: everything in the store before is there after,
      under whatever namespace and key, unchanged. */
  lemma IssuingDisturbsNothing(db: Contents, ns: Name, value: Value, ttl: int, draws: seq<Draw>, m: Name, key: Name)
    requires RETRIES <= |draws|
    ensures Lookup(db, m, key).Some? ==> Lookup(Aftermath(db, ns, value, ttl, draws), m, key) == Lookup(db, m, key)
    ensures var e := EndingFrom(db, ns, draws, 0);
            Lookup(Aftermath(db, ns, value, ttl, draws), m, key) != Lookup(db, m, key) ==>
              e.Issued? && m == ns && draws[e.index].text == Some(key)
  {
    EndingIsFirst(db, ns, draws, 0);
  }

  /** The contents before attempt `i`, all earlier ones having collided. */
  function Before(db: Contents, ns: Name, i: nat): Contents {
    if i == 0 then db else WithNamespace(db, ns)
  }

  /** Attempt `i` inserts and ends the loop if the key is free, and otherwise changes nothing. */
  lemma Attempt(db: Contents, ns: Name, value: Value, ttl: int, draws: seq<Draw>, i: nat)
    requires i < RETRIES <= |draws| && draws[i].text.Some?
    requires forall j :: 0 <= j < i ==> Collides(db, ns, draws[j])
    ensures var op, now := CheckAndSet(ns, draws[i].text.value, value, ttl), draws[i].now;
            var cur := Before(db, ns, i);
            if Collides(db, ns, draws[i])
            then SerialAnswer(cur, op, now) == Failed(ItemAlreadyExists) && SerialAfter(cur, op, now) == Before(db, ns, i + 1)
            else SerialAnswer(cur, op, now) == Ok && SerialAfter(cur, op, now) == Aftermath(db, ns, value, ttl, draws) &&
                 EndingFrom(db, ns, draws, 0) == Issued(i)
  {
    CollisionsGoOn(db, ns, draws, i);
    SerialWrite(Before(db, ns, i), CheckAndSet(ns, draws[i].text.value, value, ttl), draws[i].now);
    hide SerialAfter, SerialAnswer;
  }

  /** The loop ends without an insertion when a draw fails or the retries run out. */
  lemma NothingIssued(db: Contents, ns: Name, value: Value, ttl: int, draws: seq<Draw>, i: nat)
    requires i <= RETRIES <= |draws| && (i < RETRIES ==> draws[i].text.None?)
    requires forall j :: 0 <= j < i ==> Collides(db, ns, draws[j])
    ensures EndingFrom(db, ns, draws, 0) == if i < RETRIES then DrawFailed(i) else Exhausted
    ensures Aftermath(db, ns, value, ttl, draws) == Before(db, ns, i)
  {
    CollisionsGoOn(db, ns, draws, i);
  }

  class FixedAuthorizer {
    const store: MemStore

    constructor (store: MemStore)
      ensures this.store == store
    {
      this.store := store;
    }

    /** Issues an authorization code bound to `data`. When all ten tries collide the error
        returned is the outer `err`, which the loop's own `err` shadows: no code, no error. */
    method GenerateAuthorizationRequest(data: AuthCodeData, ttl: int, draws: seq<Draw>)
      returns (code: string, err: Option<Error>)
      requires store.Valid() && |draws| == RETRIES
      requires forall i :: 0 <= i < RETRIES && draws[i].text.Some? ==> |draws[i].text.value| == CODE_SIZE
      modifies store.scopes, store.scopes.entries.Values
      ensures store.Valid()
      ensures store.Db() == Aftermath(old(store.Db()), AUTH_CODES, AuthCode(data), ttl, draws)
      ensures match EndingFrom(old(store.Db()), AUTH_CODES, draws, 0)
              case Issued(i) => draws[i].text == Some(code) && code != "" && err == None
              case DrawFailed(_) => code == "" && err == Some(RandomFailed)
              case Exhausted => code == "" && err == None
      ensures code != "" ==>
                var held := Lookup(store.Db(), "auth_code", code);
                |code| == 32 && err == None && held.Some? && held.value.value == AuthCode(data)
      ensures code == "" && err == None <==> forall j :: 0 <= j < 10 ==> Collides(old(store.Db()), "auth_code", draws[j])
    {
      hide SerialAfter, SerialAnswer, Aftermath, EndingFrom, WithNamespace;
      ghost var db := store.Db();
      ExhaustedExactlyWhen(db, AUTH_CODES, draws);
      var outer: Option<Error> := None;
      for i := 0 to RETRIES
        invariant store.Valid() && fresh(store.scopes.entries.Values - old(store.scopes.entries.Values))
        invariant store.Db() == Before(db, AUTH_CODES, i)
        invariant forall j :: 0 <= j < i ==> Collides(db, AUTH_CODES, draws[j])
      {
        if draws[i].text.None? {
          NothingIssued(db, AUTH_CODES, AuthCode(data), ttl, draws, i);
          return "", Some(RandomFailed);
        }
        Attempt(db, AUTH_CODES, AuthCode(data), ttl, draws, i);
        var r := store.CheckAndSet(AUTH_CODES, draws[i].text.value, AuthCode(data), ttl, draws[i].now);
        if r == Ok {
          IssuedIsBound(db, AUTH_CODES, AuthCode(data), ttl, draws);
          return draws[i].text.value, None;
        }
      }
      NothingIssued(db, AUTH_CODES, AuthCode(data), ttl, draws, RETRIES);
      return "", outer;
    }

    /** Issues a QR token bound to a fresh secret; here the last error does reach the caller.
        `mac` stands for the hex digits of HMAC-SHA256 under the secret, `format` for decimal
        formatting, and `unix` is the clock reading taken after the loop. */
    method GenerateQRRequest(
      ttl: int, secret: Option<string>, draws: seq<Draw>, unix: int, format: int -> string, mac: (string, string) -> string)
      returns (ts: string, token: string, hash: string, err: Option<Error>)
      requires store.Valid() && |draws| == RETRIES
      modifies store.scopes, store.scopes.entries.Values
      ensures store.Valid()
      ensures secret.None? ==> err == Some(RandomFailed) && store.Db() == old(store.Db())
      ensures secret.Some? ==>
                store.Db() == Aftermath(old(store.Db()), QR_TOKENS, Text(secret.value), ttl, draws)
      ensures secret.Some? ==>
                match EndingFrom(old(store.Db()), QR_TOKENS, draws, 0)
                case Issued(i) => draws[i].text == Some(token) && err == None
                case DrawFailed(_) => err == Some(RandomFailed)
                case Exhausted => err == Some(StoreFailed(ItemAlreadyExists))
      ensures err.Some? ==> ts == "" && token == "" && hash == ""
      ensures err == None ==>
                var held := Lookup(store.Db(), "qrc", token);
                && ts == format(unix) && held.Some? && held.value.value.Text?
                && hash == mac(held.value.value.text, ts + token)
    {
      hide SerialAfter, SerialAnswer, Aftermath, EndingFrom, WithNamespace, Collides, Lookup;
      ts, token, hash := "", "", "";
      if secret.None? {
        return "", "", "", Some(RandomFailed);
      }
      ghost var db := store.Db();
      err := None;
      for i := 0 to RETRIES
        invariant store.Valid() && fresh(store.scopes.entries.Values - old(store.scopes.entries.Values))
        invariant store.Db() == Before(db, QR_TOKENS, i)
        invariant forall j :: 0 <= j < i ==> Collides(db, QR_TOKENS, draws[j])
        invariant i > 0 ==> err == Some(StoreFailed(ItemAlreadyExists))
      {
        if draws[i].text.None? {
          NothingIssued(db, QR_TOKENS, Text(secret.value), ttl, draws, i);
          return "", "", "", Some(RandomFailed);
        }
        token := draws[i].text.value;
        Attempt(db, QR_TOKENS, Text(secret.value), ttl, draws, i);
        var r := store.CheckAndSet(QR_TOKENS, token, Text(secret.value), ttl, draws[i].now);
        if r == Ok {
          err := None;
          break;
        }
        err := Some(StoreFailed(r.error));
      }
      if err.Some? {
        NothingIssued(db, QR_TOKENS, Text(secret.value), ttl, draws, RETRIES);
        return "", "", "", err;
      }
      IssuedIsBound(db, QR_TOKENS, Text(secret.value), ttl, draws);
      ts := format(unix);
      hash := mac(secret.value, ts + token);
    }
  }
}
