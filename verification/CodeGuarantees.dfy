/** What the issuing loops' results are worth: each answers one call for what it asked, with
    keys that were drawn; issued keys are unique and are redeemed once, for their value. */
module CodeGuarantees {
  import opened Options
  import A = AtomicStore
  import opened AtomicStore
  import M = StoreMachine
  import opened Linearization
  import opened Ledger
  import Authorizer
  import opened I = IssuedCodes
  import SerialStore
  import SoloCall

  // ----- every call is answered for what it asked

  /** What a call of a loop asks for, and how long the history was then. */
  datatype Request = Request(ns: Name, value: Value, ttl: int, from: nat)

  function RequestOf(job: Job): Request {
    Request(job.ns, job.value, job.ttl, job.from)
  }

  ghost function Started(d: Desk, x: Move, t: ThreadId): seq<Request> {
    if x.Start? && x.t == t then [Request(x.ns, x.value, x.ttl, |d.a.log|)] else []
  }

  /** The calls that `t` starts in a run, in order. */
  ghost function Requests(d: Desk, moves: seq<Move>, t: ThreadId): seq<Request>
    requires I.Inv(d) && Plays(d, moves)
    decreases moves
  {
    if moves == [] then []
    else
      EveryMoveKeepsInv(d, moves[0]);
      Started(d, moves[0], t) + Requests(Next(d, moves[0]), moves[1..], t)
  }

  /** The calls of `t` that have returned, in order. */
  function Answered(results: seq<Result>, t: ThreadId): seq<Request> {
    if results == [] then []
    else
      var n := |results| - 1;
      Answered(results[..n], t) + if results[n].who == t then [RequestOf(results[n].job)] else []
  }

  ghost function UnderWay(d: Desk, t: ThreadId): seq<Request> {
    if t in d.issuers then [RequestOf(d.issuers[t].job)] else []
  }

  lemma AnsweredAppend(results: seq<Result>, r: Result, t: ThreadId)
    ensures Answered(results + [r], t) == Answered(results, t) + if r.who == t then [RequestOf(r.job)] else []
  {
    assert (results + [r])[..|results|] == results;
  }

  lemma InvSimulates(d: Desk)
    requires I.Inv(d)
    ensures Simulates(d.s, d.a)
  {
  }

  lemma Concluding(d: Desk, u: ThreadId)
    requires I.Inv(d) && Possible(d, Conclude(u))
    ensures Simulates(d.s, d.a)
    ensures u in d.issuers && d.issuers[u].Waiting? && u in d.s.threads && d.s.threads[u].Done?
  {
  }

  lemma ReturnedLedger(d: Desk, u: ThreadId)
    requires Simulates(d.s, d.a) && u in d.s.threads && d.s.threads[u].Done?
    ensures var e := Returned(d, u); e.issuers == d.issuers - {u} && e.results == d.results && e.a.log == d.a.log
  {
    FinishLeaves(d, u);
    hide Simulates;
  }

  lemma ConcludeKeepsRequests(d: Desk, u: ThreadId, t: ThreadId)
    requires I.Inv(d) && Possible(d, Conclude(u))
    ensures var e := Next(d, Conclude(u)); Answered(e.results, t) + UnderWay(e, t) == Answered(d.results, t) + UnderWay(d, t)
  {
    hide I.Inv, Simulates, Next, Returned, Possible, Answered;
    Concluding(d, u);
    ConcludeInTwo(d, u);
    ReturnedLedger(d, u);
    var job := OneMore(d.issuers[u].job, d.a.calls[u].index);
    AnsweredAppend(d.results, Issued(u, job, d.issuers[u].code, |d.a.log|), t);
    AnsweredAppend(d.results, Exhausted(u, job, |d.a.log|), t);
  }

  lemma MoveKeepsRequests(d: Desk, x: Move, t: ThreadId)
    requires I.Inv(d) && Possible(d, x)
    ensures var e := Next(d, x);
            Answered(e.results, t) + UnderWay(e, t) == Answered(d.results, t) + UnderWay(d, t) + Started(d, x, t)
  {
    hide I.Inv, Simulates, StoreStep, Answered;
    InvSimulates(d);
    if x.Conclude? {
      ConcludeKeepsRequests(d, x.t, t);
    } else if x.Fail? {
      AnsweredAppend(d.results, DrawFailed(x.t, d.issuers[x.t].job, |d.a.log|), t);
    } else if x.Store? {
      StoreLedger(d, x.l);
    } else if x.Attempt? {
      StoreLedger(d, M.Label.Begin(x.t, CheckAndSet(d.issuers[x.t].job.ns, x.code, d.issuers[x.t].job.value, d.issuers[x.t].job.ttl)));
    }
  }

  lemma StoreLedger(d: Desk, l: M.Label)
    requires Simulates(d.s, d.a) && M.Enabled(d.s, l)
    ensures StoreStep(d, l).issuers == d.issuers && StoreStep(d, l).results == d.results
  {
    hide Simulates, M.Enabled;
  }

  lemma {:induction false} RequestsGoOn(d: Desk, moves: seq<Move>, t: ThreadId)
    requires I.Inv(d) && Plays(d, moves)
    ensures var e := Outcome(d, moves);
            Answered(e.results, t) + UnderWay(e, t) == Answered(d.results, t) + UnderWay(d, t) + Requests(d, moves, t)
    decreases moves
  {
    assert Simulates(d.s, d.a);
    hide I.Inv, Possible, Next, Answered, UnderWay, Started, Simulates;
    if moves == [] {
    } else {
      EveryMoveKeepsInv(d, moves[0]);
      MoveKeepsRequests(d, moves[0], t);
      var next, rest := Next(d, moves[0]), moves[1..];
      RequestsGoOn(next, rest, t);
      Regroup(Answered(d.results, t) + UnderWay(d, t), Started(d, moves[0], t), Requests(next, rest, t));
    }
  }

  lemma Regroup<T>(a: seq<T>, b: seq<T>, c: seq<T>)
    ensures a + b + c == a + (b + c)
  {
  }

  /** Every call is answered, once, in order, and for what it asked: the calls a thread has
      started are those it has results of, then the one under way, if any, with the same
      namespace, value, ttl and beginning. */
  lemma CallsAreAnsweredInOrder(s: M.State, moves: seq<Move>, t: ThreadId)
    requires FromTheStart(s, moves)
    ensures I.Inv(Opening(s)) && Plays(Opening(s), moves)
    ensures Requests(Opening(s), moves, t) == Answered(Ending(s, moves).results, t) + UnderWay(Ending(s, moves), t)
  {
    OpeningInv(s);
    hide I.Inv, Plays, Requests, Outcome;
    RequestsGoOn(Opening(s), moves, t);
  }

  lemma {:induction false} AnsweredAt(results: seq<Result>, n: nat, t: ThreadId)
    requires n < |results| && results[n].who == t
    ensures var m := |Answered(results[..n], t)|;
            m < |Answered(results, t)| && Answered(results, t)[m] == RequestOf(results[n].job)
    decreases |results|
  {
    var last := |results| - 1;
    if n < last {
      AnsweredAt(results[..last], n, t);
      assert results[..last][..n] == results[..n];
    }
  }

  /** The call behind result `n`: as many calls of its thread had returned before. */
  function CallBehind(results: seq<Result>, n: nat): nat
    requires n < |results|
  {
    |Answered(results[..n], results[n].who)|
  }

  /** A result answers the call that is behind it. */
  lemma ResultAnswersItsCall(s: M.State, moves: seq<Move>, n: nat)
    requires FromTheStart(s, moves) && n < |Ending(s, moves).results|
    ensures I.Inv(Opening(s)) && Plays(Opening(s), moves)
    ensures var results := Ending(s, moves).results;
            var calls := Requests(Opening(s), moves, results[n].who);
            CallBehind(results, n) < |calls| && calls[CallBehind(results, n)] == RequestOf(results[n].job)
  {
    var results := Ending(s, moves).results;
    var t := results[n].who;
    hide I.Inv, Plays, Requests, Ending, FromTheStart;
    CallsAreAnsweredInOrder(s, moves, t);
    AnsweredAt(results, n, t);
  }

  /** The account of a call of a loop. During it its thread made exactly the entries the
      result names, each a CheckAndSet of the namespace, value and ttl asked for. A code is
      issued by the last of at most ten, all others having met held keys; the loop gives up
      after exactly ten; a failed draw comes before the tenth. */
  ghost predicate Earned(log: seq<Entry>, r: Result, asked: Request) {
    var tries := r.job.tries;
    && asked.from <= r.upto <= |log|
    && EntriesOf(log[..r.upto], r.who) - EntriesOf(log[..asked.from], r.who) == |tries|
    && (forall k :: 0 <= k < |tries| ==>
          && asked.from <= tries[k] < r.upto && log[tries[k]].Called? && log[tries[k]].who == r.who
          && log[tries[k]].op == CheckAndSet(asked.ns, log[tries[k]].op.key, asked.value, asked.ttl)
          && log[tries[k]].effect.Inserted? == (r.Issued? && k == |tries| - 1))
    && (forall k, m :: 0 <= k < m < |tries| ==> tries[k] < tries[m])
    && (r.Issued? ==> 1 <= |tries| <= 10 && log[tries[|tries| - 1]].op.key == r.code)
    && (r.Exhausted? ==> |tries| == 10)
    && (r.DrawFailed? ==> |tries| < 10)
  }

  lemma SoundIsEarned(log: seq<Entry>, r: Result)
    requires Sound(log, r)
    ensures Earned(log, r, RequestOf(r.job))
  {
  }

  /** Every result of every run has earned its account, for the call that is behind it. */
  lemma ResultsAreEarned(s: M.State, moves: seq<Move>, n: nat)
    requires FromTheStart(s, moves) && n < |Ending(s, moves).results|
    ensures I.Inv(Opening(s)) && Plays(Opening(s), moves)
    ensures var d := Ending(s, moves);
            var calls := Requests(Opening(s), moves, d.results[n].who);
            CallBehind(d.results, n) < |calls| && Earned(d.a.log, d.results[n], calls[CallBehind(d.results, n)])
  {
    var d := Ending(s, moves);
    assert Sound(d.a.log, d.results[n]);
    hide I.Inv, Plays, Requests, Ending, FromTheStart, Answered, Sound, Earned, CallBehind;
    ResultAnswersItsCall(s, moves, n);
    SoundIsEarned(d.a.log, d.results[n]);
  }

  // ----- every key tried was drawn

  /** The strings that `t` draws in a run, in order. */
  function Draws(moves: seq<Move>, t: ThreadId): seq<Name> {
    if moves == [] then [] else Drawn(moves[0], t) + Draws(moves[1..], t)
  }

  function Drawn(x: Move, t: ThreadId): seq<Name> {
    if x.Attempt? && x.t == t then [x.code] else []
  }

  function KeyAt(log: seq<Entry>, i: nat): Name {
    if i < |log| && log[i].Called? then log[i].op.key else ""
  }

  function KeysOf(log: seq<Entry>, tries: seq<nat>): seq<Name> {
    seq(|tries|, k requires 0 <= k < |tries| => KeyAt(log, tries[k]))
  }

  /** The keys of the tries that `t`'s results name, in order. */
  function Tried(log: seq<Entry>, results: seq<Result>, t: ThreadId): seq<Name> {
    if results == [] then []
    else
      var n := |results| - 1;
      Tried(log, results[..n], t) + if results[n].who == t then KeysOf(log, results[n].job.tries) else []
  }

  /** And those of the call under way, the attempt in flight included. */
  ghost function InHand(d: Desk, t: ThreadId): seq<Name> {
    if t !in d.issuers then []
    else KeysOf(d.a.log, d.issuers[t].job.tries) + if d.issuers[t].Waiting? then [d.issuers[t].code] else []
  }

  lemma KeysLater(log: seq<Entry>, more: seq<Entry>, job: Job, upto: nat)
    requires InOrder(job, upto) && upto <= |log| && log <= more
    ensures KeysOf(more, job.tries) == KeysOf(log, job.tries)
  {
  }

  lemma {:induction false} TriedLater(log: seq<Entry>, more: seq<Entry>, results: seq<Result>, t: ThreadId)
    requires log <= more && forall n :: 0 <= n < |results| ==> Sound(log, results[n])
    ensures Tried(more, results, t) == Tried(log, results, t)
  {
    if results != [] {
      var n := |results| - 1;
      var r := results[n];
      assert Sound(log, r);
      KeysLater(log, more, r.job, r.upto);
      hide Sound;
      TriedLater(log, more, results[..n], t);
    }
  }

  lemma TriedAppend(log: seq<Entry>, results: seq<Result>, r: Result, t: ThreadId)
    ensures Tried(log, results + [r], t) == Tried(log, results, t) + if r.who == t then KeysOf(log, r.job.tries) else []
  {
    assert (results + [r])[..|results|] == results;
  }

  /** The store's own steps leave the keys in hand as they are. */
  lemma HandKept(d: Desk, l: M.Label, t: ThreadId)
    requires I.Inv(d) && M.Enabled(d.s, l)
    ensures var e := StoreStep(d, l);
            && e.issuers == d.issuers && e.results == d.results
            && Tried(e.a.log, e.results, t) == Tried(d.a.log, d.results, t) && InHand(e, t) == InHand(d, t)
            && (t in d.issuers ==> KeysOf(e.a.log, d.issuers[t].job.tries) == KeysOf(d.a.log, d.issuers[t].job.tries))
  {
    OthersSurvive(d, l);
    var e := StoreStep(d, l);
    TriedLater(d.a.log, e.a.log, d.results, t);
    if t in d.issuers {
      assert IssuerSound(d, t);
      KeysLater(d.a.log, e.a.log, d.issuers[t].job, if d.issuers[t].Drawing? then |d.a.log| else d.issuers[t].since);
    }
    hide StoreStep, Simulates, Sound, IssuerSound, M.Enabled, Tried, KeysOf;
  }

  lemma AttemptLedger(d: Desk, u: ThreadId, code: Name)
    requires I.Inv(d) && Possible(d, Attempt(u, code))
    ensures Simulates(d.s, d.a) && u in d.issuers && d.issuers[u].Drawing?
    ensures var job := d.issuers[u].job;
            var l := M.Label.Begin(u, CheckAndSet(job.ns, code, job.value, job.ttl));
            M.Enabled(d.s, l) &&
            Next(d, Attempt(u, code)) == StoreStep(d, l).(issuers := d.issuers[u := Waiting(job, code, |d.a.log|)])
  {
    hide Simulates, StoreStep;
    InvSimulates(d);
  }

  lemma AttemptKeepsKeys(d: Desk, u: ThreadId, code: Name, t: ThreadId)
    requires I.Inv(d) && Possible(d, Attempt(u, code))
    ensures var e := Next(d, Attempt(u, code));
            Tried(e.a.log, e.results, t) + InHand(e, t)
            == Tried(d.a.log, d.results, t) + InHand(d, t) + Drawn(Attempt(u, code), t)
  {
    hide I.Inv, StoreStep, Simulates, Tried, KeysOf, Possible, Next;
    AttemptLedger(d, u, code);
    var job := d.issuers[u].job;
    var l := M.Label.Begin(u, CheckAndSet(job.ns, code, job.value, job.ttl));
    var e, f := StoreStep(d, l), Next(d, Attempt(u, code));
    HandKept(d, l, t);
    if t == u {
      Regroup(Tried(d.a.log, d.results, t), KeysOf(d.a.log, job.tries), [code]);
      assert InHand(d, t) == KeysOf(d.a.log, job.tries);
    } else {
      assert InHand(f, t) == InHand(e, t);
    }
  }

  /** After its call has returned, the loop has the key of that call among its tries. */
  lemma KeyOfCall(d: Desk, u: ThreadId)
    requires I.Inv(d) && Possible(d, Conclude(u))
    ensures u in d.a.calls && d.a.calls[u].Answered?
    ensures KeysOf(d.a.log, OneMore(d.issuers[u].job, d.a.calls[u].index).tries)
         == InHand(d, u)
  {
    OneMoreTry(d, u);
    hide I.Inv, Simulates, Sound, Settled, Refusals;
  }

  /** A result takes over the keys its call had in hand. */
  lemma HandBecomesResult(d: Desk, e: Desk, r: Result, t: ThreadId)
    requires r.who in d.issuers && KeysOf(d.a.log, r.job.tries) == InHand(d, r.who)
    requires e.issuers == d.issuers - {r.who} && e.results == d.results + [r] && e.a.log == d.a.log
    ensures Tried(e.a.log, e.results, t) + InHand(e, t) == Tried(d.a.log, d.results, t) + InHand(d, t)
  {
    TriedAppend(d.a.log, d.results, r, t);
    hide Tried, KeysOf;
    if t == r.who {
      assert InHand(e, t) == [];
    } else {
      assert InHand(e, t) == InHand(d, t);
    }
  }

  /** Or the loop goes on with them. */
  lemma HandGoesOn(d: Desk, e: Desk, u: ThreadId, job: Job, t: ThreadId)
    requires u in d.issuers && KeysOf(d.a.log, job.tries) == InHand(d, u)
    requires e.issuers == d.issuers[u := Drawing(job)] && e.results == d.results && e.a.log == d.a.log
    ensures Tried(e.a.log, e.results, t) + InHand(e, t) == Tried(d.a.log, d.results, t) + InHand(d, t)
  {
    hide Tried, KeysOf;
    assert InHand(e, t) == InHand(d, t);
  }

  lemma ConcludeKeepsKeys(d: Desk, u: ThreadId, t: ThreadId)
    requires I.Inv(d) && Possible(d, Conclude(u))
    ensures var e := Next(d, Conclude(u));
            Tried(e.a.log, e.results, t) + InHand(e, t) == Tried(d.a.log, d.results, t) + InHand(d, t)
  {
    hide I.Inv, Simulates, Next, Returned, Tried, KeysOf, Possible, InHand, OneMore, StoreStep;
    Concluding(d, u);
    KeyOfCall(d, u);
    ConcludeInTwo(d, u);
    ReturnedLedger(d, u);
    var job := OneMore(d.issuers[u].job, d.a.calls[u].index);
    var e, f := Next(d, Conclude(u)), Returned(d, u);
    assert e.a.log == d.a.log;
    assert (d.issuers - {u})[u := Drawing(job)] == d.issuers[u := Drawing(job)];
    if d.s.threads[u].response == Ok {
      HandBecomesResult(d, e, Issued(u, job, d.issuers[u].code, |d.a.log|), t);
    } else if |job.tries| < Authorizer.RETRIES {
      HandGoesOn(d, e, u, job, t);
    } else {
      HandBecomesResult(d, e, Exhausted(u, job, |d.a.log|), t);
    }
  }

  lemma MoveKeepsKeys(d: Desk, x: Move, t: ThreadId)
    requires I.Inv(d) && Possible(d, x)
    ensures var e := Next(d, x);
            Tried(e.a.log, e.results, t) + InHand(e, t) == Tried(d.a.log, d.results, t) + InHand(d, t) + Drawn(x, t)
  {
    var keys := Tried(d.a.log, d.results, t);
    if x.Store? { StoreKeepsKeys(d, x.l, t); }
    else if x.Attempt? { AttemptKeepsKeys(d, x.t, x.code, t); }
    else if x.Conclude? { ConcludeKeepsKeys(d, x.t, t); }
    else if x.Start? { StartKeepsKeys(d, x, t); }
    else { FailKeepsKeys(d, x.t, t); }
    assert !x.Attempt? ==> keys + InHand(d, t) + Drawn(x, t) == keys + InHand(d, t);
    hide I.Inv, Simulates, Next, Tried, InHand, Possible;
  }

  lemma StoreKeepsKeys(d: Desk, l: M.Label, t: ThreadId)
    requires I.Inv(d) && Possible(d, Store(l))
    ensures var e := Next(d, Store(l));
            Tried(e.a.log, e.results, t) + InHand(e, t) == Tried(d.a.log, d.results, t) + InHand(d, t)
  {
    HandKept(d, l, t);
    hide StoreStep, I.Inv, Simulates, Tried, InHand;
  }

  lemma StartKeepsKeys(d: Desk, x: Move, t: ThreadId)
    requires I.Inv(d) && Possible(d, x) && x.Start?
    ensures var e := Next(d, x);
            Tried(e.a.log, e.results, t) + InHand(e, t) == Tried(d.a.log, d.results, t) + InHand(d, t)
  {
    assert KeysOf(d.a.log, []) == [];
    hide I.Inv, Simulates, Tried, KeysOf;
  }

  lemma FailKeepsKeys(d: Desk, u: ThreadId, t: ThreadId)
    requires I.Inv(d) && Possible(d, Fail(u))
    ensures var e := Next(d, Fail(u));
            Tried(e.a.log, e.results, t) + InHand(e, t) == Tried(d.a.log, d.results, t) + InHand(d, t)
  {
    var r := DrawFailed(u, d.issuers[u].job, |d.a.log|);
    assert KeysOf(d.a.log, r.job.tries) == InHand(d, u);
    hide I.Inv, Simulates, Tried, KeysOf, InHand;
    HandBecomesResult(d, Next(d, Fail(u)), r, t);
  }

  lemma {:induction false} KeysGoOn(d: Desk, moves: seq<Move>, t: ThreadId)
    requires I.Inv(d) && Plays(d, moves)
    ensures var e := Outcome(d, moves);
            Tried(e.a.log, e.results, t) + InHand(e, t) == Tried(d.a.log, d.results, t) + InHand(d, t) + Draws(moves, t)
    decreases moves
  {
    assert Simulates(d.s, d.a);
    hide I.Inv, Possible, Next, Tried, InHand, Drawn, Simulates;
    if moves == [] {
    } else {
      EveryMoveKeepsInv(d, moves[0]);
      MoveKeepsKeys(d, moves[0], t);
      KeysGoOn(Next(d, moves[0]), moves[1..], t);
      Regroup(Tried(d.a.log, d.results, t) + InHand(d, t), Drawn(moves[0], t), Draws(moves[1..], t));
    }
  }

  /** Every key a thread has tried is one it drew, in order, and every string it drew was
      tried, once. */
  lemma KeysAreDrawn(s: M.State, moves: seq<Move>, t: ThreadId)
    requires FromTheStart(s, moves)
    ensures var d := Ending(s, moves);
            Draws(moves, t) == Tried(d.a.log, d.results, t) + InHand(d, t)
  {
    OpeningInv(s);
    var d := Opening(s);
    assert Tried(d.a.log, d.results, t) + InHand(d, t) + Draws(moves, t) == Draws(moves, t);
    hide I.Inv, Plays, Outcome, Tried, InHand, Draws;
    KeysGoOn(d, moves, t);
  }

  // ----- what issuing guarantees

  /** Between two births of a key something removed it. */
  lemma {:induction false} BirthsAreSeparated(log: seq<Entry>, clock: Time, i: nat, j: nat, ns: Name, key: Name)
    returns (m: nat)
    requires LegalLog(log, clock) && i < j < |log| && Births(log[i], ns, key)
    requires Lookup(Replay(log[..j]), ns, key).None?
    ensures i < m < j && Buries(log[m], ns, key)
    decreases j
  {
    hide LegalLog, Replay, Births, Buries, Stamps, Writes, Lookup;
    EntryHere(log, clock, j - 1, ns, key);
    EntryHere(log, clock, i, ns, key);
    BirthStamps(log[i], ns, key);
    if Buries(log[j - 1], ns, key) {
      m := j - 1;
    } else {
      m := BirthsAreSeparated(log, clock, i, j - 1, ns, key);
    }
  }

  lemma BirthStamps(e: Entry, ns: Name, key: Name)
    requires Births(e, ns, key)
    ensures Stamps(e, ns, key) && Writes(e, ns, key) && !Buries(e, ns, key)
  {
  }

  /** Unique while unconsumed: of two keys issued in a namespace that are the same string,
      over any run, the earlier was removed from the store before the later was created. */
  lemma IssuedKeysAreUnique(s: M.State, moves: seq<Move>, m: nat, n: nat) returns (gone: nat)
    requires FromTheStart(s, moves)
    requires var results := Ending(s, moves).results;
             && m < |results| && n < |results| && m != n
             && results[m].Issued? && results[n].Issued?
             && results[m].job.ns == results[n].job.ns && results[m].code == results[n].code
             && Creation(results[m]) <= Creation(results[n])
    ensures var d := Ending(s, moves);
            && Creation(d.results[m]) < gone < Creation(d.results[n]) < |d.a.log|
            && Buries(d.a.log[gone], d.results[m].job.ns, d.results[m].code)
  {
    var d := Ending(s, moves);
    var i, j := Creation(d.results[m]), Creation(d.results[n]);
    var ns, code := d.results[m].job.ns, d.results[m].code;
    CreationBirths(d.a.log, d.results[m]);
    CreationBirths(d.a.log, d.results[n]);
    assert i != j;
    hide Simulates, Sound, IssuerSound, Births, Buries, Plays, Ending;
    EntryHere(d.a.log, d.a.clock, j, ns, code);
    gone := BirthsAreSeparated(d.a.log, d.a.clock, i, j, ns, code);
  }

  /** Single use (section 4.1.2 of RFC 6749): whoever gets an issued key out of the store by a
      consuming read, while nobody overwrites it with Set, gets exactly the value that the
      call was started with, and no second consuming read gets it again. */
  lemma RedeemedOnceForItsValue(s: M.State, moves: seq<Move>, n: nat, i: nat)
    requires FromTheStart(s, moves)
    requires var d := Ending(s, moves);
             && n < |d.results| && d.results[n].Issued?
             && i < |d.a.log| && d.a.log[i].Called? && d.a.log[i].effect.Took?
             && At(d.a.log[i], d.results[n].job.ns, d.results[n].code)
             && LastBirth(d.a.log, i, d.results[n].job.ns, d.results[n].code) == Creation(d.results[n])
             && forall m :: Creation(d.results[n]) < m < i ==> !Writes(d.a.log[m], d.results[n].job.ns, d.results[n].code)
    ensures I.Inv(Opening(s)) && Plays(Opening(s), moves)
    ensures var d := Ending(s, moves);
            var calls := Requests(Opening(s), moves, d.results[n].who);
            && CallBehind(d.results, n) < |calls|
            && d.a.log[i].effect.item.value == calls[CallBehind(d.results, n)].value
            && forall j :: 0 <= j < |d.a.log| && j != i && Buries(d.a.log[j], d.results[n].job.ns, d.results[n].code) ==>
                 LastBirth(d.a.log, j, d.results[n].job.ns, d.results[n].code) != Creation(d.results[n])
  {
    ResultAnswersItsCall(s, moves, n);
    var d := Ending(s, moves);
    var r := d.results[n];
    CreationBirths(d.a.log, r);
    assert d.a.log[Creation(r)].effect.item.value == r.job.value;
    hide Simulates, Sound, IssuerSound, Plays, Ending, LegalLog, Births, Requests, CallBehind, FromTheStart;
    TakenOnce(d.a.log, d.a.clock, Creation(r), i, r.job.ns, r.code);
  }

  /** With no other write in between, what is taken is what was created, and once. */
  lemma TakenOnce(log: seq<Entry>, clock: Time, b: nat, i: nat, ns: Name, key: Name)
    requires LegalLog(log, clock) && i < |log| && log[i].Called? && log[i].effect.Took? && At(log[i], ns, key)
    requires LastBirth(log, i, ns, key) == b < |log| && Births(log[b], ns, key)
    requires forall m :: b < m < i ==> !Writes(log[m], ns, key)
    ensures log[i].effect.item.value == log[b].effect.item.value
    ensures forall j :: 0 <= j < |log| && j != i && Buries(log[j], ns, key) ==> LastBirth(log, j, ns, key) != b
  {
    LastBirthIsBirth(log, clock, i, ns, key);
    EntryWasLegal(log, clock, i);
    BirthStamps(log[b], ns, key);
    var w, k := EveryItemComesFrom(log, clock, i, ns, key);
    assert w >= b;
    forall j | 0 <= j < |log| && j != i && Buries(log[j], ns, key)
      ensures LastBirth(log, j, ns, key) != b
    {
      if j < i {
        ConsumedAtMostOnce(log, clock, j, i, ns, key);
      } else {
        ConsumedAtMostOnce(log, clock, i, j, ns, key);
      }
    }
  }

  // ----- it does happen

  lemma {:induction false} PlaysJoin(d: Desk, first: seq<Move>, rest: seq<Move>)
    requires I.Inv(d) && Plays(d, first) && Plays(Outcome(d, first), rest)
    ensures Plays(d, first + rest) && Outcome(d, first + rest) == Outcome(Outcome(d, first), rest)
    decreases first
  {
    hide I.Inv, Possible, Next, Simulates;
    InvSimulates(d);
    if first == [] {
      assert [] + rest == rest;
    } else {
      EveryMoveKeepsInv(d, first[0]);
      PlaysJoin(Next(d, first[0]), first[1..], rest);
      assert (first + rest)[1..] == first[1..] + rest;
    }
  }

  lemma OneMove(d: Desk, x: Move)
    requires I.Inv(d) && Possible(d, x)
    ensures Plays(d, [x]) && Outcome(d, [x]) == Next(d, x)
  {
    assert Simulates(d.s, d.a);
    EveryMoveKeepsInv(d, x);
    hide I.Inv, Possible, Next, Simulates;
    assert [x][1..] == [];
  }

  /** Steps of calls already begun, seen from the desk. */
  lemma {:induction false} StoreMoves(d: Desk, labels: seq<M.Label>) returns (moves: seq<Move>)
    requires I.Inv(d) && M.Runs(d.s, labels) && forall i :: 0 <= i < |labels| ==> labels[i].Advance?
    ensures Plays(d, moves)
    ensures var e := Outcome(d, moves); e.s == M.After(d.s, labels) && e.issuers == d.issuers && e.results == d.results
    decreases labels
  {
    moves := [];
    if labels != [] {
      var x := Store(labels[0]);
      assert Simulates(d.s, d.a) && Possible(d, x);
      assert Next(d, x).s == M.Step(d.s, labels[0]) && Next(d, x).issuers == d.issuers && Next(d, x).results == d.results;
      hide I.Inv, Possible, Next, Simulates, M.Step, M.Enabled;
      OneMove(d, x);
      var rest := StoreMoves(Next(d, x), labels[1..]);
      PlaysJoin(d, [x], rest);
      moves := [x] + rest;
    }
  }

  /** The start of a call and its first attempt, from an empty desk. */
  lemma FirstAttempt(s: M.State, t: ThreadId, asked: Request, code: Name) returns (moves: seq<Move>)
    requires M.Initial(s)
    ensures I.Inv(Opening(s)) && Plays(Opening(s), moves)
    ensures moves == [Start(t, asked.ns, asked.value, asked.ttl), Attempt(t, code)]
    ensures var d := Outcome(Opening(s), moves);
            var op := CheckAndSet(asked.ns, code, asked.value, asked.ttl);
            && M.Enabled(s, M.Label.Begin(t, op)) && d.s == M.Step(s, M.Label.Begin(t, op)) && d.results == []
            && t in d.issuers && d.issuers[t].Waiting? && d.issuers[t].code == code
            && d.issuers[t].job.(from := 0) == Job(asked.ns, asked.value, asked.ttl, [], 0)
  {
    OpeningInv(s);
    var d := Opening(s);
    var start, attempt := Start(t, asked.ns, asked.value, asked.ttl), Attempt(t, code);
    assert Possible(d, start);
    OneMove(d, start);
    EveryMoveKeepsInv(d, start);
    var e := Next(d, start);
    assert Possible(e, attempt);
    OneMove(e, attempt);
    hide I.Inv, Simulates;
    PlaysJoin(d, [start], [attempt]);
    moves := [start] + [attempt];
  }

  /** Any call can be answered with any string it draws: from the empty store, start, draw,
      the five steps of a CheckAndSet, and the code is issued. */
  lemma CodesCanBeIssued(s: M.State, t: ThreadId, asked: Request, code: Name) returns (moves: seq<Move>)
    requires M.Initial(s)
    ensures FromTheStart(s, moves) && moves != [] && moves[0] == Start(t, asked.ns, asked.value, asked.ttl)
    ensures var results := Ending(s, moves).results;
            && |results| == 1 && results[0].Issued? && results[0].who == t && results[0].code == code
            && RequestOf(results[0].job).(from := 0) == asked.(from := 0)
  {
    var op := CheckAndSet(asked.ns, code, asked.value, asked.ttl);
    var first := FirstAttempt(s, t, asked, code);
    var d := Outcome(Opening(s), first);
    M.InitialInv(s);
    var labels := SoloCall.SoloCallEnds(s, t, op, 0);
    assert ([M.Label.Begin(t, op)] + labels)[1..] == labels;
    SoloCall.SoloCallIsSerial(s, t, op, labels);
    SerialStore.SerialWrite(map[], op, s.clock);
    hide I.Inv, M.Step, M.Enabled, SerialStore.SerialAnswer, SerialStore.SerialAfter, Simulates;
    var middle := StoreMoves(d, labels);
    var e := Outcome(d, middle);
    assert Possible(e, Conclude(t));
    Concluding(e, t);
    ConcludeInTwo(e, t);
    ReturnedLedger(e, t);
    OneMove(e, Conclude(t));
    hide Next, Possible, Plays, Outcome, Returned;
    PlaysJoin(d, middle, [Conclude(t)]);
    PlaysJoin(Opening(s), first, middle + [Conclude(t)]);
    moves := first + (middle + [Conclude(t)]);
    OpeningInv(s);
  }
}
