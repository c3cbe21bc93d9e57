/** Any number of issuers run their retry loops against the shared store, interleaved with
    each other and with every other use of the store, the collector included. */
module IssuedCodes {
  import opened Options
  import A = AtomicStore
  import opened AtomicStore
  import M = StoreMachine
  import opened Linearization
  import opened Ledger
  import Authorizer

  /** One call of a retry loop: it binds `value` to a fresh key of `ns`. `tries` are the
      history entries of its attempts so far; `from` is the length of the history at its
      start. */
  datatype Job = Job(ns: Name, value: Value, ttl: int, tries: seq<nat>, from: nat)

  /** `since` is the length of the history when the current attempt began. */
  datatype Issuer =
    | Drawing(job: Job)
    | Waiting(job: Job, code: Name, since: nat)

  /** `upto` is the length of the history when the call returned. */
  datatype Result =
    | Issued(who: ThreadId, job: Job, code: Name, upto: nat)
    | Exhausted(who: ThreadId, job: Job, upto: nat)
    | DrawFailed(who: ThreadId, job: Job, upto: nat)

  /** The running store, the atomic object it simulates, the loops, and what they returned. */
  datatype Desk = Desk(s: M.State, a: A.State, issuers: map<ThreadId, Issuer>, results: seq<Result>)

  datatype Move =
    | Store(l: M.Label)                                       // anything else the store does
    | Start(t: ThreadId, ns: Name, value: Value, ttl: int)
    | Fail(t: ThreadId)                                       // the random source fails
    | Attempt(t: ThreadId, code: Name)                        // a string is drawn, CheckAndSet begins
    | Conclude(t: ThreadId)                                   // CheckAndSet returns

  /** Issuing threads begin and finish store calls only through their loop. */
  ghost predicate Free(d: Desk, l: M.Label) {
    l.Begin? || l.Finish? ==> l.t !in d.issuers
  }

  ghost predicate Possible(d: Desk, x: Move) {
    match x
    case Store(l) => M.Enabled(d.s, l) && Free(d, l)
    case Start(t, _, _, _) => t !in d.issuers && t !in d.s.threads
    case Fail(t) => t in d.issuers && d.issuers[t].Drawing?
    case Attempt(t, _) => t in d.issuers && d.issuers[t].Drawing? && t !in d.s.threads
    case Conclude(t) =>
      t in d.issuers && d.issuers[t].Waiting? && t in d.s.threads && d.s.threads[t].Done?
  }

  ghost function StoreStep(d: Desk, l: M.Label): Desk
    requires Simulates(d.s, d.a) && M.Enabled(d.s, l)
  {
    EveryStepSimulates(d.s, d.a, l);
    d.(s := M.Step(d.s, l), a := A.Step(d.a, ActionOf(d.s, l)))
  }

  /** When a CheckAndSet is done, its one entry says whether it inserted. */
  lemma DoneIsAnswered(s: M.State, a: A.State, t: ThreadId)
    requires Simulates(s, a) && t in s.threads && s.threads[t].Done?
    ensures t in a.calls && a.calls[t].Answered?
    ensures s.threads[t].op.CheckAndSet? ==>
              var e := a.log[a.calls[t].index];
              && e.Called? && e.who == t && e.op == s.threads[t].op
              && (if s.threads[t].response == Ok then e.effect.Inserted? && e.effect.item.value == e.op.value
                  else e.effect.Refused?)
  {
    assert t in s.threads.Keys;
    assert Matches(s.threads[t], a.calls[t], a.log, a.clock) && CallMatchesLog(a, t);
    EntryWasLegal(a.log, a.clock, a.calls[t].index);
  }

  ghost function Next(d: Desk, x: Move): Desk
    requires Simulates(d.s, d.a) && Possible(d, x)
  {
    match x
    case Store(l) => StoreStep(d, l)
    case Start(t, ns, value, ttl) =>
      d.(issuers := d.issuers[t := Drawing(Job(ns, value, ttl, [], |d.a.log|))])
    case Fail(t) =>
      d.(issuers := d.issuers - {t}, results := d.results + [DrawFailed(t, d.issuers[t].job, |d.a.log|)])
    case Attempt(t, code) =>
      var job := d.issuers[t].job;
      var next := StoreStep(d, M.Label.Begin(t, CheckAndSet(job.ns, code, job.value, job.ttl)));
      next.(issuers := d.issuers[t := Waiting(job, code, |d.a.log|)])
    case Conclude(t) =>
      DoneIsAnswered(d.s, d.a, t);
      var job := OneMore(d.issuers[t].job, d.a.calls[t].index);
      var next := StoreStep(d, M.Label.Finish(t));
      if d.s.threads[t].response == Ok then
        next.(issuers := d.issuers - {t}, results := d.results + [Issued(t, job, d.issuers[t].code, |d.a.log|)])
      else if |job.tries| < Authorizer.RETRIES then
        next.(issuers := d.issuers[t := Drawing(job)])
      else
        next.(issuers := d.issuers - {t}, results := d.results + [Exhausted(t, job, |d.a.log|)])
  }

  function OneMore(job: Job, index: nat): Job {
    job.(tries := job.tries + [index])
  }

  // ----- what every run of the desk keeps

  /** Entry `i` is an attempt by `t` at the job. */
  ghost predicate IsTry(log: seq<Entry>, i: nat, t: ThreadId, job: Job) {
    && i < |log| && log[i].Called? && log[i].who == t
    && log[i].op == CheckAndSet(job.ns, log[i].op.key, job.value, job.ttl)
  }

  /** The first `n` tries met a held key. */
  ghost predicate Refusals(log: seq<Entry>, n: int, t: ThreadId, job: Job) {
    n <= |job.tries| && forall k :: 0 <= k < n ==> IsTry(log, job.tries[k], t, job) && log[job.tries[k]].effect.Refused?
  }

  /** The tries come in order, between the start of the call and `upto`. */
  ghost predicate InOrder(job: Job, upto: nat) {
    && job.from <= upto
    && (forall k :: 0 <= k < |job.tries| ==> job.from <= job.tries[k] < upto)
    && forall k, m :: 0 <= k < m < |job.tries| ==> job.tries[k] < job.tries[m]
  }

  /** Entries of `t` from the start of the job to `upto`. */
  ghost function EntriesDuring(log: seq<Entry>, t: ThreadId, job: Job, upto: nat): int
    requires job.from <= upto <= |log|
  {
    EntriesOf(log[..upto], t) - EntriesOf(log[..job.from], t)
  }

  /** What a result promises about the history: during the call its thread made exactly the
      tries it names, at most ten, each on its own; all were refused but the one that inserted
      the code it returns, with the value it was asked to bind. */
  ghost predicate Sound(log: seq<Entry>, r: Result) {
    var n := |r.job.tries|;
    && r.upto <= |log| && InOrder(r.job, r.upto)
    && EntriesDuring(log, r.who, r.job, r.upto) == n
    && match r
       case Issued(t, job, code, _) =>
         && 0 < n <= Authorizer.RETRIES && Refusals(log, n - 1, t, job)
         && IsTry(log, job.tries[n - 1], t, job)
         && log[job.tries[n - 1]].op.key == code
         && log[job.tries[n - 1]].effect.Inserted?
         && log[job.tries[n - 1]].effect.item.value == job.value
       case Exhausted(t, job, _) => n == Authorizer.RETRIES && Refusals(log, n, t, job)
       case DrawFailed(t, job, _) => n < Authorizer.RETRIES && Refusals(log, n, t, job)
  }

  /** The entry that created the key. */
  function Creation(r: Result): nat
    requires r.Issued?
  {
    if r.job.tries == [] then 0 else r.job.tries[|r.job.tries| - 1]
  }

  /** The account of a loop under way: so far its thread made the tries it names, all refused,
      and one more entry if the attempt in flight has acted. */
  ghost predicate IssuerSound(d: Desk, t: ThreadId)
    requires t in d.issuers
  {
    var job := d.issuers[t].job;
    && |job.tries| < Authorizer.RETRIES
    && Refusals(d.a.log, |job.tries|, t, job)
    && (d.issuers[t].Drawing? ==> t !in d.s.threads && t !in d.a.calls && InOrder(job, |d.a.log|))
    && (d.issuers[t].Waiting? ==> InFlight(d, t, job, d.issuers[t].code, d.issuers[t].since))
    && job.from <= |d.a.log|
    && EntriesDuring(d.a.log, t, job, |d.a.log|) == |job.tries| + HasActed(d.a, t)
  }

  ghost predicate InFlight(d: Desk, t: ThreadId, job: Job, code: Name, since: nat) {
    && since <= |d.a.log| && InOrder(job, since)
    && t in d.s.threads && d.s.threads[t].op == CheckAndSet(job.ns, code, job.value, job.ttl)
    && (t in d.a.calls && !d.a.calls[t].Pending? ==> since <= d.a.calls[t].index)
    && forall n :: 0 <= n < |d.results| && d.results[n].Issued? && d.results[n].who == t ==>
         Creation(d.results[n]) < since
  }

  ghost predicate Inv(d: Desk) {
    && Simulates(d.s, d.a)
    && (forall t :: t in d.issuers ==> IssuerSound(d, t))
    && (forall n :: 0 <= n < |d.results| ==> Sound(d.a.log, d.results[n]))
    && (forall m, n :: 0 <= m < n < |d.results| && d.results[m].Issued? && d.results[n].Issued? ==>
          Creation(d.results[m]) != Creation(d.results[n]))
  }

  lemma CreationBirths(log: seq<Entry>, r: Result)
    requires Sound(log, r) && r.Issued?
    ensures Creation(r) < |log| && Births(log[Creation(r)], r.job.ns, r.code)
  {
  }

  lemma SoundLater(log: seq<Entry>, more: seq<Entry>, r: Result)
    requires Sound(log, r) && log <= more
    ensures Sound(more, r)
  {
    assert more[..r.upto] == log[..r.upto] && more[..r.job.from] == log[..r.job.from];
  }

  /** The store's own step leaves each loop's account as it was. */
  lemma StoreStepFrame(d: Desk, l: M.Label)
    requires Simulates(d.s, d.a) && M.Enabled(d.s, l)
    ensures var e := StoreStep(d, l);
            && Simulates(e.s, e.a) && d.a.log <= e.a.log
            && (forall t :: t in d.s.threads && l != M.Label.Finish(t) ==> t in e.s.threads && e.s.threads[t].op == d.s.threads[t].op)
            && (forall t :: t !in d.s.threads && !(l.Begin? && l.t == t) ==> t !in e.s.threads)
            && (forall t :: t in e.a.calls && !e.a.calls[t].Pending? ==>
                  e.a.calls[t].index >= |d.a.log| ||
                  (t in d.a.calls && !d.a.calls[t].Pending? && e.a.calls[t].index == d.a.calls[t].index))
            && (forall t :: t in e.a.calls <==> t in e.s.threads)
  {
    EveryStepSimulates(d.s, d.a, l);
    A.StepKeepsInv(d.a, ActionOf(d.s, l));
    M.ThreadsKeepTheirCalls(d.s, l);
    CallsKeepTheirEntries(d.a, ActionOf(d.s, l));
    assert StoreStep(d, l).a.calls.Keys == StoreStep(d, l).s.threads.Keys;
  }

  /** A step of the store adds to a thread's entries what it adds to its acted calls. */
  lemma EntriesKeepPace(d: Desk, l: M.Label, t: ThreadId)
    requires Simulates(d.s, d.a) && M.Enabled(d.s, l)
    ensures var e := StoreStep(d, l);
            EntriesOf(e.a.log, t) - EntriesOf(d.a.log, t)
            == HasActed(e.a, t) - HasActed(d.a, t) + if l == M.Label.Finish(t) then 1 else 0
  {
    EveryStepSimulates(d.s, d.a, l);
    ActsOncePerStep(d.a, ActionOf(d.s, l), t);
    FinishIsAnswer(d.s, l, t);
    hide Simulates, M.Enabled, A.Enabled, M.Step, A.Step, ActionOf, HasActed;
  }

  lemma EntriesDuringStep(log: seq<Entry>, more: seq<Entry>, t: ThreadId, job: Job)
    requires log <= more && job.from <= |log|
    ensures EntriesDuring(more, t, job, |more|) - EntriesDuring(log, t, job, |log|) == EntriesOf(more, t) - EntriesOf(log, t)
  {
    assert more[..job.from] == log[..job.from];
    assert more[..|more|] == more && log[..|log|] == log;
  }

  lemma RefusalsLater(log: seq<Entry>, more: seq<Entry>, n: int, t: ThreadId, job: Job)
    requires Refusals(log, n, t, job) && log <= more
    ensures Refusals(more, n, t, job)
  {
  }

  lemma InOrderLater(job: Job, upto: nat, later: nat)
    requires InOrder(job, upto) && upto <= later
    ensures InOrder(job, later)
  {
  }

  lemma InFlightLater(d: Desk, e: Desk, l: M.Label, t: ThreadId, job: Job, code: Name, since: nat)
    requires Simulates(d.s, d.a) && M.Enabled(d.s, l) && e == StoreStep(d, l)
    requires InFlight(d, t, job, code, since) && (l.Begin? || l.Finish? ==> l.t != t)
    ensures InFlight(e, t, job, code, since)
  {
    StoreStepFrame(d, l);
    assert e.results == d.results;
    hide StoreStep, Simulates, M.Enabled, Creation, InOrder;
  }

  lemma IssuerSoundLater(d: Desk, e: Desk, l: M.Label, t: ThreadId)
    requires Simulates(d.s, d.a) && M.Enabled(d.s, l) && e == StoreStep(d, l)
    requires t in d.issuers && IssuerSound(d, t)
    requires l.Begin? || l.Finish? ==> l.t != t
    ensures IssuerSound(e, t)
  {
    var job := d.issuers[t].job;
    StoreStepFrame(d, l);
    EntriesKeepPace(d, l, t);
    EntriesDuringStep(d.a.log, e.a.log, t, job);
    RefusalsLater(d.a.log, e.a.log, |job.tries|, t, job);
    assert e.issuers == d.issuers;
    if d.issuers[t].Waiting? { InFlightLater(d, e, l, t, job, d.issuers[t].code, d.issuers[t].since); }
    if d.issuers[t].Drawing? { InOrderLater(job, |d.a.log|, |e.a.log|); }
    assert d.issuers[t].Drawing? ==> t !in e.s.threads && t !in e.a.calls;
    hide StoreStep, Simulates, M.Enabled, Refusals, EntriesDuring, HasActed, InFlight, InOrder;
  }

  /** A step of the store keeps the results, and every loop but the one it begins or ends. */
  lemma OthersSurvive(d: Desk, l: M.Label)
    requires Inv(d) && M.Enabled(d.s, l)
    ensures var e := StoreStep(d, l);
            && e.issuers == d.issuers && e.results == d.results
            && Simulates(e.s, e.a) && d.a.log <= e.a.log
            && (forall t :: t in e.issuers && (l.Begin? || l.Finish? ==> l.t != t) ==> IssuerSound(e, t))
            && (forall n :: 0 <= n < |e.results| ==> Sound(e.a.log, e.results[n]))
  {
    var e := StoreStep(d, l);
    StoreStepFrame(d, l);
    assert e.issuers == d.issuers && e.results == d.results;
    hide Simulates, M.Enabled, StoreStep, IssuerSound, Sound;
    forall t | t in e.issuers && (l.Begin? || l.Finish? ==> l.t != t)
      ensures IssuerSound(e, t)
    {
      IssuerSoundLater(d, e, l, t);
    }
    forall n | 0 <= n < |e.results|
      ensures Sound(e.a.log, e.results[n])
    {
      SoundLater(d.a.log, e.a.log, d.results[n]);
    }
  }

  lemma StoreMoveKeepsInv(d: Desk, l: M.Label)
    requires Inv(d) && M.Enabled(d.s, l) && Free(d, l)
    ensures Inv(StoreStep(d, l))
  {
    OthersSurvive(d, l);
    hide Simulates, M.Enabled, StoreStep, IssuerSound, Sound;
  }

  /** A result that issues nothing leaves the other loops' accounts alone. */
  lemma QuietResult(d: Desk, t: ThreadId, r: Result)
    requires Inv(d) && t in d.issuers && !r.Issued? && Sound(d.a.log, r)
    ensures Inv(d.(issuers := d.issuers - {t}, results := d.results + [r]))
  {
    var e := d.(issuers := d.issuers - {t}, results := d.results + [r]);
    hide Simulates, Sound, Refusals, EntriesDuring, HasActed, InOrder, Creation;
    forall u | u in e.issuers
      ensures IssuerSound(e, u)
    {
      assert IssuerSound(d, u);
    }
  }

  /** The store's part of an attempt: the call is begun and has not acted. */
  lemma AttemptBegins(d: Desk, t: ThreadId, op: Op)
    requires Simulates(d.s, d.a) && t !in d.s.threads
    ensures var e := StoreStep(d, M.Label.Begin(t, op));
            && t in e.s.threads && e.s.threads[t].op == op && t in e.a.calls && e.a.calls[t].Pending?
            && e.a.log == d.a.log && e.results == d.results && e.issuers == d.issuers
            && HasActed(d.a, t) == 0 && HasActed(e.a, t) == 0
  {
    assert t !in d.s.threads.Keys;
    hide Simulates;
  }

  lemma AttemptKeepsOwnAccount(d: Desk, t: ThreadId, code: Name)
    requires Inv(d) && Possible(d, Attempt(t, code))
    ensures IssuerSound(Next(d, Attempt(t, code)), t)
  {
    var job := d.issuers[t].job;
    var op := CheckAndSet(job.ns, code, job.value, job.ttl);
    var f := Next(d, Attempt(t, code));
    var e := StoreStep(d, M.Label.Begin(t, op));
    assert f == e.(issuers := d.issuers[t := Waiting(job, code, |d.a.log|)]);
    AttemptBegins(d, t, op);
    assert IssuerSound(d, t);
    assert f.a == e.a && f.s == e.s && f.results == d.results && f.issuers[t] == Waiting(job, code, |d.a.log|);
    hide Simulates, M.Enabled, StoreStep, Refusals, Creation, EntriesDuring, HasActed, InOrder, Sound, Next;
    forall n | 0 <= n < |d.results| && d.results[n].Issued? && d.results[n].who == t
      ensures Creation(d.results[n]) < |d.a.log|
    {
      assert Sound(d.a.log, d.results[n]);
      CreationBirths(d.a.log, d.results[n]);
    }
    hide Inv;
  }

  /** One loop's account replaced, all others as they were. */
  lemma ReplaceIssuer(e: Desk, t: ThreadId, issuer: Issuer)
    requires Simulates(e.s, e.a)
    requires forall u :: u in e.issuers && u != t ==> IssuerSound(e, u)
    requires IssuerSound(e.(issuers := e.issuers[t := issuer]), t)
    requires forall n :: 0 <= n < |e.results| ==> Sound(e.a.log, e.results[n])
    requires forall m, n :: 0 <= m < n < |e.results| && e.results[m].Issued? && e.results[n].Issued? ==>
               Creation(e.results[m]) != Creation(e.results[n])
    ensures Inv(e.(issuers := e.issuers[t := issuer]))
  {
    var f := e.(issuers := e.issuers[t := issuer]);
    hide Simulates, Sound, Creation, Refusals, EntriesDuring, HasActed;
    forall u | u in f.issuers
      ensures IssuerSound(f, u)
    {
      if u != t { assert IssuerSound(e, u); }
    }
  }

  lemma AttemptKeepsInv(d: Desk, t: ThreadId, code: Name)
    requires Inv(d) && Possible(d, Attempt(t, code))
    ensures Inv(Next(d, Attempt(t, code)))
  {
    var job := d.issuers[t].job;
    var l := M.Label.Begin(t, CheckAndSet(job.ns, code, job.value, job.ttl));
    OthersSurvive(d, l);
    AttemptKeepsOwnAccount(d, t, code);
    var e := StoreStep(d, l);
    var waiting := Waiting(job, code, |d.a.log|);
    assert Next(d, Attempt(t, code)) == e.(issuers := e.issuers[t := waiting]);
    hide Simulates, M.Enabled, StoreStep, Sound, Next, IssuerSound;
    ReplaceIssuer(e, t, waiting);
  }

  /** A job's account, once no attempt is in flight. */
  ghost predicate Settled(log: seq<Entry>, t: ThreadId, job: Job) {
    && InOrder(job, |log|) && EntriesDuring(log, t, job, |log|) == |job.tries|
  }

  /** After the call has returned, the loop has one more try to its account. */
  lemma OneMoreTry(d: Desk, t: ThreadId)
    requires Inv(d) && Possible(d, Conclude(t))
    ensures t in d.a.calls && d.a.calls[t].Answered?
    ensures var index := d.a.calls[t].index;
            var job := OneMore(d.issuers[t].job, index);
            && IsTry(d.a.log, index, t, job) && d.a.log[index].op.key == d.issuers[t].code && d.issuers[t].since <= index
            && Settled(d.a.log, t, job)
            && (if d.s.threads[t].response == Ok
                then Sound(d.a.log, Issued(t, job, d.issuers[t].code, |d.a.log|))
                else Refusals(d.a.log, |job.tries|, t, job))
  {
    DoneIsAnswered(d.s, d.a, t);
    assert IssuerSound(d, t);
    var before := d.issuers[t].job;
    var job := OneMore(before, d.a.calls[t].index);
    assert EntriesDuring(d.a.log, t, job, |d.a.log|) == EntriesDuring(d.a.log, t, before, |d.a.log|);
    hide Simulates, EntriesDuring;
  }

  /** The desk with `t`'s call returned and `t` out of its loop. */
  ghost function Returned(d: Desk, t: ThreadId): Desk
    requires Simulates(d.s, d.a) && t in d.s.threads && d.s.threads[t].Done?
  {
    StoreStep(d, M.Label.Finish(t)).(issuers := d.issuers - {t})
  }

  lemma FinishLeaves(d: Desk, t: ThreadId)
    requires Simulates(d.s, d.a) && t in d.s.threads && d.s.threads[t].Done?
    ensures t !in Returned(d, t).s.threads && Returned(d, t).a.log == d.a.log
  {
    hide Simulates;
  }

  lemma DropIssuer(e: Desk, t: ThreadId)
    requires Simulates(e.s, e.a)
    requires forall u :: u in e.issuers && u != t ==> IssuerSound(e, u)
    requires forall n :: 0 <= n < |e.results| ==> Sound(e.a.log, e.results[n])
    requires forall m, n :: 0 <= m < n < |e.results| && e.results[m].Issued? && e.results[n].Issued? ==>
               Creation(e.results[m]) != Creation(e.results[n])
    ensures Inv(e.(issuers := e.issuers - {t}))
  {
    var f := e.(issuers := e.issuers - {t});
    hide Simulates, Sound, Creation, Refusals, EntriesDuring, HasActed;
    forall u | u in f.issuers
      ensures IssuerSound(f, u)
    {
      assert IssuerSound(e, u);
    }
  }

  lemma ReturnKeepsInv(d: Desk, t: ThreadId)
    requires Inv(d) && Possible(d, Conclude(t))
    ensures Inv(Returned(d, t)) && d.a.log == Returned(d, t).a.log && t !in Returned(d, t).s.threads
  {
    OthersSurvive(d, M.Label.Finish(t));
    FinishLeaves(d, t);
    hide Simulates, M.Enabled, StoreStep, IssuerSound, Sound;
    DropIssuer(StoreStep(d, M.Label.Finish(t)), t);
  }

  lemma RetryKeepsInv(d: Desk, t: ThreadId, job: Job)
    requires Inv(d) && t !in d.s.threads && |job.tries| < Authorizer.RETRIES
    requires Refusals(d.a.log, |job.tries|, t, job) && Settled(d.a.log, t, job)
    ensures Inv(d.(issuers := d.issuers[t := Drawing(job)]))
  {
    var e := d.(issuers := d.issuers[t := Drawing(job)]);
    assert t !in d.a.calls by { assert t !in d.s.threads.Keys; }
    assert HasActed(d.a, t) == 0;
    hide Simulates, Sound, Refusals, EntriesDuring, HasActed;
    forall u | u in e.issuers
      ensures IssuerSound(e, u)
    {
      if u != t { assert IssuerSound(d, u); }
    }
  }

  /** A new result joins those whose creating entries all differ from its own. */
  lemma ResultKeepsInv(d: Desk, r: Result)
    requires Inv(d) && r.who !in d.issuers && Sound(d.a.log, r)
    requires r.Issued? ==> forall n :: 0 <= n < |d.results| && d.results[n].Issued? ==>
               Creation(d.results[n]) != Creation(r)
    ensures Inv(d.(results := d.results + [r]))
  {
    var e := d.(results := d.results + [r]);
    hide Simulates, Sound;
    forall u | u in e.issuers
      ensures IssuerSound(e, u)
    {
      assert IssuerSound(d, u);
    }
  }

  /** A new key's creating entry is later than all of the thread's own before. */
  lemma CreationIsNew(d: Desk, t: ThreadId)
    requires Inv(d) && Possible(d, Conclude(t)) && d.s.threads[t].response == Ok
    ensures t in d.a.calls && d.a.calls[t].Answered?
    ensures forall n :: 0 <= n < |d.results| && d.results[n].Issued? ==> Creation(d.results[n]) != d.a.calls[t].index
  {
    OneMoreTry(d, t);
    assert IssuerSound(d, t);
    hide Simulates;
    forall n | 0 <= n < |d.results| && d.results[n].Issued?
      ensures Creation(d.results[n]) != d.a.calls[t].index
    {
      assert Sound(d.a.log, d.results[n]);
    }
  }

  /** A concluded attempt: the call returns, then the loop ends or goes on. */
  lemma ConcludeInTwo(d: Desk, t: ThreadId)
    requires Inv(d) && Possible(d, Conclude(t))
    ensures t in d.a.calls && d.a.calls[t].Answered?
    ensures var e := Returned(d, t);
            var job := OneMore(d.issuers[t].job, d.a.calls[t].index);
            Next(d, Conclude(t)) ==
              if d.s.threads[t].response == Ok then
                e.(results := e.results + [Issued(t, job, d.issuers[t].code, |d.a.log|)])
              else if |job.tries| < Authorizer.RETRIES then
                e.(issuers := e.issuers[t := Drawing(job)])
              else e.(results := e.results + [Exhausted(t, job, |d.a.log|)])
  {
    DoneIsAnswered(d.s, d.a, t);
    hide Inv, Simulates, M.Step, A.Step;
    var retry := Drawing(OneMore(d.issuers[t].job, d.a.calls[t].index));
    assert (d.issuers - {t})[t := retry] == d.issuers[t := retry];
  }

  lemma ConcludeKeepsInv(d: Desk, t: ThreadId)
    requires Inv(d) && Possible(d, Conclude(t))
    ensures Inv(Next(d, Conclude(t)))
  {
    var e := Returned(d, t);
    OneMoreTry(d, t);
    ReturnKeepsInv(d, t);
    assert |d.issuers[t].job.tries| < Authorizer.RETRIES by { assert IssuerSound(d, t); }
    var ok := d.s.threads[t].response == Ok;
    if ok { CreationIsNew(d, t); }
    ConcludeInTwo(d, t);
    assert t !in e.issuers && e.results == d.results;
    var job := OneMore(d.issuers[t].job, d.a.calls[t].index);
    assert !ok && |job.tries| == Authorizer.RETRIES ==> Sound(d.a.log, Exhausted(t, job, |d.a.log|));
    hide Inv, Sound, Refusals, IsTry, Simulates, Returned, Next, Settled;
    if ok {
      ResultKeepsInv(e, Issued(t, job, d.issuers[t].code, |d.a.log|));
    } else if |job.tries| < Authorizer.RETRIES {
      RetryKeepsInv(e, t, job);
    } else {
      ResultKeepsInv(e, Exhausted(t, job, |d.a.log|));
    }
  }

  lemma StartKeepsInv(d: Desk, t: ThreadId, ns: Name, value: Value, ttl: int)
    requires Inv(d) && Possible(d, Start(t, ns, value, ttl))
    ensures Inv(Next(d, Start(t, ns, value, ttl)))
  {
    RetryKeepsInv(d, t, Job(ns, value, ttl, [], |d.a.log|));
  }

  lemma EveryMoveKeepsInv(d: Desk, x: Move)
    requires Inv(d) && Possible(d, x)
    ensures Inv(Next(d, x))
  {
    match x {
      case Store(l) => StoreMoveKeepsInv(d, l);
      case Start(t, ns, value, ttl) => StartKeepsInv(d, t, ns, value, ttl);
      case Fail(t) =>
        assert IssuerSound(d, t);
        QuietResult(d, t, DrawFailed(t, d.issuers[t].job, |d.a.log|));
      case Attempt(t, code) => AttemptKeepsInv(d, t, code);
      case Conclude(t) => ConcludeKeepsInv(d, t);
    }
  }

  ghost function Opening(s: M.State): Desk {
    Desk(s, A.State(map[], s.clock, map[], []), map[], [])
  }

  lemma OpeningInv(s: M.State)
    requires M.Initial(s)
    ensures Inv(Opening(s))
  {
    InitiallySimulates(s);
  }

  /** Every move is possible when it comes; that is all a run needs. */
  ghost predicate Plays(d: Desk, moves: seq<Move>)
    requires Inv(d)
    decreases moves
  {
    moves == [] || (
      && Possible(d, moves[0])
      && (EveryMoveKeepsInv(d, moves[0]);
          Plays(Next(d, moves[0]), moves[1..])))
  }

  ghost function Outcome(d: Desk, moves: seq<Move>): (e: Desk)
    requires Inv(d) && Plays(d, moves)
    ensures Inv(e)
    decreases moves
  {
    if moves == [] then d
    else
      EveryMoveKeepsInv(d, moves[0]);
      Outcome(Next(d, moves[0]), moves[1..])
  }

  /** A run of store and loops from the empty store. */
  ghost predicate FromTheStart(s: M.State, moves: seq<Move>) {
    M.Initial(s) && (OpeningInv(s); Plays(Opening(s), moves))
  }

  /** Where such a run leads: the account of every call that has returned is sound. */
  ghost function Ending(s: M.State, moves: seq<Move>): (d: Desk)
    requires FromTheStart(s, moves)
    ensures Inv(d)
  {
    OpeningInv(s);
    Outcome(Opening(s), moves)
  }
}
