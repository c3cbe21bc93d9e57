/** The store as it runs: every `sync.Map` call and every clock reading is one step, and any
    number of goroutines, the collector among them, interleave their steps at will. */
module StoreMachine {
  import A = AtomicStore
  import opened AtomicStore
  import opened Options

  /** A `sync.Map` object. */
  type Ref = nat

  /** Where a call stands, with the locals it holds. */
  datatype Pc =
    | Lookup(op: Op)                                   // about to load the namespace's object
    | Create(op: Op, spare: Ref)                       // missed; about to LoadOrStore a new object
    | Stamp(op: Op, ref: Ref)                          // writer about to read the clock
    | Write(op: Op, ref: Ref, item: Item)              // writer about to store its item
    | Fetch(op: Op, ref: Ref)                          // others about to touch the key
    | Check(op: Op, item: Item)                        // reader about to compare with the clock
    | Restamp(op: Op, ref: Ref, seen: Item)            // Refresh about to read the clock
    | Swap(op: Op, ref: Ref, seen: Item, item: Item)   // Refresh about to CompareAndSwap
    | Done(op: Op, response: Response)

  /** A collection pass. `todo` and `pending` are what the two Ranges have still to visit;
      `fetched` are mappings already read and not yet dealt with, so a Range may present a
      mapping from any moment of its run. */
  datatype Pass =
    | Ranging(now: Time, todo: set<Name>)
    | Scanning(now: Time, todo: set<Name>, ns: Name, ref: Ref, pending: set<Name>, fetched: map<Name, Item>)

  datatype State = State(
    clock: Time,
    scopes: map<Name, Ref>,
    objects: map<Ref, map<Name, Item>>,
    threads: map<ThreadId, Pc>,
    passes: map<ThreadId, Pass>)

  datatype Label =
    | Tick(to: Time)
    | Begin(t: ThreadId, op: Op)
    | Advance(t: ThreadId, spare: Ref)  // `spare` is the object `new(sync.Map)` yields, if called
    | Finish(t: ThreadId)
    | StartPass(c: ThreadId)            // reads the clock
    | VisitScope(c: ThreadId, ns: Name)
    | ReadMapping(c: ThreadId, key: Name)
    | MissMapping(c: ThreadId, key: Name)
    | TestAndDelete(c: ThreadId, key: Name)
    | LeaveScope(c: ThreadId)
    | EndPass(c: ThreadId)

  ghost predicate Initial(s: State) {
    s.scopes == map[] && s.objects == map[] && s.threads == map[] && s.passes == map[]
  }

  predicate IsScanning(s: State, c: ThreadId) {
    c in s.passes && s.passes[c].Scanning?
  }

  ghost predicate Enabled(s: State, l: Label) {
    match l
    case Tick(to) => s.clock <= to
    case Begin(t, _) => t !in s.threads
    case Advance(t, spare) =>
      && t in s.threads && !s.threads[t].Done?
      && (s.threads[t].Lookup? ==> spare !in s.objects)
      && (Holds(s.threads[t]) ==> s.threads[t].ref in s.objects)
    case Finish(t) => t in s.threads && s.threads[t].Done?
    case StartPass(c) => c !in s.passes
    case VisitScope(c, ns) => c in s.passes && s.passes[c].Ranging? && ns in s.scopes && s.scopes[ns] in s.objects
    case ReadMapping(c, key) =>
      IsScanning(s, c) && s.passes[c].ref in s.objects && key in s.objects[s.passes[c].ref]
    case MissMapping(c, key) =>
      IsScanning(s, c) && s.passes[c].ref in s.objects && key !in s.objects[s.passes[c].ref]
    case TestAndDelete(c, key) => IsScanning(s, c) && s.passes[c].ref in s.objects && key in s.passes[c].fetched
    case LeaveScope(c) => IsScanning(s, c) && s.passes[c].pending == {} && s.passes[c].fetched == map[]
    case EndPass(c) => c in s.passes && s.passes[c].Ranging? && s.passes[c].todo == {}
  }

  /** The call has a namespace's object in hand. */
  predicate Holds(pc: Pc) {
    pc.Stamp? || pc.Write? || pc.Fetch? || pc.Restamp? || pc.Swap?
  }

  function Goto(s: State, t: ThreadId, pc: Pc): State {
    s.(threads := s.threads[t := pc])
  }

  /** Replaces the mapping inside one `sync.Map`. */
  function Update(s: State, ref: Ref, keys: map<Name, Item>): State {
    s.(objects := s.objects[ref := keys])
  }

  /** Once the namespace's object is known. */
  function Resolved(op: Op, ref: Ref): Pc {
    if op.Writes() then Pc.Stamp(op, ref) else Pc.Fetch(op, ref)
  }

  /** One step of a call that has its object: where the call goes and what becomes of the
      object's mappings. */
  function Touch(pc: Pc, keys: map<Name, Item>, clock: Time): (Pc, map<Name, Item>)
    requires Holds(pc)
  {
    match pc
    case Stamp(op, ref) =>
      if op.Writes() then (Write(op, ref, Item(clock + op.ttl, op.value)), keys) else (pc, keys)
    case Write(op, ref, item) =>
      if op.CheckAndSet? && op.key in keys then (Done(op, Failed(ItemAlreadyExists)), keys)
      else (Done(op, Ok), keys[op.key := item])
    case Fetch(op, ref) =>
      if op.key !in keys then (Done(op, if op.Remove? then Ok else Failed(InvalidKey)), keys)
      else if op.Read? then (Check(op, keys[op.key]), keys)
      else if op.ReadAndRemove? then (Check(op, keys[op.key]), keys - {op.key})
      else if op.Remove? then (Done(op, Ok), keys - {op.key})
      else (Restamp(op, ref, keys[op.key]), keys)
    case Restamp(op, ref, seen) =>
      if op.Refresh? then (Swap(op, ref, seen, Item(clock + op.ttl, seen.value)), keys) else (pc, keys)
    case Swap(op, ref, seen, item) =>
      if op.key in keys && keys[op.key] == seen then (Done(op, Ok), keys[op.key := item])
      else (Done(op, Failed(ItemChanged)), keys)
  }

  function AdvanceThread(s: State, t: ThreadId, spare: Ref): State
    requires t in s.threads && !s.threads[t].Done?
    requires Holds(s.threads[t]) ==> s.threads[t].ref in s.objects
  {
    var pc := s.threads[t];
    var op := pc.op;
    if Holds(pc) then
      var (next, keys) := Touch(pc, s.objects[pc.ref], s.clock);
      Goto(Update(s, pc.ref, keys), t, next)
    else if pc.Lookup? then
      if op.ns in s.scopes then Goto(s, t, Resolved(op, s.scopes[op.ns]))
      else if op.Writes() then Goto(Update(s, spare, map[]), t, Create(op, spare))
      else Goto(s, t, Done(op, if op.Remove? then Ok else Failed(InvalidNamespace)))
    else if pc.Create? then
      if op.ns in s.scopes then Goto(s, t, Pc.Stamp(op, s.scopes[op.ns]))
      else Goto(s.(scopes := s.scopes[op.ns := pc.spare]), t, Pc.Stamp(op, pc.spare))
    else
      Goto(s, t, Done(op, if pc.item.purge < s.clock then Failed(ExpiredItem) else Got(pc.item.value)))
  }

  function Step(s: State, l: Label): State
    requires Enabled(s, l)
  {
    match l
    case Tick(to) => s.(clock := to)
    case Begin(t, op) => Goto(s, t, Pc.Lookup(op))
    case Advance(t, spare) => AdvanceThread(s, t, spare)
    case Finish(t) => s.(threads := s.threads - {t})
    case StartPass(c) => s.(passes := s.passes[c := Ranging(s.clock, s.scopes.Keys)])
    case VisitScope(c, ns) =>
      var p := s.passes[c];
      var ref := s.scopes[ns];
      s.(passes := s.passes[c := Scanning(p.now, p.todo - {ns}, ns, ref, s.objects[ref].Keys, map[])])
    case ReadMapping(c, key) =>
      var p := s.passes[c];
      s.(passes := s.passes[c :=
           p.(pending := p.pending - {key}, fetched := p.fetched[key := s.objects[p.ref][key]])])
    case MissMapping(c, key) =>
      var p := s.passes[c];
      s.(passes := s.passes[c := p.(pending := p.pending - {key})])
    case TestAndDelete(c, key) =>
      var p := s.passes[c];
      var keys := s.objects[p.ref];
      var next := s.(passes := s.passes[c := p.(fetched := p.fetched - {key})]);
      if p.fetched[key].purge < p.now && key in keys && keys[key] == p.fetched[key]
      then Update(next, p.ref, keys - {key})
      else next
    case LeaveScope(c) => s.(passes := s.passes[c := Ranging(s.passes[c].now, s.passes[c].todo)])
    case EndPass(c) => s.(passes := s.passes - {c})
  }

  // ----- what every interleaving keeps

  /** The published objects, as one value. */
  function Database(s: State): Contents
    requires forall ns :: ns in s.scopes ==> s.scopes[ns] in s.objects
  {
    map ns | ns in s.scopes :: s.objects[s.scopes[ns]]
  }

  /** The call holds the one object of its own namespace, or a private new one. */
  ghost predicate PcSound(s: State, pc: Pc) {
    && (Holds(pc) ==> pc.op.ns in s.scopes && s.scopes[pc.op.ns] == pc.ref)
    && (pc.Create? ==> pc.op.Writes() && Unpublished(s, pc.spare))
    && (pc.Stamp? || pc.Write? ==> pc.op.Writes())
    && (pc.Write? ==> pc.item.value == pc.op.value)
    && (pc.Fetch? ==> !pc.op.Writes())
    && (pc.Check? ==> pc.op.Read? || pc.op.ReadAndRemove?)
    && (pc.Restamp? || pc.Swap? ==> pc.op.Refresh?)
    && (pc.Swap? ==> pc.item.value == pc.seen.value)
  }

  ghost predicate Unpublished(s: State, ref: Ref) {
    ref in s.objects && s.objects[ref] == map[] && forall ns :: ns in s.scopes ==> s.scopes[ns] != ref
  }

  ghost predicate PassSound(s: State, p: Pass) {
    && p.now <= s.clock
    && (p.Scanning? ==> p.ns in s.scopes && s.scopes[p.ns] == p.ref)
  }

  ghost predicate Inv(s: State) {
    && (forall ns :: ns in s.scopes ==> s.scopes[ns] in s.objects)
    && (forall m, n :: m in s.scopes && n in s.scopes && m != n ==> s.scopes[m] != s.scopes[n])
    && (forall t :: t in s.threads ==> PcSound(s, s.threads[t]))
    && (forall t, u :: t in s.threads && u in s.threads && t != u && s.threads[t].Create? && s.threads[u].Create? ==>
          s.threads[t].spare != s.threads[u].spare)
    && (forall c :: c in s.passes ==> PassSound(s, s.passes[c]))
  }

  lemma InitialInv(s: State)
    requires Initial(s)
    ensures Inv(s) && Database(s) == map[]
  {
  }

  /** Steps that publish nothing and leave private objects alone disturb no other call. */
  lemma PcFrame(s: State, s': State, pc: Pc)
    requires PcSound(s, pc) && s'.scopes == s.scopes
    requires pc.Create? ==> pc.spare in s'.objects && s'.objects[pc.spare] == map[]
    ensures PcSound(s', pc)
  {
  }

  lemma CreateKeepsInv(s: State, t: ThreadId, spare: Ref)
    requires Inv(s) && Enabled(s, Advance(t, spare)) && s.threads[t].Create?
    ensures Inv(Step(s, Advance(t, spare)))
  {
    var s' := Step(s, Advance(t, spare));
    var mine := s.threads[t];
    assert PcSound(s, mine);
    forall u | u in s'.threads
      ensures PcSound(s', s'.threads[u])
    {
      assert PcSound(s, s.threads[u]);
      if u != t && s.threads[u].Create? {
        assert s.threads[u].spare != mine.spare;
      }
    }
    forall c | c in s'.passes
      ensures PassSound(s', s'.passes[c])
    {
      assert PassSound(s, s.passes[c]);
    }
  }

  lemma LookupLeaves(s: State, t: ThreadId, spare: Ref)
    requires Inv(s) && Enabled(s, Advance(t, spare)) && s.threads[t].Lookup?
    ensures var s' := Step(s, Advance(t, spare));
            && s'.scopes == s.scopes && s'.passes == s.passes && s'.clock == s.clock
            && t in s.threads && t in s'.threads && s'.threads == s.threads[t := s'.threads[t]]
            && PcSound(s', s'.threads[t])
            && (forall r :: r in s.objects ==> r in s'.objects && s'.objects[r] == s.objects[r])
            && (s'.threads[t].Create? ==> s'.threads[t].spare !in s.objects)
  {
    assert PcSound(s, s.threads[t]);
  }

  lemma LookupKeepsInv(s: State, t: ThreadId, spare: Ref)
    requires Inv(s) && Enabled(s, Advance(t, spare)) && s.threads[t].Lookup?
    ensures Inv(Step(s, Advance(t, spare)))
  {
    hide Step, Enabled;
    LookupLeaves(s, t, spare);
    var s' := Step(s, Advance(t, spare));
    forall u | u in s'.threads
      ensures PcSound(s', s'.threads[u])
    {
      assert PcSound(s, s.threads[u]);
      if u != t { PcFrame(s, s', s.threads[u]); }
    }
    forall c | c in s'.passes
      ensures PassSound(s', s'.passes[c])
    {
      assert PassSound(s, s.passes[c]);
    }
  }

  lemma GotoKeepsInv(s: State, t: ThreadId, pc: Pc)
    requires Inv(s) && PcSound(s, pc) && !pc.Create?
    ensures Inv(Goto(s, t, pc))
  {
    var s' := Goto(s, t, pc);
    forall u | u in s'.threads
      ensures PcSound(s', s'.threads[u])
    {
      PcFrame(s, s', s'.threads[u]);
    }
  }

  lemma UpdateKeepsInv(s: State, ns: Name, keys: map<Name, Item>)
    requires Inv(s) && ns in s.scopes
    ensures Inv(Update(s, s.scopes[ns], keys))
  {
    var s' := Update(s, s.scopes[ns], keys);
    forall u | u in s'.threads
      ensures PcSound(s', s'.threads[u])
    {
      assert PcSound(s, s.threads[u]);
      PcFrame(s, s', s.threads[u]);
    }
  }

  /** Once resolved, a call sticks to its operation and its object. */
  lemma TouchStaysHome(s: State, pc: Pc, keys: map<Name, Item>, clock: Time)
    requires Holds(pc) && PcSound(s, pc)
    ensures PcSound(s, Touch(pc, keys, clock).0) && !Touch(pc, keys, clock).0.Create?
  {
  }

  /** The steps of a call that has its object, and the last clock reading. */
  lemma HolderKeepsInv(s: State, t: ThreadId, spare: Ref)
    requires Inv(s) && Enabled(s, Advance(t, spare)) && !s.threads[t].Lookup? && !s.threads[t].Create?
    ensures Inv(Step(s, Advance(t, spare)))
  {
    var pc := s.threads[t];
    assert PcSound(s, pc);
    if Holds(pc) {
      var (next, keys) := Touch(pc, s.objects[pc.ref], s.clock);
      TouchStaysHome(s, pc, s.objects[pc.ref], s.clock);
      UpdateKeepsInv(s, pc.op.ns, keys);
      PcFrame(s, Update(s, pc.ref, keys), next);
      GotoKeepsInv(Update(s, pc.ref, keys), t, next);
    } else {
      GotoKeepsInv(s, t, Step(s, Advance(t, spare)).threads[t]);
    }
  }

  predicate IsPassStep(l: Label) {
    l.StartPass? || l.VisitScope? || l.ReadMapping? || l.MissMapping? || l.TestAndDelete? || l.LeaveScope? || l.EndPass?
  }

  lemma PassStepKeepsInv(s: State, l: Label)
    requires Inv(s) && Enabled(s, l) && IsPassStep(l)
    ensures Inv(Step(s, l))
  {
    var s' := Step(s, l);
    assert s'.scopes == s.scopes && s'.threads == s.threads && s'.clock == s.clock;
    if l.c in s.passes { assert PassSound(s, s.passes[l.c]); }
    forall u | u in s'.threads
      ensures PcSound(s', s'.threads[u])
    {
      assert PcSound(s, s.threads[u]);
      PcFrame(s, s', s.threads[u]);
    }
    forall c | c in s'.passes
      ensures PassSound(s', s'.passes[c])
    {
      if c in s.passes { assert PassSound(s, s.passes[c]); }
    }
  }

  /** The step deletes: the mapping that was read is still there and had expired. */
  ghost predicate Deletes(s: State, l: Label)
    requires Inv(s) && Enabled(s, l)
  {
    && l.TestAndDelete?
    && var p := s.passes[l.c];
       p.fetched[l.key].purge < p.now && A.Lookup(Database(s), p.ns, l.key) == Some(p.fetched[l.key])
  }

  /** What a step of a pass does to the contents, and to nothing else but the pass. */
  lemma PassStepContents(s: State, l: Label)
    requires Inv(s) && Enabled(s, l) && IsPassStep(l)
    ensures var s' := Step(s, l);
            && Inv(s') && s'.scopes == s.scopes && s'.threads == s.threads && s'.clock == s.clock
            && (l.c in s.passes ==> PassSound(s, s.passes[l.c]))
            && (l.TestAndDelete? ==>
                  && s.passes[l.c].ns in Database(s)
                  && Database(s)[s.passes[l.c].ns] == s.objects[s.passes[l.c].ref])
            && Database(s') ==
                 if Deletes(s, l) then Delete(Database(s), s.passes[l.c].ns, l.key) else Database(s)
  {
    PassStepKeepsInv(s, l);
    if l.c in s.passes { assert PassSound(s, s.passes[l.c]); }
  }

  /** In every interleaving, a namespace's object is allocated once it is published, is
      shared with no other namespace, and is the one every call and every pass on that
      namespace works on. */
  lemma StepKeepsInv(s: State, l: Label)
    requires Inv(s) && Enabled(s, l)
    ensures Inv(Step(s, l))
  {
    if IsPassStep(l) {
      PassStepKeepsInv(s, l);
    } else if l.Advance? {
      if s.threads[l.t].Create? {
        CreateKeepsInv(s, l.t, l.spare);
      } else if s.threads[l.t].Lookup? {
        LookupKeepsInv(s, l.t, l.spare);
      } else {
        HolderKeepsInv(s, l.t, l.spare);
      }
    } else {
      OutsideStepKeepsInv(s, l);
    }
  }

  lemma OutsideStepKeepsInv(s: State, l: Label)
    requires Inv(s) && Enabled(s, l) && (l.Tick? || l.Begin? || l.Finish?)
    ensures Inv(Step(s, l))
  {
    var s' := Step(s, l);
    forall u | u in s'.threads
      ensures PcSound(s', s'.threads[u])
    {
      if u in s.threads && s'.threads[u] == s.threads[u] { PcFrame(s, s', s.threads[u]); }
    }
    forall c | c in s'.passes
      ensures PassSound(s', s'.passes[c])
    {
      assert PassSound(s, s.passes[c]);
    }
  }

  // ----- calls in flight

  lemma TouchKeepsOp(pc: Pc, keys: map<Name, Item>, clock: Time)
    requires Holds(pc)
    ensures Touch(pc, keys, clock).0.op == pc.op
  {
  }

  /** A call keeps its operation from its beginning to its end. */
  lemma ThreadsKeepTheirCalls(s: State, l: Label)
    requires Enabled(s, l)
    ensures var s' := Step(s, l);
            && (forall t :: t in s.threads && l != Label.Finish(t) ==> t in s'.threads && s'.threads[t].op == s.threads[t].op)
            && (forall t :: t !in s.threads && !(l.Begin? && l.t == t) ==> t !in s'.threads)
  {
    if l.Advance? && Holds(s.threads[l.t]) {
      TouchKeepsOp(s.threads[l.t], s.objects[s.threads[l.t].ref], s.clock);
      hide Touch;
    }
  }

  /** Nobody moves a call but its own thread. */
  lemma OthersStandAside(s: State, l: Label, t: ThreadId)
    requires Enabled(s, l) && t in s.threads && l != Finish(t) && !(l.Advance? && l.t == t)
    ensures t in Step(s, l).threads && Step(s, l).threads[t] == s.threads[t]
  {
    hide Touch, Holds;
  }

  // ----- runs

  ghost predicate Runs(s: State, labels: seq<Label>)
    decreases labels
  {
    labels == [] || (Enabled(s, labels[0]) && Runs(Step(s, labels[0]), labels[1..]))
  }

  ghost function After(s: State, labels: seq<Label>): State
    requires Runs(s, labels)
    decreases labels
  {
    if labels == [] then s else After(Step(s, labels[0]), labels[1..])
  }

  lemma {:induction false} RunKeepsInv(s: State, labels: seq<Label>)
    requires Inv(s) && Runs(s, labels)
    ensures Inv(After(s, labels))
    decreases labels
  {
    if labels != [] {
      StepKeepsInv(s, labels[0]);
      RunKeepsInv(Step(s, labels[0]), labels[1..]);
    }
  }

  /** A run is a run of its first part and then of the rest. */
  lemma {:induction false} RunsSplit(s: State, first: seq<Label>, rest: seq<Label>)
    ensures Runs(s, first + rest) <==> Runs(s, first) && Runs(After(s, first), rest)
    ensures Runs(s, first + rest) ==> After(s, first + rest) == After(After(s, first), rest)
    decreases first
  {
    hide Enabled, Step;
    if first == [] {
      assert [] + rest == rest;
    } else {
      assert (first + rest)[0] == first[0] && (first + rest)[1..] == first[1..] + rest;
      if Enabled(s, first[0]) { RunsSplit(Step(s, first[0]), first[1..], rest); }
    }
  }

  /** Once published, even by racing creators, a namespace's object is never replaced. */
  lemma {:induction false} ScopesAreForever(s: State, labels: seq<Label>, ns: Name)
    requires Runs(s, labels) && ns in s.scopes
    ensures ns in After(s, labels).scopes && After(s, labels).scopes[ns] == s.scopes[ns]
    decreases labels
  {
    if labels != [] {
      ScopesAreForever(Step(s, labels[0]), labels[1..], ns);
    }
  }
}
