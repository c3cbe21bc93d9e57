/** A collection pass that is alone: run without interference, the step machine's pass is the
    serial one, and it comes to its end. */
module SoloPass {
  import opened Options
  import A = AtomicStore
  import opened AtomicStore
  import M = StoreMachine
  import opened CollectorPass
  import SerialStore

  predicate PassSteps(labels: seq<M.Label>, c: ThreadId) {
    forall i :: 0 <= i < |labels| ==> IsStepOf(labels[i], c)
  }

  lemma {:induction false} AloneIsLeftAlone(s: M.State, labels: seq<M.Label>, c: ThreadId, ns: Name, key: Name)
    requires M.Inv(s) && M.Runs(s, labels) && PassSteps(labels, c)
    ensures LeftAlone(s, labels, c, ns, key)
    decreases labels
  {
    if labels != [] {
      M.StepKeepsInv(s, labels[0]);
      hide M.Inv, M.Step, M.Enabled, Held;
      AloneIsLeftAlone(M.Step(s, labels[0]), labels[1..], c, ns, key);
    }
  }

  /** Steps of a pass keep the clock and the calls, and every item that has not expired. */
  lemma {:induction false} AlonePassSpares(s: M.State, labels: seq<M.Label>, c: ThreadId, ns: Name, key: Name)
    requires M.Inv(s) && M.Runs(s, labels) && PassSteps(labels, c)
    ensures var end := M.After(s, labels);
            && M.Inv(end) && end.clock == s.clock && end.threads == s.threads && end.scopes == s.scopes
            && (Held(end, ns, key) == Held(s, ns, key) ||
                (Held(s, ns, key).Some? && Held(s, ns, key).value.purge < s.clock && Held(end, ns, key) == None))
    decreases labels
  {
    if labels != [] {
      var l := labels[0];
      M.PassStepContents(s, l);
      PassSparesLive(s, l, ns, key);
      hide M.Inv, M.Step, M.Enabled, Held;
      AlonePassSpares(M.Step(s, l), labels[1..], c, ns, key);
    }
  }

  lemma SameKeys(a: Contents, b: Contents)
    requires a.Keys == b.Keys && forall ns, key :: Lookup(a, ns, key) == Lookup(b, ns, key)
    ensures a == b
  {
    forall ns | ns in a
      ensures a[ns] == b[ns]
    {
      assert ns in b.Keys;
      forall key
        ensures key in a[ns] <==> key in b[ns]
        ensures key in a[ns] ==> a[ns][key] == b[ns][key]
      {
        assert Lookup(a, ns, key) == Lookup(b, ns, key);
      }
    }
  }

  lemma StartStep(s: M.State, c: ThreadId)
    requires M.Inv(s) && c !in s.passes
    ensures var s' := M.Step(s, M.StartPass(c));
            && M.Inv(s') && M.Database(s') == M.Database(s) && s'.clock == s.clock
            && s'.threads == s.threads && s'.scopes == s.scopes
            && c in s'.passes && s'.passes[c] == M.Ranging(s.clock, s.scopes.Keys)
  {
    M.StepKeepsInv(s, M.StartPass(c));
  }

  /** One key after a whole pass. */
  lemma KeyAfterPass(s: M.State, c: ThreadId, labels: seq<M.Label>, ns: Name, key: Name)
    requires M.Inv(s) && c !in s.passes && M.Runs(M.Step(s, M.StartPass(c)), labels) && PassSteps(labels, c)
    requires c !in M.After(M.Step(s, M.StartPass(c)), labels).passes
    ensures var end := M.After(M.Step(s, M.StartPass(c)), labels);
            && M.Inv(end) && end.clock == s.clock && end.threads == s.threads && end.scopes == s.scopes
            && Held(end, ns, key) == Lookup(SerialStore.WithoutExpired(M.Database(s), s.clock), ns, key)
  {
    StartStep(s, c);
    var s1 := M.Step(s, M.StartPass(c));
    assert Held(s1, ns, key) == Held(s, ns, key);
    SerialStore.CollectedLookup(M.Database(s), s.clock, ns, key);
    AlonePassSpares(s1, labels, c, ns, key);
    AloneIsLeftAlone(s1, labels, c, ns, key);
    var held := Held(s, ns, key);
    if held.Some? && held.value.purge < s.clock {
      PassClearsExpired(s, labels, c, ns, key, held.value);
    }
    hide M.Inv, M.Step, M.Database, LeftAlone, SerialStore.WithoutExpired;
  }

  /** From any reachable state, a pass whose steps run one after the other and that has ended
      leaves what the serial collection leaves, and disturbs no call. */
  lemma SoloPassIsSerial(s: M.State, c: ThreadId, labels: seq<M.Label>)
    requires M.Inv(s) && c !in s.passes && M.Runs(s, [M.StartPass(c)] + labels) && PassSteps(labels, c)
    requires c !in M.After(s, [M.StartPass(c)] + labels).passes
    ensures var end := M.After(s, [M.StartPass(c)] + labels);
            && M.Inv(end) && end.clock == s.clock && end.threads == s.threads
            && M.Database(end) == SerialStore.WithoutExpired(M.Database(s), s.clock)
  {
    assert ([M.StartPass(c)] + labels)[1..] == labels;
    var end := M.After(M.Step(s, M.StartPass(c)), labels);
    KeyAfterPass(s, c, labels, "", "");
    assert M.Database(end).Keys == SerialStore.WithoutExpired(M.Database(s), s.clock).Keys;
    hide M.Inv, M.Step, M.Database, SerialStore.WithoutExpired;
    forall ns, key
      ensures Lookup(M.Database(end), ns, key) == Lookup(SerialStore.WithoutExpired(M.Database(s), s.clock), ns, key)
    {
      KeyAfterPass(s, c, labels, ns, key);
    }
    SameKeys(M.Database(end), SerialStore.WithoutExpired(M.Database(s), s.clock));
  }

  // ----- it ends

  function Mappings(p: M.Pass): (nat, nat, nat) {
    match p
    case Ranging(_, _) => (0, 0, 0)
    case Scanning(_, _, _, _, pending, fetched) => (1, |pending|, |fetched|)
  }

  /** Fewer namespaces to visit, or in the same one less to do. */
  ghost predicate Closer(p: M.Pass, q: M.Pass) {
    var (a, b, c) := Mappings(p);
    var (x, y, z) := Mappings(q);
    || p.todo < q.todo
    || (p.todo == q.todo && (a < x || (a == x && (b < y || (b == y && c < z)))))
  }

  /** The step brings the pass closer to its end, and it is still a sound one. */
  ghost predicate Nearer(s: M.State, l: M.Label, c: ThreadId)
    requires c in s.passes && M.Enabled(s, l)
  {
    var s' := M.Step(s, l);
    && s'.scopes == s.scopes
    && c in s'.passes && s'.passes[c].todo <= s'.scopes.Keys && Closer(s'.passes[c], s.passes[c])
  }

  lemma RangingStep(s: M.State, c: ThreadId, ns: Name)
    requires M.Inv(s) && c in s.passes && s.passes[c].Ranging? && s.passes[c].todo <= s.scopes.Keys && ns in s.passes[c].todo
    ensures M.Enabled(s, M.VisitScope(c, ns)) && Nearer(s, M.VisitScope(c, ns), c)
  {
    assert ns in s.scopes.Keys;
    hide M.PcSound, M.PassSound;
  }

  lemma PendingShrinks(p: M.Pass, key: Name, fetched: map<Name, Item>)
    requires p.Scanning? && key in p.pending
    ensures Closer(p.(pending := p.pending - {key}, fetched := fetched), p)
  {
  }

  lemma FetchedShrinks(p: M.Pass, key: Name)
    requires p.Scanning? && key in p.fetched
    ensures Closer(p.(fetched := p.fetched - {key}), p)
  {
    var rest := p.fetched - {key};
    assert rest.Keys == p.fetched.Keys - {key};
    assert |rest.Keys| == |rest| && |p.fetched.Keys| == |p.fetched|;
  }

  lemma ScanStep(s: M.State, c: ThreadId, l: M.Label)
    requires c in s.passes && s.passes[c].Scanning? && M.Enabled(s, l) && IsStepOf(l, c)
    ensures var s' := M.Step(s, l);
            var p := s.passes[c];
            && s'.scopes == s.scopes && c in s'.passes
            && (l.ReadMapping? ==>
                  && l.key in s.objects[p.ref]
                  && s'.passes[c] == p.(pending := p.pending - {l.key}, fetched := p.fetched[l.key := s.objects[p.ref][l.key]]))
            && (l.MissMapping? ==> s'.passes[c] == p.(pending := p.pending - {l.key}, fetched := p.fetched))
            && (l.TestAndDelete? ==> s'.passes[c] == p.(fetched := p.fetched - {l.key}))
            && (l.LeaveScope? ==> s'.passes[c] == M.Ranging(p.now, p.todo))
  {
  }

  lemma ScanningStep(s: M.State, c: ThreadId) returns (l: M.Label)
    requires M.Inv(s) && c in s.passes && s.passes[c].Scanning? && s.passes[c].todo <= s.scopes.Keys
    ensures M.Enabled(s, l) && IsStepOf(l, c) && !l.EndPass? && Nearer(s, l, c)
  {
    var p := s.passes[c];
    assert p.ref in s.objects by { assert M.PassSound(s, p); }
    if p.pending != {} {
      var k :| k in p.pending;
      PendingShrinks(p, k, p.fetched);
      if k in s.objects[p.ref] {
        l := M.ReadMapping(c, k);
        PendingShrinks(p, k, p.fetched[k := s.objects[p.ref][k]]);
      } else {
        l := M.MissMapping(c, k);
      }
    } else if p.fetched != map[] {
      var k :| k in p.fetched;
      l := M.TestAndDelete(c, k);
      FetchedShrinks(p, k);
    } else {
      l := M.LeaveScope(c);
      assert Closer(M.Ranging(p.now, p.todo), p);
    }
    assert M.Enabled(s, l);
    ScanStep(s, c, l);
    hide M.Inv, M.Step, M.Enabled, Closer;
  }

  /** The next step of a pass: visit a namespace, read or test a mapping, leave, end. */
  lemma NextPassStep(s: M.State, c: ThreadId) returns (l: M.Label)
    requires M.Inv(s) && c in s.passes && s.passes[c].todo <= s.scopes.Keys
    ensures M.Enabled(s, l) && IsStepOf(l, c) && M.Inv(M.Step(s, l))
    ensures if l == M.EndPass(c) then c !in M.Step(s, l).passes else Nearer(s, l, c)
  {
    hide M.Inv, Nearer;
    if s.passes[c].Scanning? {
      l := ScanningStep(s, c);
    } else if s.passes[c].todo != {} {
      var ns :| ns in s.passes[c].todo;
      RangingStep(s, c, ns);
      l := M.VisitScope(c, ns);
    } else {
      l := M.EndPass(c);
    }
    M.StepKeepsInv(s, l);
  }

  lemma {:induction false} PassRunsOut(s: M.State, c: ThreadId) returns (labels: seq<M.Label>)
    requires M.Inv(s) && c in s.passes && s.passes[c].todo <= s.scopes.Keys
    ensures M.Runs(s, labels) && PassSteps(labels, c) && c !in M.After(s, labels).passes
    decreases s.passes[c].todo, Mappings(s.passes[c]).0, Mappings(s.passes[c]).1, Mappings(s.passes[c]).2
  {
    var l := NextPassStep(s, c);
    hide M.Inv, M.Step, M.Enabled;
    if l == M.EndPass(c) {
      labels := [l];
      assert labels[1..] == [];
    } else {
      var rest := PassRunsOut(M.Step(s, l), c);
      labels := [l] + rest;
      assert labels[1..] == rest;
    }
  }

  /** From any reachable state a pass can begin and, left alone, comes to its end. */
  lemma SoloPassEnds(s: M.State, c: ThreadId) returns (labels: seq<M.Label>)
    requires M.Inv(s) && c !in s.passes
    ensures M.Runs(s, [M.StartPass(c)] + labels) && PassSteps(labels, c)
    ensures c !in M.After(s, [M.StartPass(c)] + labels).passes
  {
    StartStep(s, c);
    labels := PassRunsOut(M.Step(s, M.StartPass(c)), c);
    assert ([M.StartPass(c)] + labels)[1..] == labels;
  }
}
