/** A collection pass, interleaved with everything else, misses nothing: an item that was
    expired when the pass began and that nobody else touched is gone when it ends. */
module CollectorPass {
  import opened Options
  import A = AtomicStore
  import opened AtomicStore
  import opened M = StoreMachine

  ghost predicate Published(s: M.State) {
    forall ns :: ns in s.scopes ==> s.scopes[ns] in s.objects
  }

  ghost function Held(s: M.State, ns: Name, key: Name): Option<Item>
    requires Published(s)
  {
    A.Lookup(Database(s), ns, key)
  }

  /** The pass still has the item on its way: its namespace or its key is yet to be visited,
      or its mapping has been read and is yet to be tested. */
  ghost predicate Due(p: Pass, ns: Name, key: Name, item: Item) {
    || ns in p.todo
    || (p.Scanning? && p.ns == ns && (key in p.pending || (key in p.fetched && p.fetched[key] == item)))
  }

  /** Either the item is gone, or pass `c` is running, began after the expiry, and has it due. */
  ghost predicate Hunted(s: M.State, c: ThreadId, ns: Name, key: Name, item: Item)
    requires Published(s)
  {
    || Held(s, ns, key) == None
    || (Held(s, ns, key) == Some(item) && c in s.passes && item.purge < s.passes[c].now &&
        Due(s.passes[c], ns, key, item))
  }

  predicate IsStepOf(l: Label, c: ThreadId) {
    IsPassStep(l) && l.c == c
  }

  /** Nobody but pass `c` changes what the key holds. */
  ghost predicate LeftAlone(s: M.State, labels: seq<Label>, c: ThreadId, ns: Name, key: Name)
    requires M.Inv(s) && Runs(s, labels)
    decreases labels
  {
    labels == [] || (
      M.StepKeepsInv(s, labels[0]);
      var s' := M.Step(s, labels[0]);
      && (IsStepOf(labels[0], c) || Held(s', ns, key) == Held(s, ns, key))
      && LeftAlone(s', labels[1..], c, ns, key))
  }

  lemma OthersKeepThePass(s: M.State, l: Label, c: ThreadId)
    requires M.Enabled(s, l) && !IsStepOf(l, c)
    ensures c in M.Step(s, l).passes <==> c in s.passes
    ensures c in s.passes ==> M.Step(s, l).passes[c] == s.passes[c]
  {
    hide Touch;
  }

  lemma PassKeepsScopes(s: M.State, l: Label, ns: Name)
    requires M.Inv(s) && M.Enabled(s, l) && IsPassStep(l)
    ensures M.Inv(M.Step(s, l)) && M.Step(s, l).scopes == s.scopes
    ensures ns in s.scopes ==> Database(s)[ns] == s.objects[s.scopes[ns]]
    ensures ns in s.scopes ==> Database(M.Step(s, l))[ns] == M.Step(s, l).objects[s.scopes[ns]]
    ensures l.c in s.passes ==> PassSound(s, s.passes[l.c])
  {
    M.StepKeepsInv(s, l);
  }

  lemma WalkKeepsHunt(s: M.State, l: Label, c: ThreadId, ns: Name, key: Name, item: Item)
    requires M.Inv(s) && M.Enabled(s, l) && IsStepOf(l, c) && !l.TestAndDelete?
    requires Hunted(s, c, ns, key, item)
    ensures M.Inv(M.Step(s, l)) && Hunted(M.Step(s, l), c, ns, key, item)
  {
    PassKeepsScopes(s, l, ns);
    assert M.Step(s, l).objects == s.objects;
    assert Database(M.Step(s, l)) == Database(s);
    hide M.Inv, Database;
  }

  lemma DeleteKeepsHunt(s: M.State, c: ThreadId, k: Name, ns: Name, key: Name, item: Item)
    requires M.Inv(s) && M.Enabled(s, TestAndDelete(c, k))
    requires Hunted(s, c, ns, key, item)
    ensures M.Inv(M.Step(s, TestAndDelete(c, k))) && Hunted(M.Step(s, TestAndDelete(c, k)), c, ns, key, item)
  {
    var l := TestAndDelete(c, k);
    PassStepContents(s, l);
    assert M.Step(s, l).passes == s.passes[c := s.passes[c].(fetched := s.passes[c].fetched - {k})];
    hide M.Inv, Database, M.Step, M.Enabled, PassSound;
  }

  lemma {:induction false} HuntGoesOn(s: M.State, labels: seq<Label>, c: ThreadId, ns: Name, key: Name, item: Item)
    requires M.Inv(s) && Runs(s, labels) && LeftAlone(s, labels, c, ns, key)
    requires Hunted(s, c, ns, key, item)
    ensures M.Inv(After(s, labels)) && Hunted(After(s, labels), c, ns, key, item)
    decreases labels
  {
    if labels != [] {
      var l := labels[0];
      M.StepKeepsInv(s, l);
      if l.TestAndDelete? && l.c == c {
        DeleteKeepsHunt(s, c, l.key, ns, key, item);
      } else if IsStepOf(l, c) {
        WalkKeepsHunt(s, l, c, ns, key, item);
      } else {
        OthersKeepThePass(s, l, c);
      }
      HuntGoesOn(M.Step(s, l), labels[1..], c, ns, key, item);
    }
  }

  /** A pass clears every key that held an expired item when it began, unless someone else
      touches the key meanwhile. */
  lemma PassClearsExpired(s: M.State, labels: seq<Label>, c: ThreadId, ns: Name, key: Name, item: Item)
    requires M.Inv(s) && M.Enabled(s, StartPass(c))
    requires Held(s, ns, key) == Some(item) && item.purge < s.clock
    requires Runs(M.Step(s, StartPass(c)), labels)
    requires M.Inv(M.Step(s, StartPass(c))) && LeftAlone(M.Step(s, StartPass(c)), labels, c, ns, key)
    requires c !in After(M.Step(s, StartPass(c)), labels).passes
    ensures M.Inv(After(M.Step(s, StartPass(c)), labels))
    ensures Held(After(M.Step(s, StartPass(c)), labels), ns, key) == None
  {
    HuntGoesOn(M.Step(s, StartPass(c)), labels, c, ns, key, item);
  }

  /** And it spares everything else: a step of a pass changes what a key holds only by
      deleting an item that expired before the pass began. */
  lemma PassSparesLive(s: M.State, l: Label, ns: Name, key: Name)
    requires M.Inv(s) && M.Enabled(s, l) && IsPassStep(l)
    ensures M.Inv(M.Step(s, l))
    ensures Held(M.Step(s, l), ns, key) != Held(s, ns, key) ==>
              && Held(s, ns, key).Some? && Held(M.Step(s, l), ns, key) == None
              && l.c in s.passes && Held(s, ns, key).value.purge < s.passes[l.c].now <= s.clock
  {
    PassStepContents(s, l);
    hide M.Inv, Database, M.Step, M.Enabled;
  }
}
