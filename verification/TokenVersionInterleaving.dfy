/** The token version cache with any number of lookups and bumps interleaved at every Redis and database call. */
module TokenVersionInterleaving {
  import opened TokenVersions

  type Pid = nat

  datatype Proc =
    | Getting
    | Fetching
    | Restoring(v: int)
    | Deleting
    | Incrementing
    | Caching(v: int)
    | Clearing(v: int, wasSet: bool)
    | Returned(v: int)
  {
    /** A version read or written by this process is on its way to the cache. */
    predicate CarriesWriteBack() { Restoring? || Caching? }

    /** A bump past its increment that has not yet replaced or removed what was cached. */
    predicate OwesCleanup() { Caching? || (Clearing? && !wasSet) }
  }

  datatype System = System(store: Store, procs: map<Pid, Proc>)

  datatype Label = StartLookup(p: Pid) | StartBump(p: Pid) | Act(p: Pid, call: Call) | Evicted

  predicate Enabled(s: System, l: Label) {
    match l
    case StartLookup(p) => p !in s.procs
    case StartBump(p) => p !in s.procs
    case Act(p, call) => p in s.procs && !s.procs[p].Returned? && call.Valid()
    case Evicted => true
  }

  /** One call of one process; `call` says how Redis treats it. */
  function ActStep(store: Store, proc: Proc, call: Call): (Store, Proc) {
    match proc
    case Getting => (store, if !call.error && store.entry.Cached? then Returned(store.entry.version) else Fetching)
    case Fetching => (store, Restoring(store.stored))
    case Restoring(v) => (store.(entry := Set(store.entry, v, call)), Returned(v))
    case Deleting => (store.(entry := Deleted(store.entry, call)), Incrementing)
    case Incrementing => (store.(stored := store.stored + 1), Caching(store.stored + 1))
    case Caching(v) =>
      (store.(entry := Set(store.entry, v, call)), if call.error then Clearing(v, call.effect) else Returned(v))
    case Clearing(v, _) => (store.(entry := Deleted(store.entry, call)), Returned(v))
    case Returned(_) => (store, proc)
  }

  function Next(s: System, l: Label): System
    requires Enabled(s, l)
  {
    match l
    case StartLookup(p) => s.(procs := s.procs[p := Getting])
    case StartBump(p) => s.(procs := s.procs[p := Deleting])
    case Act(p, call) =>
      var (store, proc) := ActStep(s.store, s.procs[p], call);
      System(store, s.procs[p := proc])
    case Evicted => s.(store := s.store.(entry := Absent))
  }

  predicate Runs(s: System, ls: seq<Label>)
    decreases |ls|
  {
    ls == [] || (Enabled(s, ls[0]) && Runs(Next(s, ls[0]), ls[1..]))
  }

  function End(s: System, ls: seq<Label>): System
    requires Runs(s, ls)
    decreases |ls|
  {
    if ls == [] then s else End(Next(s, ls[0]), ls[1..])
  }

  // ---------- nothing is ever ahead of the database ----------

  function Carried(proc: Proc, otherwise: int): int {
    match proc
    case Restoring(v) => v
    case Caching(v) => v
    case Clearing(v, _) => v
    case Returned(v) => v
    case _ => otherwise
  }

  predicate Bounded(s: System) {
    && NotAhead(s.store)
    && forall p :: p in s.procs ==> Carried(s.procs[p], s.store.stored) <= s.store.stored
  }

  lemma StepIsBounded(s: System, l: Label)
    requires Bounded(s) && Enabled(s, l)
    ensures Bounded(Next(s, l)) && s.store.stored <= Next(s, l).store.stored
  {
    var t := Next(s, l);
    forall p | p in t.procs
      ensures Carried(t.procs[p], t.store.stored) <= t.store.stored
    {
      assert p in s.procs || l == StartLookup(p) || l == StartBump(p);
    }
  }

  /**
   * Whatever fails and however calls interleave, neither the cache nor a write-back under way nor an
   * answer given exceeds the stored version.
   */
  lemma {:induction false} NothingIsAhead(s: System, ls: seq<Label>)
    requires Bounded(s) && Runs(s, ls)
    ensures Bounded(End(s, ls)) && s.store.stored <= End(s, ls).store.stored
    decreases |ls|
  {
    if ls != [] {
      StepIsBounded(s, ls[0]);
      NothingIsAhead(Next(s, ls[0]), ls[1..]);
    }
  }

  // ---------- coherence at rest ----------

  /** A step that increments the stored version while another process carries a write-back. */
  ghost predicate Crosses(s: System, l: Label)
    requires Enabled(s, l)
  {
    && l.Act? && s.procs[l.p].Incrementing?
    && exists q :: q in s.procs && q != l.p && s.procs[q].CarriesWriteBack()
  }

  /** A fallback delete that does nothing, over a stale cache that no other bump will replace or remove. */
  ghost predicate Abandons(s: System, l: Label)
    requires Enabled(s, l)
  {
    && l.Act? && s.procs[l.p].Clearing? && !s.procs[l.p].wasSet && !l.call.effect
    && !Coherent(s.store)
    && forall q :: q in s.procs && q != l.p ==> !s.procs[q].OwesCleanup()
  }

  /** No step of the run crosses a write-back or abandons a stale cache. */
  ghost predicate Orderly(s: System, ls: seq<Label>)
    requires Runs(s, ls)
    decreases |ls|
  {
    ls == [] || (!Crosses(s, ls[0]) && !Abandons(s, ls[0]) && Orderly(Next(s, ls[0]), ls[1..]))
  }

  /** Write-backs carry the stored version, and a stale cache has someone about to clean it up. */
  ghost predicate Tidy(s: System) {
    && (forall p :: p in s.procs && s.procs[p].CarriesWriteBack() ==> s.procs[p].v == s.store.stored)
    && (Coherent(s.store) || exists p :: p in s.procs && s.procs[p].OwesCleanup())
  }

  /** No bump is left past its increment. */
  ghost predicate AtRest(s: System) {
    forall p :: p in s.procs ==> !s.procs[p].OwesCleanup()
  }

  lemma OrderlyStepKeepsTidy(s: System, l: Label)
    requires Tidy(s) && Enabled(s, l) && !Crosses(s, l) && !Abandons(s, l)
    ensures Tidy(Next(s, l))
  {
    var t := Next(s, l);
    forall p | p in t.procs && t.procs[p].CarriesWriteBack()
      ensures t.procs[p].v == t.store.stored
    {
      assert p in s.procs;
    }
    if !Coherent(t.store) && !(l.Act? && t.procs[l.p].OwesCleanup()) {
      assert !Coherent(s.store);
      var q :| q in s.procs && s.procs[q].OwesCleanup() && (l.Act? ==> q != l.p);
      assert t.procs[q].OwesCleanup();
    }
  }

  /** A fallback delete that does nothing leaves the store as it was and its bump returns. */
  lemma FailedCleanupStays(s: System, p: Pid, call: Call)
    requires Enabled(s, Act(p, call)) && s.procs[p].Clearing? && !call.effect
    ensures Next(s, Act(p, call)) == System(s.store, s.procs[p := Returned(s.procs[p].v)])
  {
  }

  lemma DisorderlyStepBreaksTidy(s: System, l: Label)
    requires Tidy(s) && Enabled(s, l) && (Crosses(s, l) || Abandons(s, l))
    ensures !Tidy(Next(s, l))
  {
    var t := Next(s, l);
    if Crosses(s, l) {
      var q :| q in s.procs && q != l.p && s.procs[q].CarriesWriteBack();
      assert t.procs[q] == s.procs[q];
    } else {
      FailedCleanupStays(s, l.p, l.call);
      forall q | q in t.procs
        ensures !t.procs[q].OwesCleanup()
      {
        assert q == l.p || t.procs[q] == s.procs[q];
      }
    }
  }

  /**
   * Any number of concurrent lookups and bumps: when no bump is left past its increment, the cache is
   * absent or equal to the stored version, unless some write-back was carried across another bump's
   * increment. Redis may fail, as long as nobody gives up on a stale cache.
   */
  lemma {:induction false} CoherentAtRest(s: System, ls: seq<Label>)
    requires Tidy(s) && Runs(s, ls) && Orderly(s, ls)
    ensures Tidy(End(s, ls))
    ensures AtRest(End(s, ls)) ==> Coherent(End(s, ls).store)
    decreases |ls|
  {
    if ls != [] {
      OrderlyStepKeepsTidy(s, ls[0]);
      CoherentAtRest(Next(s, ls[0]), ls[1..]);
    }
  }

  // ---------- the condition is exact ----------

  /** However the run goes on in order, it is coherent whenever it comes to rest. */
  ghost predicate Safe(s: System) {
    forall ls :: Runs(s, ls) && Orderly(s, ls) && AtRest(End(s, ls)) ==> Coherent(End(s, ls).store)
  }

  /** Every Redis call of the run works. */
  predicate FailureFree(ls: seq<Label>) {
    forall k :: 0 <= k < |ls| && ls[k].Act? ==> ls[k].call == Call(true, false)
  }

  ghost function Owing(s: System): set<Pid> {
    set o | o in s.procs && s.procs[o].OwesCleanup()
  }

  lemma OneOwesLess(s: System, t: System, q: Pid)
    requires q in s.procs && s.procs[q].OwesCleanup()
    requires t.procs.Keys == s.procs.Keys && !t.procs[q].OwesCleanup()
    requires forall o :: o in s.procs && o != q ==> t.procs[o] == s.procs[o]
    ensures |Owing(t)| < |Owing(s)|
  {
    assert Owing(s) == Owing(t) + {q};
  }

  /** A stale write-back can be the last word: let everyone else finish first, with no failure at all. */
  lemma {:induction false} StaleEnding(s: System, p: Pid) returns (ls: seq<Label>)
    requires p in s.procs && s.procs[p].CarriesWriteBack() && s.procs[p].v != s.store.stored
    ensures Runs(s, ls) && Orderly(s, ls) && FailureFree(ls)
    ensures AtRest(End(s, ls)) && !Coherent(End(s, ls).store) && End(s, ls).store.stored == s.store.stored
    decreases |Owing(s)|
  {
    var ok := Call(true, false);
    if q :| q in s.procs && q != p && s.procs[q].OwesCleanup() {
      var t := Next(s, Act(q, ok));
      OneOwesLess(s, t, q);
      ls := StaleEnding(t, p);
      ls := Prepend(t, ls, s, Act(q, ok));
    } else {
      var t := Next(s, Act(p, ok));
      ls := Prepend(t, [], s, Act(p, ok));
    }
    assert ls[0] == Act(ls[0].p, ok) && !Crosses(s, ls[0]) && !Abandons(s, ls[0]);
  }

  /** The invariant of CoherentAtRest is no stronger than what it is for. */
  lemma TidyIffSafe(s: System)
    ensures Tidy(s) <==> Safe(s)
  {
    if Tidy(s) {
      forall ls | Runs(s, ls) && Orderly(s, ls) && AtRest(End(s, ls))
        ensures Coherent(End(s, ls).store)
      {
        CoherentAtRest(s, ls);
      }
    } else if p :| p in s.procs && s.procs[p].CarriesWriteBack() && s.procs[p].v != s.store.stored {
      var ls := StaleEnding(s, p);
    } else {
      assert Runs(s, []) && Orderly(s, []) && AtRest(End(s, []));
    }
  }

  /** A step leaves every continuation safe exactly when it neither crosses a write-back nor abandons a stale cache. */
  lemma StepIsSafeIff(s: System, l: Label)
    requires Tidy(s) && Enabled(s, l)
    ensures Safe(Next(s, l)) <==> !Crosses(s, l) && !Abandons(s, l)
  {
    TidyIffSafe(Next(s, l));
    if Crosses(s, l) || Abandons(s, l) {
      DisorderlyStepBreaksTidy(s, l);
    } else {
      OrderlyStepKeepsTidy(s, l);
    }
  }

  ghost predicate SafeThroughout(s: System, ls: seq<Label>)
    requires Runs(s, ls)
    decreases |ls|
  {
    ls == [] || (Safe(Next(s, ls[0])) && SafeThroughout(Next(s, ls[0]), ls[1..]))
  }

  /** Over whole runs: every state on the way is safe exactly when no step crosses or abandons. */
  lemma {:induction false} RunIsSafeIff(s: System, ls: seq<Label>)
    requires Tidy(s) && Runs(s, ls)
    ensures SafeThroughout(s, ls) <==> Orderly(s, ls)
    decreases |ls|
  {
    if ls != [] {
      StepIsSafeIff(s, ls[0]);
      if Safe(Next(s, ls[0])) {
        TidyIffSafe(Next(s, ls[0]));
        RunIsSafeIff(Next(s, ls[0]), ls[1..]);
      }
    }
  }

  /**
   * From every state with a bump about to increment while another process carries a write-back: without
   * any failure, and touching nobody else, both return and an older version stays cached.
   */
  lemma CrossingGoesStale(s: System, p: Pid, q: Pid) returns (ls: seq<Label>)
    requires Bounded(s) && p != q && p in s.procs && q in s.procs
    requires s.procs[p].Incrementing? && s.procs[q].CarriesWriteBack()
    ensures var ok := Call(true, false); ls == [Act(p, ok), Act(p, ok), Act(q, ok)]
    ensures Runs(s, ls) && Crosses(s, ls[0])
    ensures var v := s.procs[q].v; var stored := s.store.stored + 1;
      && v < stored
      && End(s, ls) == System(Store(stored, Cached(v)), s.procs[p := Returned(stored)][q := Returned(v)])
  {
    var ok := Call(true, false);
    var s1 := Next(s, Act(p, ok));
    var s2 := Next(s1, Act(p, ok));
    var s3 := Next(s2, Act(q, ok));
    assert Carried(s.procs[q], s.store.stored) == s.procs[q].v;
    assert s2.procs == s.procs[p := Returned(s.store.stored + 1)];
    ls := Prepend(s3, [], s2, Act(q, ok));
    ls := Prepend(s2, ls, s1, Act(p, ok));
    ls := Prepend(s1, ls, s, Act(p, ok));
  }

  /**
   * The exception is real: with no failure at all, a lookup that read version 1 before a bump and
   * writes it back after the bump's own set leaves 1 cached over a stored 2, everyone having returned.
   */
  lemma CrossedWriteBackStays() returns (s: System, ls: seq<Label>)
    ensures s == System(Store(1, Absent), map[]) && Runs(s, ls)
    ensures FailureFree(ls)
    ensures forall p :: p in End(s, ls).procs ==> End(s, ls).procs[p].Returned?
    ensures End(s, ls).store == Store(2, Cached(1))
  {
    var ok := Call(true, false);
    s := System(Store(1, Absent), map[]);
    var s1 := Next(s, StartLookup(0));
    var s2 := Next(s1, Act(0, ok));
    var s3 := Next(s2, Act(0, ok));
    var s4 := Next(s3, StartBump(1));
    var s5 := Next(s4, Act(1, ok));
    var l5 := CrossingGoesStale(s5, 1, 0);
    var l4 := Prepend(s5, l5, s4, Act(1, ok));
    var l3 := Prepend(s4, l4, s3, StartBump(1));
    var l2 := Prepend(s3, l3, s2, Act(0, ok));
    var l1 := Prepend(s2, l2, s1, Act(0, ok));
    ls := Prepend(s1, l1, s, StartLookup(0));
  }

  lemma Prepend(t: System, rest: seq<Label>, s: System, l: Label) returns (ls: seq<Label>)
    requires Enabled(s, l) && Next(s, l) == t && Runs(t, rest)
    ensures ls == [l] + rest && Runs(s, ls) && End(s, ls) == End(t, rest)
  {
    ls := [l] + rest;
    assert ls[1..] == rest;
  }

  // ---------- operations that nothing interrupts ----------

  predicate StepsOf(ls: seq<Label>, p: Pid) {
    forall k :: 0 <= k < |ls| ==> ls[k] == StartBump(p) || ls[k] == StartLookup(p) || (ls[k].Act? && ls[k].p == p)
  }

  /** From its increment on, a bump caches the new version, or clears it again. */
  lemma CachingAlone(s: System, p: Pid, set_: Call, fallback: Call) returns (ls: seq<Label>)
    requires p in s.procs && s.procs[p] == Caching(s.store.stored) && set_.Valid() && fallback.Valid()
    ensures Runs(s, ls) && StepsOf(ls, p)
    ensures var e := Set(s.store.entry, s.store.stored, set_);
      End(s, ls) == System(
        s.store.(entry := if set_.error then Deleted(e, fallback) else e), s.procs[p := Returned(s.store.stored)])
  {
    var s1 := Next(s, Act(p, set_));
    ls := [];
    if set_.error {
      var s2 := Next(s1, Act(p, fallback));
      ls := Prepend(s2, [], s1, Act(p, fallback));
      assert s2.procs == s.procs[p := Returned(s.store.stored)];
    }
    ls := Prepend(s1, ls, s, Act(p, set_));
  }

  /** The calls of one bump, run without interference, do what the sequential bump does. */
  lemma BumpAlone(s: System, p: Pid, del: Call, set_: Call, fallback: Call) returns (ls: seq<Label>)
    requires p !in s.procs && del.Valid() && set_.Valid() && fallback.Valid()
    ensures Runs(s, ls) && StepsOf(ls, p)
    ensures End(s, ls) == System(Bump(s.store, del, set_, fallback), s.procs[p := Returned(s.store.stored + 1)])
  {
    var ok := Call(true, false);
    var s1 := Next(s, StartBump(p));
    var s2 := Next(s1, Act(p, del));
    var s3 := Next(s2, Act(p, ok));
    assert s3.procs == s.procs[p := Caching(s.store.stored + 1)];
    ls := CachingAlone(s3, p, set_, fallback);
    assert s3.procs[p := Returned(s.store.stored + 1)] == s.procs[p := Returned(s.store.stored + 1)];
    ls := Prepend(s3, ls, s2, Act(p, ok));
    ls := Prepend(s2, ls, s1, Act(p, del));
    ls := Prepend(s1, ls, s, StartBump(p));
  }

  /** Likewise for a lookup, which returns what the sequential lookup answers. */
  lemma LookupAlone(s: System, p: Pid, get: Call, restore: Call) returns (ls: seq<Label>)
    requires p !in s.procs && get.Valid() && restore.Valid()
    ensures Runs(s, ls) && StepsOf(ls, p)
    ensures var (store, answer) := Lookup(s.store, get.error, restore);
      End(s, ls) == System(store, s.procs[p := Returned(answer)])
  {
    var s1 := Next(s, StartLookup(p));
    var s2 := Next(s1, Act(p, get));
    var l2: seq<Label> := [];
    if s2.procs[p].Fetching? {
      var s3 := Next(s2, Act(p, Call(true, false)));
      var s4 := Next(s3, Act(p, restore));
      var l3 := Prepend(s4, [], s3, Act(p, restore));
      l2 := Prepend(s3, l3, s2, Act(p, Call(true, false)));
      assert s4.procs == s.procs[p := Returned(s.store.stored)];
    } else {
      assert s2.procs == s.procs[p := Returned(s.store.entry.version)];
    }
    var l1 := Prepend(s2, l2, s1, Act(p, get));
    ls := Prepend(s1, l1, s, StartLookup(p));
  }
}
