/** The Redis cache over a user's stored token version, operations one after another, Redis failing at will. */
module TokenVersions {
  /** What Redis holds under a user's key. Garbled stands for text that is no integer. */
  datatype Entry = Absent | Cached(version: int) | Garbled

  /**
   * A Redis call that changes data: it may take effect and still raise, but one that neither raises nor
   * acts is ruled out.
   */
  datatype Call = Call(effect: bool, error: bool) {
    predicate Valid() { effect || error }
  }

  datatype Store = Store(stored: int, entry: Entry)

  /** A lookup is served the stored version, or falls back to the database. */
  predicate Coherent(s: Store) {
    s.entry.Cached? ==> s.entry.version == s.stored
  }

  predicate NotAhead(s: Store) {
    s.entry.Cached? ==> s.entry.version <= s.stored
  }

  function Deleted(e: Entry, c: Call): Entry {
    if c.effect then Absent else e
  }

  function Set(e: Entry, v: int, c: Call): Entry {
    if c.effect then Cached(v) else e
  }

  /** Delete, increment, set; delete again when the set raised. */
  function Bump(s: Store, del: Call, set_: Call, fallback: Call): Store {
    var v := s.stored + 1;
    var e := Set(Deleted(s.entry, del), v, set_);
    Store(v, if set_.error then Deleted(e, fallback) else e)
  }

  function Lookup(s: Store, getFails: bool, set_: Call): (Store, int) {
    if !getFails && s.entry.Cached? then (s, s.entry.version)
    else (s.(entry := Set(s.entry, s.stored, set_)), s.stored)
  }

  /**
   * A bump leaves the cache coherent exactly when one of its Redis calls takes effect or there was nothing
   * to go stale.
   */
  lemma BumpIsCoherentIff(s: Store, del: Call, set_: Call, fallback: Call)
    requires NotAhead(s) && del.Valid() && set_.Valid() && fallback.Valid()
    ensures Coherent(Bump(s, del, set_, fallback)) <==>
      del.effect || set_.effect || fallback.effect || !s.entry.Cached?
    ensures NotAhead(Bump(s, del, set_, fallback))
  {
  }

  /** What a bump leaves cached: nothing after a fallback, else the new version, else nothing, else what was there. */
  lemma BumpLeaves(s: Store, del: Call, set_: Call, fallback: Call)
    ensures var t := Bump(s, del, set_, fallback);
      && t.stored == s.stored + 1
      && (set_.error && fallback.effect ==> t.entry == Absent)
      && (!(set_.error && fallback.effect) && set_.effect ==> t.entry == Cached(s.stored + 1))
      && (!(set_.error && fallback.effect) && !set_.effect && del.effect ==> t.entry == Absent)
      && (!(set_.error && fallback.effect) && !set_.effect && !del.effect ==> t.entry == s.entry)
  {
  }

  /**
   * A lookup that reaches a cached version answers it and writes nothing; any other answers the stored
   * one and caches it.
   */
  lemma LookupLeaves(s: Store, getFails: bool, restore: Call)
    ensures var (t, answer) := Lookup(s, getFails, restore);
      && t.stored == s.stored
      && (!getFails && s.entry.Cached? ==> answer == s.entry.version && t.entry == s.entry)
      && (getFails || !s.entry.Cached? ==>
            answer == s.stored && t.entry == if restore.effect then Cached(s.stored) else s.entry)
  {
  }

  datatype Op =
    | DoBump(del: Call, set_: Call, fallback: Call)
    | DoLookup(getFails: bool, restore: Call)
    | Evict

  predicate ValidOp(op: Op) {
    match op
    case DoBump(del, set_, fallback) => del.Valid() && set_.Valid() && fallback.Valid()
    case DoLookup(_, restore) => restore.Valid()
    case Evict => true
  }

  /** At least one Redis call of a bump takes effect. */
  predicate Effective(op: Op) {
    op.DoBump? ==> op.del.effect || op.set_.effect || op.fallback.effect
  }

  function Apply(s: Store, op: Op): Store {
    match op
    case DoBump(del, set_, fallback) => Bump(s, del, set_, fallback)
    case DoLookup(getFails, restore) => Lookup(s, getFails, restore).0
    case Evict => s.(entry := Absent)
  }

  function After(s: Store, ops: seq<Op>): Store {
    if ops == [] then s else Apply(After(s, ops[..|ops| - 1]), ops[|ops| - 1])
  }

  function Bumps(ops: seq<Op>): nat {
    if ops == [] then 0 else Bumps(ops[..|ops| - 1]) + if ops[|ops| - 1].DoBump? then 1 else 0
  }

  lemma {:induction false} NeverAhead(s: Store, ops: seq<Op>)
    requires NotAhead(s)
    ensures NotAhead(After(s, ops)) && After(s, ops).stored == s.stored + Bumps(ops)
  {
    if ops != [] {
      NeverAhead(s, ops[..|ops| - 1]);
    }
  }

  /**
   * With an effective Redis call in every bump, the cache is coherent after every operation and every
   * lookup answers the stored version, that is the first one plus the number of bumps, whatever else fails.
   */
  lemma {:induction false} EffectiveBumpsKeepLookupsExact(s: Store, ops: seq<Op>, getFails: bool, restore: Call)
    requires Coherent(s)
    requires forall k :: 0 <= k < |ops| ==> ValidOp(ops[k]) && Effective(ops[k])
    ensures Coherent(After(s, ops))
    ensures Lookup(After(s, ops), getFails, restore).1 == After(s, ops).stored == s.stored + Bumps(ops)
  {
    if ops != [] {
      EffectiveBumpsKeepLookupsExact(s, ops[..|ops| - 1], getFails, restore);
    }
  }

  /** Otherwise a cached version outlives a bump, and lookups that reach Redis keep answering it. */
  lemma {:induction false} IneffectiveBumpGoesStale(s: Store, op: Op, lookups: seq<Op>)
    requires s.entry == Cached(s.stored) && op.DoBump? && ValidOp(op) && !Effective(op)
    requires forall k :: 0 <= k < |lookups| ==> lookups[k].DoLookup? && !lookups[k].getFails
    ensures After(Apply(s, op), lookups).entry == Cached(s.stored)
    ensures var t := After(Apply(s, op), lookups);
      forall restore :: Lookup(t, false, restore).1 == s.stored < t.stored
  {
    if lookups != [] {
      IneffectiveBumpGoesStale(s, op, lookups[..|lookups| - 1]);
    }
  }
}
