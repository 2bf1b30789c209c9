/** The captcha pool with generators and challenge creators interleaved at every database and Redis call. */
module CaptchaAllocation {
  import opened Options
  import opened Accounts
  import opened CaptchaTypes
  import H = CaptchaHandlers

  type Pid = nat

  datatype Proc =
    /** A generation job between two assets. */
    | Generating(templateId: TemplateId, difficulty: Difficulty)
    /** A generation job that has inserted an asset and not yet pushed it. */
    | Generated(templateId: TemplateId, difficulty: Difficulty, asset: AssetId)
    /** A creator about to pop. */
    | Asking(code: string, difficulty: Difficulty)
    | Popped(code: string, difficulty: Difficulty, asset: AssetId)
    /** A creator whose reservation succeeded. */
    | Holding(code: string, difficulty: Difficulty, asset: AssetId)

  /** A challenge together with what its creator was asked for. */
  datatype Issued = Issued(code: string, difficulty: Difficulty, asset: AssetId)

  datatype System = System(
    prefix: string,
    codes: map<TemplateId, string>,
    assets: map<AssetId, Asset>,
    pools: map<string, seq<AssetId>>,
    issued: seq<Issued>,
    procs: map<Pid, Proc>,
    clock: Millis)

  function Pool(s: System, key: string): seq<AssetId> {
    if key in s.pools then s.pools[key] else []
  }

  datatype Label =
    | Tick(to: Millis)
    | AddTemplate(templateId: TemplateId, code: string)
    | StartJob(p: Pid, templateId: TemplateId, difficulty: Difficulty)
    | StartCreate(p: Pid, code: string, difficulty: Difficulty)
    | Insert(p: Pid, asset: AssetId, expiresAt: Millis)
    | Push(p: Pid)
    | Pop(p: Pid)
    | TryReserve(p: Pid)
    | InsertChallenge(p: Pid)
    | Stop(p: Pid)
    | MarkUsedLater(asset: AssetId)

  predicate Enabled(s: System, l: Label) {
    match l
    case Tick(to) => s.clock <= to
    case AddTemplate(t, code) => t !in s.codes && code !in s.codes.Values
    case StartJob(p, t, _) => p !in s.procs && t in s.codes
    case StartCreate(p, _, _) => p !in s.procs
    case Insert(p, asset, _) =>
      p in s.procs && s.procs[p].Generating? && s.procs[p].templateId in s.codes && asset !in s.assets
    case Push(p) => p in s.procs && s.procs[p].Generated? && s.procs[p].templateId in s.codes
    case Pop(p) => p in s.procs && s.procs[p].Asking?
    case TryReserve(p) => p in s.procs && s.procs[p].Popped?
    case InsertChallenge(p) => p in s.procs && s.procs[p].Holding?
    case Stop(p) => p in s.procs
    case MarkUsedLater(asset) => asset in s.assets && s.assets[asset].status != Available
  }

  function Next(s: System, l: Label): System
    requires Enabled(s, l)
  {
    match l
    case Tick(to) => s.(clock := to)
    case AddTemplate(t, code) => s.(codes := s.codes[t := code])
    case StartJob(p, t, d) => s.(procs := s.procs[p := Generating(t, d)])
    case StartCreate(p, code, d) => s.(procs := s.procs[p := Asking(code, d)])
    case Insert(p, asset, expiresAt) =>
      var Generating(t, d) := s.procs[p];
      s.(assets := s.assets[asset := Asset(t, d, Available, expiresAt, 0)],
        procs := s.procs[p := Generated(t, d, asset)])
    case Push(p) =>
      var Generated(t, d, asset) := s.procs[p];
      var key := Key(s.prefix, s.codes[t], d);
      s.(pools := s.pools[key := [asset] + Pool(s, key)], procs := s.procs[p := Generating(t, d)])
    case Pop(p) =>
      var Asking(code, d) := s.procs[p];
      var key := Key(s.prefix, code, d);
      var pool := Pool(s, key);
      if pool == [] then s.(procs := s.procs - {p})
      else s.(pools := s.pools[key := pool[..|pool| - 1]], procs := s.procs[p := Popped(code, d, pool[|pool| - 1])])
    case TryReserve(p) =>
      var Popped(code, d, asset) := s.procs[p];
      if Reservable(s.assets, asset, s.clock) then
        s.(assets := Reserve(s.assets, asset), procs := s.procs[p := Holding(code, d, asset)])
      else s.(procs := s.procs[p := Asking(code, d)])
    case InsertChallenge(p) =>
      var Holding(code, d, asset) := s.procs[p];
      s.(issued := s.issued + [Issued(code, d, asset)], procs := s.procs - {p})
    case Stop(p) => s.(procs := s.procs - {p})
    case MarkUsedLater(asset) => s.(assets := MarkUsed(s.assets, asset))
  }

  predicate Runs(s: System, ls: seq<Label>)
    decreases |ls|
  {
    ls == [] || (Enabled(s, ls[0]) && Runs(Next(s, ls[0]), ls[1..]))
  }

  function End(s: System, ls: seq<Label>): System
    requires Runs(s, ls)
    decreases |ls|
  {
    if ls == [] then s else End(Next(s, ls[0]), ls[1..])
  }

  // ---------- where each asset is ----------

  datatype Place = WithProc(p: Pid) | InPool(key: string) | Backing(challenge: nat) | Lost

  /** The asset is what was asked for. */
  predicate Fits(s: System, asset: AssetId, code: string, d: Difficulty) {
    && asset in s.assets && s.assets[asset].templateId in s.codes
    && s.codes[s.assets[asset].templateId] == code && s.assets[asset].difficulty == d
  }

  predicate ProcAgrees(s: System, at: map<AssetId, Place>, p: Pid)
    requires p in s.procs
  {
    match s.procs[p]
    case Generating(t, _) => t in s.codes
    case Generated(t, d, asset) =>
      asset in at && at[asset] == WithProc(p) && t in s.codes && Fits(s, asset, s.codes[t], d)
    case Asking(_, _) => true
    case Popped(code, d, asset) => asset in at && at[asset] == WithProc(p) && Fits(s, asset, code, d)
    case Holding(code, d, asset) =>
      asset in at && at[asset] == WithProc(p) && Fits(s, asset, code, d) && s.assets[asset].status != Available
  }

  /** The key of the pool an asset belongs in. */
  function KeyOf(s: System, asset: AssetId): Option<string> {
    if asset in s.assets && s.assets[asset].templateId in s.codes then
      Some(Key(s.prefix, s.codes[s.assets[asset].templateId], s.assets[asset].difficulty))
    else None
  }

  predicate PoolAgrees(s: System, at: map<AssetId, Place>, key: string)
    requires key in s.pools
  {
    var pool := s.pools[key];
    && (forall i :: 0 <= i < |pool| ==> pool[i] in at && at[pool[i]] == InPool(key))
    && (forall i :: 0 <= i < |pool| ==> KeyOf(s, pool[i]) == Some(key))
    && (forall i, j :: 0 <= i < j < |pool| ==> pool[i] != pool[j])
  }

  predicate IssuedAgrees(s: System, at: map<AssetId, Place>, c: nat)
    requires c < |s.issued|
  {
    var i := s.issued[c];
    && i.asset in at && at[i.asset] == Backing(c)
    && Fits(s, i.asset, i.code, i.difficulty) && s.assets[i.asset].status != Available
  }

  /** Every occurrence of an asset anywhere is at its one place. */
  predicate Agrees(s: System, at: map<AssetId, Place>) {
    && at.Keys == s.assets.Keys
    && (forall p :: p in s.procs ==> ProcAgrees(s, at, p))
    && (forall key :: key in s.pools ==> PoolAgrees(s, at, key))
    && (forall c :: 0 <= c < |s.issued| ==> IssuedAgrees(s, at, c))
  }

  /** Where a step moves an asset to. */
  function Moved(s: System, at: map<AssetId, Place>, l: Label): map<AssetId, Place>
    requires Enabled(s, l)
  {
    match l
    case Insert(p, asset, _) => at[asset := WithProc(p)]
    case Push(p) => at[s.procs[p].asset := InPool(Key(s.prefix, s.codes[s.procs[p].templateId], s.procs[p].difficulty))]
    case Pop(p) =>
      var pool := Pool(s, Key(s.prefix, s.procs[p].code, s.procs[p].difficulty));
      if pool == [] then at else at[pool[|pool| - 1] := WithProc(p)]
    case TryReserve(p) => if Reservable(s.assets, s.procs[p].asset, s.clock) then at else at[s.procs[p].asset := Lost]
    case InsertChallenge(p) => at[s.procs[p].asset := Backing(|s.issued|)]
    case Stop(p) => if s.procs[p].Generating? || s.procs[p].Asking? then at else at[s.procs[p].asset := Lost]
    case _ => at
  }

  function Actor(l: Label): Option<Pid> {
    match l
    case Tick(_) => None
    case AddTemplate(_, _) => None
    case MarkUsedLater(_) => None
    case _ => Some(l.p)
  }

  /** What another process holds is not moved. */
  lemma HeldStays(s: System, at: map<AssetId, Place>, l: Label, p: Pid, a: AssetId)
    requires Agrees(s, at) && Enabled(s, l) && Actor(l) != Some(p)
    requires a in at && at[a] == WithProc(p)
    ensures a in Moved(s, at, l) && Moved(s, at, l)[a] == WithProc(p)
  {
    if l.Push? || l.TryReserve? || l.InsertChallenge? || l.Stop? {
      assert ProcAgrees(s, at, l.p);
    } else if l.Pop? {
      var key := Key(s.prefix, s.procs[l.p].code, s.procs[l.p].difficulty);
      assert key in s.pools ==> PoolAgrees(s, at, key);
    }
  }

  lemma FitsStays(s: System, l: Label, a: AssetId, code: string, d: Difficulty)
    requires Enabled(s, l) && Fits(s, a, code, d)
    ensures Fits(Next(s, l), a, code, d)
    ensures s.assets[a].status != Available ==> Next(s, l).assets[a].status != Available
  {
  }

  lemma BystanderAgrees(s: System, at: map<AssetId, Place>, l: Label, p: Pid)
    requires Agrees(s, at) && Enabled(s, l)
    requires p in s.procs && Actor(l) != Some(p)
    ensures p in Next(s, l).procs && Next(s, l).procs[p] == s.procs[p]
    ensures ProcAgrees(Next(s, l), Moved(s, at, l), p)
  {
    assert ProcAgrees(s, at, p);
    match s.procs[p]
    case Generating(_, _) =>
    case Asking(_, _) =>
    case Generated(t, d, a) =>
      HeldStays(s, at, l, p, a);
      FitsStays(s, l, a, s.codes[t], d);
    case Popped(code, d, a) =>
      HeldStays(s, at, l, p, a);
      FitsStays(s, l, a, code, d);
    case Holding(code, d, a) =>
      HeldStays(s, at, l, p, a);
      FitsStays(s, l, a, code, d);
  }

  lemma PopperAgrees(s: System, at: map<AssetId, Place>, l: Label)
    requires Agrees(s, at) && Enabled(s, l) && l.Pop? && l.p in Next(s, l).procs
    ensures ProcAgrees(Next(s, l), Moved(s, at, l), l.p)
  {
    var Asking(code, d) := s.procs[l.p];
    var key := Key(s.prefix, code, d);
    var asset := Next(s, l).procs[l.p].asset;
    assert PoolAgrees(s, at, key);
    KeyIsInjective(s.prefix, code, d, s.codes[s.assets[asset].templateId], s.assets[asset].difficulty);
  }

  lemma MovedProcs(s: System, at: map<AssetId, Place>, l: Label)
    requires Agrees(s, at) && Enabled(s, l)
    ensures forall p :: p in Next(s, l).procs ==> ProcAgrees(Next(s, l), Moved(s, at, l), p)
  {
    var t := Next(s, l);
    forall p | p in t.procs
      ensures ProcAgrees(t, Moved(s, at, l), p)
    {
      if Actor(l) != Some(p) {
        BystanderAgrees(s, at, l, p);
      } else if l.Pop? {
        PopperAgrees(s, at, l);
      } else if p in s.procs {
        assert ProcAgrees(s, at, p);
      }
    }
  }

  lemma KeysStay(s: System, l: Label, asset: AssetId)
    requires Enabled(s, l) && asset in s.assets && KeyOf(s, asset).Some?
    ensures KeyOf(Next(s, l), asset) == KeyOf(s, asset)
  {
  }

  /** Pools that the step does not touch. */
  lemma OtherPoolAgrees(s: System, at: map<AssetId, Place>, l: Label, key: string)
    requires Agrees(s, at) && Enabled(s, l)
    requires key in s.pools && key in Next(s, l).pools && Next(s, l).pools[key] == s.pools[key]
    requires forall a :: a in at && at[a] == InPool(key) ==> a in Moved(s, at, l) && Moved(s, at, l)[a] == InPool(key)
    ensures PoolAgrees(Next(s, l), Moved(s, at, l), key)
  {
    assert PoolAgrees(s, at, key);
    var pool := s.pools[key];
    forall i | 0 <= i < |pool|
      ensures KeyOf(Next(s, l), pool[i]) == Some(key)
    {
      KeysStay(s, l, pool[i]);
    }
  }

  lemma PushedPoolAgrees(s: System, at: map<AssetId, Place>, l: Label, key: string)
    requires Agrees(s, at) && Enabled(s, l) && l.Push?
    requires key == Key(s.prefix, s.codes[s.procs[l.p].templateId], s.procs[l.p].difficulty)
    ensures PoolAgrees(Next(s, l), Moved(s, at, l), key)
  {
    assert ProcAgrees(s, at, l.p);
    var pool := Pool(s, key);
    assert key in s.pools ==> PoolAgrees(s, at, key);
    assert forall i :: 0 <= i < |pool| ==> at[pool[i]] == InPool(key);
  }

  lemma PoppedPoolAgrees(s: System, at: map<AssetId, Place>, l: Label, key: string)
    requires Agrees(s, at) && Enabled(s, l) && l.Pop? && key in s.pools && s.pools[key] != []
    requires key == Key(s.prefix, s.procs[l.p].code, s.procs[l.p].difficulty)
    ensures PoolAgrees(Next(s, l), Moved(s, at, l), key)
  {
    assert PoolAgrees(s, at, key);
    var pool := s.pools[key];
    assert forall i :: 0 <= i < |pool| - 1 ==> pool[i] != pool[|pool| - 1];
  }

  lemma MovedPools(s: System, at: map<AssetId, Place>, l: Label)
    requires Agrees(s, at) && Enabled(s, l)
    ensures forall key :: key in Next(s, l).pools ==> PoolAgrees(Next(s, l), Moved(s, at, l), key)
  {
    var t := Next(s, l);
    forall key | key in t.pools
      ensures PoolAgrees(t, Moved(s, at, l), key)
    {
      if l.Push? && key == Key(s.prefix, s.codes[s.procs[l.p].templateId], s.procs[l.p].difficulty) {
        PushedPoolAgrees(s, at, l, key);
      } else if l.Pop? && key == Key(s.prefix, s.procs[l.p].code, s.procs[l.p].difficulty) && Pool(s, key) != [] {
        PoppedPoolAgrees(s, at, l, key);
      } else {
        MovedElsewhere(s, at, l, key);
        OtherPoolAgrees(s, at, l, key);
      }
    }
  }

  lemma MovedElsewhere(s: System, at: map<AssetId, Place>, l: Label, key: string)
    requires Agrees(s, at) && Enabled(s, l) && key in s.pools
    requires l.Pop? ==> key != Key(s.prefix, s.procs[l.p].code, s.procs[l.p].difficulty) || Pool(s, key) == []
    ensures forall a :: a in at && at[a] == InPool(key) ==> a in Moved(s, at, l) && Moved(s, at, l)[a] == InPool(key)
  {
    if l.Push? || l.TryReserve? || l.InsertChallenge? || l.Stop? {
      assert ProcAgrees(s, at, l.p);
    }
    if l.Pop? {
      var popKey := Key(s.prefix, s.procs[l.p].code, s.procs[l.p].difficulty);
      assert popKey in s.pools ==> PoolAgrees(s, at, popKey);
    }
  }

  lemma MovedIssued(s: System, at: map<AssetId, Place>, l: Label)
    requires Agrees(s, at) && Enabled(s, l)
    ensures forall c :: 0 <= c < |Next(s, l).issued| ==> IssuedAgrees(Next(s, l), Moved(s, at, l), c)
  {
    var t := Next(s, l);
    if l.Push? || l.TryReserve? || l.InsertChallenge? || l.Stop? {
      assert ProcAgrees(s, at, l.p);
    } else if l.Pop? {
      var key := Key(s.prefix, s.procs[l.p].code, s.procs[l.p].difficulty);
      assert key in s.pools ==> PoolAgrees(s, at, key);
    }
    forall c | 0 <= c < |t.issued|
      ensures IssuedAgrees(t, Moved(s, at, l), c)
    {
      if c < |s.issued| {
        assert IssuedAgrees(s, at, c);
      }
    }
  }

  lemma StepAgrees(s: System, at: map<AssetId, Place>, l: Label)
    requires Agrees(s, at) && Enabled(s, l)
    ensures Agrees(Next(s, l), Moved(s, at, l))
  {
    MovedProcs(s, at, l);
    MovedPools(s, at, l);
    MovedIssued(s, at, l);
  }

  lemma {:induction false} EveryAssetHasOnePlace(s: System, at: map<AssetId, Place>, ls: seq<Label>)
    returns (at': map<AssetId, Place>)
    requires Agrees(s, at) && Runs(s, ls)
    ensures Agrees(End(s, ls), at')
    decreases |ls|
  {
    if ls == [] {
      at' := at;
    } else {
      StepAgrees(s, at, ls[0]);
      at' := EveryAssetHasOnePlace(Next(s, ls[0]), Moved(s, at, ls[0]), ls[1..]);
    }
  }

  predicate Fresh(s: System) {
    s.assets == map[] && s.pools == map[] && s.issued == [] && s.procs == map[]
  }

  predicate NoSharedAsset(s: System) {
    forall c, d :: 0 <= c < d < |s.issued| ==> s.issued[c].asset != s.issued[d].asset
  }

  predicate AsRequested(s: System) {
    forall c :: 0 <= c < |s.issued| ==> Fits(s, s.issued[c].asset, s.issued[c].code, s.issued[c].difficulty)
  }

  predicate PooledOnce(s: System) {
    forall k1, i, k2, j ::
      k1 in s.pools && 0 <= i < |s.pools[k1]| && k2 in s.pools && 0 <= j < |s.pools[k2]| ==>
        (s.pools[k1][i] == s.pools[k2][j] ==> k1 == k2 && i == j)
  }

  predicate PooledIsUnissued(s: System) {
    forall k, i, c :: k in s.pools && 0 <= i < |s.pools[k]| && 0 <= c < |s.issued| ==>
      s.pools[k][i] != s.issued[c].asset
  }

  lemma PlacesAreExclusive(t: System, at: map<AssetId, Place>)
    requires Agrees(t, at)
    ensures NoSharedAsset(t) && AsRequested(t) && PooledOnce(t) && PooledIsUnissued(t)
  {
    forall c, d | 0 <= c < d < |t.issued|
      ensures t.issued[c].asset != t.issued[d].asset
    {
      assert IssuedAgrees(t, at, c) && IssuedAgrees(t, at, d);
    }
    forall c | 0 <= c < |t.issued|
      ensures Fits(t, t.issued[c].asset, t.issued[c].code, t.issued[c].difficulty)
    {
      assert IssuedAgrees(t, at, c);
    }
    forall k1, i, k2, j | k1 in t.pools && 0 <= i < |t.pools[k1]| && k2 in t.pools && 0 <= j < |t.pools[k2]|
      ensures t.pools[k1][i] == t.pools[k2][j] ==> k1 == k2 && i == j
    {
      assert PoolAgrees(t, at, k1) && PoolAgrees(t, at, k2);
    }
    forall k, i, c | k in t.pools && 0 <= i < |t.pools[k]| && 0 <= c < |t.issued|
      ensures t.pools[k][i] != t.issued[c].asset
    {
      assert PoolAgrees(t, at, k) && IssuedAgrees(t, at, c);
    }
  }

  /**
   * Under every interleaving of pops, reservations, inserts and pushes: no asset backs two challenges,
   * each pooled id occurs once across all pools, and each challenge got an asset of the template code
   * and difficulty it was asked for.
   */
  lemma AllocationIsExclusive(s: System, ls: seq<Label>)
    requires Fresh(s) && Runs(s, ls)
    ensures var t := End(s, ls); NoSharedAsset(t) && AsRequested(t) && PooledOnce(t) && PooledIsUnissued(t)
  {
    var at := EveryAssetHasOnePlace(s, map[], ls);
    var t := End(s, ls);
    PlacesAreExclusive(t, at);
  }

  // ---------- undisturbed creators and generators ----------

  lemma Prepend(t: System, rest: seq<Label>, s: System, l: Label) returns (ls: seq<Label>)
    requires Enabled(s, l) && Next(s, l) == t && Runs(t, rest)
    ensures ls == [l] + rest && Runs(s, ls) && End(s, ls) == End(t, rest)
  {
    ls := [l] + rest;
    assert ls[1..] == rest;
  }

  /** The process ends holding the k-th asset it tried, exactly the older ones dropped, and that one reserved. */
  predicate Takes(s: System, e: System, p: Pid, key: string, k: nat)
    requires p in s.procs && s.procs[p].Asking?
  {
    var pool := Pool(s, key);
    && k < |pool| && !H.IsNoGood(s.assets, H.Tried(pool, k), s.clock)
    && (forall j :: 0 <= j < k ==> H.IsNoGood(s.assets, H.Tried(pool, j), s.clock))
    && H.Tried(pool, k) in s.assets
    && e == s.(
         assets := s.assets[H.Tried(pool, k) := s.assets[H.Tried(pool, k)].(status := Reserved)],
         pools := s.pools[key := pool[..|pool| - 1 - k]],
         procs := s.procs[p := Holding(s.procs[p].code, s.procs[p].difficulty, H.Tried(pool, k))])
  }

  /** The process gives up, nothing in the pool being any good, and the pool is empty. */
  predicate GivesUp(s: System, e: System, p: Pid, key: string) {
    var pool := Pool(s, key);
    && (forall j :: 0 <= j < |pool| ==> H.IsNoGood(s.assets, H.Tried(pool, j), s.clock))
    && e == s.(pools := if pool == [] then s.pools else s.pools[key := []], procs := s.procs - {p})
  }

  lemma TriedAfterMiss(pool: seq<AssetId>, j: nat)
    requires pool != [] && j + 1 < |pool|
    ensures H.Tried(pool[..|pool| - 1], j) == H.Tried(pool, j + 1)
  {
  }

  /** One asset that is no good has been dropped. */
  predicate IsMiss(s: System, t: System, key: string) {
    var pool := Pool(s, key);
    && pool != [] && H.IsNoGood(s.assets, H.Tried(pool, 0), s.clock)
    && t == s.(pools := s.pools[key := pool[..|pool| - 1]])
  }

  /** One miss, then the same from a pool that is one shorter. */
  lemma MissThenTakes(s: System, t: System, e: System, p: Pid, key: string, k: nat)
    requires p in s.procs && s.procs[p].Asking? && p in t.procs && t.procs[p] == s.procs[p]
    requires IsMiss(s, t, key)
    requires Takes(t, e, p, key, k)
    ensures Takes(s, e, p, key, k + 1)
  {
    var pool := Pool(s, key);
    TriedAfterMiss(pool, k);
    forall j | 0 <= j < k + 1
      ensures H.IsNoGood(s.assets, H.Tried(pool, j), s.clock)
    {
      if j > 0 { TriedAfterMiss(pool, j - 1); }
    }
    assert pool[..|pool| - 1][..|pool| - 2 - k] == pool[..|pool| - 1 - (k + 1)];
  }

  lemma MissThenGivesUp(s: System, t: System, e: System, p: Pid, key: string)
    requires IsMiss(s, t, key)
    requires GivesUp(t, e, p, key)
    ensures GivesUp(s, e, p, key)
  {
    var pool := Pool(s, key);
    forall j | 0 <= j < |pool|
      ensures H.IsNoGood(s.assets, H.Tried(pool, j), s.clock)
    {
      if j > 0 { TriedAfterMiss(pool, j - 1); }
    }
  }

  /** A creator that nothing interrupts takes the oldest-pushed asset that is any good, as the handler's loop does. */
  lemma {:induction false} CreatorAlone(s: System, p: Pid) returns (ls: seq<Label>, k: nat)
    requires p in s.procs && s.procs[p].Asking?
    ensures Runs(s, ls)
    ensures var key := Key(s.prefix, s.procs[p].code, s.procs[p].difficulty);
      if k < |Pool(s, key)| then Takes(s, End(s, ls), p, key, k) else GivesUp(s, End(s, ls), p, key)
    decreases |Pool(s, Key(s.prefix, s.procs[p].code, s.procs[p].difficulty))|
  {
    var key := Key(s.prefix, s.procs[p].code, s.procs[p].difficulty);
    var pool := Pool(s, key);
    var s1 := Next(s, Pop(p));
    if pool == [] {
      k := 0;
      ls := Prepend(s1, [], s, Pop(p));
    } else {
      var s2 := Next(s1, TryReserve(p));
      if H.IsNoGood(s.assets, H.Tried(pool, 0), s.clock) {
        assert s2.procs == s.procs;
        ls, k := CreatorAlone(s2, p);
        if k < |pool| - 1 {
          MissThenTakes(s, s2, End(s2, ls), p, key, k);
        } else {
          MissThenGivesUp(s, s2, End(s2, ls), p, key);
        }
        k := k + 1;
      } else {
        k := 0;
        ls := [];
        assert s2.procs == s.procs[p := Holding(s.procs[p].code, s.procs[p].difficulty, H.Tried(pool, 0))];
      }
      ls := Prepend(s2, ls, s1, TryReserve(p));
      ls := Prepend(s1, ls, s, Pop(p));
    }
  }

  /** And it issues exactly the asset it holds, for what it was asked for. */
  lemma HolderIssues(s: System, p: Pid)
    requires p in s.procs && s.procs[p].Holding?
    ensures var t := Next(s, InsertChallenge(p));
      && |t.issued| == |s.issued| + 1 && t.issued[..|s.issued|] == s.issued
      && t.issued[|s.issued|] == Issued(s.procs[p].code, s.procs[p].difficulty, s.procs[p].asset)
      && t.assets == s.assets && t.pools == s.pools && p !in t.procs
  {
  }

  /** A generator that nothing interrupts adds one available asset and pushes it onto the pool of its template. */
  lemma GeneratorAlone(s: System, p: Pid, asset: AssetId, expiresAt: Millis)
    requires p in s.procs && s.procs[p].Generating? && s.procs[p].templateId in s.codes && asset !in s.assets
    ensures var ls := [Insert(p, asset, expiresAt), Push(p)]; var Generating(t, d) := s.procs[p];
      var key := Key(s.prefix, s.codes[t], d);
      && Runs(s, ls)
      && End(s, ls) == s.(
           assets := s.assets[asset := Asset(t, d, Available, expiresAt, 0)],
           pools := s.pools[key := [asset] + Pool(s, key)])
  {
    var s1 := Next(s, Insert(p, asset, expiresAt));
    var s2 := Next(s1, Push(p));
    assert s2.procs == s.procs;
    var l1 := Prepend(s2, [], s1, Push(p));
    var l2 := Prepend(s1, l1, s, Insert(p, asset, expiresAt));
    assert l2 == [Insert(p, asset, expiresAt), Push(p)];
  }
}
