/** The captcha repository, the pool and the handlers over them. */
module CaptchaHandlers {
  import opened Options
  import opened Accounts
  import opened CaptchaTypes
  import C = CaptchaChallenges

  const DEFAULT_TEMPLATE_CODE := "svg-text-ru-v1"

  /** The Redis lists by key; an empty list and a missing one are the same. */
  type Pools = map<string, seq<AssetId>>

  datatype Template = Template(id: TemplateId, active: bool, defaultDifficulty: Difficulty)

  datatype CreateResult = TemplateNotFound | PoolEmpty | Created(challenge: ChallengeId)

  /** The k-th asset a creator tries: pools are pushed on the left and popped on the right. */
  function Tried(pool: seq<AssetId>, k: nat): AssetId
    requires k < |pool|
  {
    pool[|pool| - 1 - k]
  }

  /** The number of tries that fail before one succeeds, when the k-th try happens at time clock(k). */
  function Misses(assets: map<AssetId, Asset>, pool: seq<AssetId>, clock: nat -> Millis, from: nat): (k: nat)
    requires from <= |pool|
    ensures from <= k <= |pool|
    ensures forall j :: from <= j < k ==> !Reservable(assets, Tried(pool, j), clock(j))
    ensures k < |pool| ==> Reservable(assets, Tried(pool, k), clock(k))
    decreases |pool| - from
  {
    if from == |pool| || Reservable(assets, Tried(pool, from), clock(from)) then from
    else Misses(assets, pool, clock, from + 1)
  }

  /** The asset is not there, not available, or expired. */
  predicate IsNoGood(assets: map<AssetId, Asset>, id: AssetId, now: Millis) {
    id in assets ==> assets[id].status != Available || assets[id].expiresAt <= now
  }

  /** Each of the k tries before found an asset that is no good. */
  predicate MissedAll(assets: map<AssetId, Asset>, pool: seq<AssetId>, clock: nat -> Millis, k: nat) {
    forall j :: 0 <= j < k && j < |pool| ==> IsNoGood(assets, Tried(pool, j), clock(j))
  }

  lemma MissesMissed(assets: map<AssetId, Asset>, pool: seq<AssetId>, clock: nat -> Millis)
    ensures var k := Misses(assets, pool, clock, 0);
      && MissedAll(assets, pool, clock, k)
      && (k < |pool| ==> !IsNoGood(assets, Tried(pool, k), clock(k)))
  {
  }

  function Reversed(s: seq<AssetId>): (r: seq<AssetId>)
    ensures |r| == |s| && forall i :: 0 <= i < |s| ==> r[i] == s[|s| - 1 - i]
  {
    seq(|s|, i requires 0 <= i < |s| => s[|s| - 1 - i])
  }

  /** Pools are first in, first out: after a batch is pushed, tries take the older assets, then the batch in order. */
  lemma TriesFollowPushes(pool: seq<AssetId>, pushed: seq<AssetId>, k: nat)
    requires k < |pool| + |pushed|
    ensures Tried(Reversed(pushed) + pool, k) == if k < |pool| then Tried(pool, k) else pushed[k - |pool|]
  {
  }

  /** The table after a batch of new assets is inserted, one after the other. */
  function Inserted(
      assets: map<AssetId, Asset>, ids: seq<AssetId>, templateId: TemplateId, d: Difficulty,
      expiresAt: nat -> Millis): map<AssetId, Asset>
  {
    if ids == [] then assets
    else
      var n := |ids| - 1;
      Inserted(assets, ids[..n], templateId, d, expiresAt)[ids[n] := Asset(templateId, d, Available, expiresAt(n), 0)]
  }

  lemma {:induction false} BatchRow(
      assets: map<AssetId, Asset>, ids: seq<AssetId>, templateId: TemplateId, d: Difficulty,
      expiresAt: nat -> Millis, i: nat)
    requires i < |ids| && forall j :: i < j < |ids| ==> ids[j] != ids[i]
    ensures var r := Inserted(assets, ids, templateId, d, expiresAt);
      ids[i] in r && r[ids[i]] == Asset(templateId, d, Available, expiresAt(i), 0)
  {
    var front := ids[..|ids| - 1];
    if i < |front| {
      assert front[i] == ids[i];
      BatchRow(assets, front, templateId, d, expiresAt, i);
    }
  }

  lemma {:induction false} BatchElsewhere(
      assets: map<AssetId, Asset>, ids: seq<AssetId>, templateId: TemplateId, d: Difficulty,
      expiresAt: nat -> Millis, a: AssetId)
    requires a !in ids
    ensures var r := Inserted(assets, ids, templateId, d, expiresAt);
      (a in r <==> a in assets) && (a in assets ==> r[a] == assets[a])
  {
    if ids != [] {
      BatchElsewhere(assets, ids[..|ids| - 1], templateId, d, expiresAt, a);
    }
  }

  /** A batch adds exactly its ids, each with its own row, and changes no other asset. */
  lemma BatchAddsItsRows(
      assets: map<AssetId, Asset>, ids: seq<AssetId>, templateId: TemplateId, d: Difficulty, expiresAt: nat -> Millis)
    requires forall i, j :: 0 <= i < j < |ids| ==> ids[i] != ids[j]
    ensures var r := Inserted(assets, ids, templateId, d, expiresAt);
      && (forall i: nat :: i < |ids| ==> ids[i] in r && r[ids[i]] == Asset(templateId, d, Available, expiresAt(i), 0))
      && (forall a :: a !in ids ==> (a in r <==> a in assets) && (a in assets ==> r[a] == assets[a]))
  {
    var r := Inserted(assets, ids, templateId, d, expiresAt);
    forall i: nat | i < |ids|
      ensures ids[i] in r && r[ids[i]] == Asset(templateId, d, Available, expiresAt(i), 0)
    {
      BatchRow(assets, ids, templateId, d, expiresAt, i);
    }
    forall a | a !in ids
      ensures (a in r <==> a in assets) && (a in assets ==> r[a] == assets[a])
    {
      BatchElsewhere(assets, ids, templateId, d, expiresAt, a);
    }
  }

  function PoolOf(pools: Pools, key: string): seq<AssetId> {
    if key in pools then pools[key] else []
  }

  /** The pools once k tries have missed: those are gone, and the next one, if any, is taken. */
  function Rest(pools: Pools, key: string, k: nat): Pools
    requires k <= |PoolOf(pools, key)|
  {
    var pool := PoolOf(pools, key);
    if pool == [] then pools
    else pools[key := if k < |pool| then pool[..|pool| - 1 - k] else []]
  }

  /** The pools after a batch is pushed, one id after the other. */
  function Stocked(pools: Pools, key: string, ids: seq<AssetId>): Pools {
    if ids == [] then pools else pools[key := Reversed(ids) + PoolOf(pools, key)]
  }

  lemma StockedNext(pools: Pools, key: string, ids: seq<AssetId>, id: AssetId)
    ensures var before := Stocked(pools, key, ids);
      Stocked(pools, key, ids + [id]) == before[key := [id] + PoolOf(before, key)]
  {
    var pool := PoolOf(pools, key);
    assert Reversed(ids + [id]) == [id] + Reversed(ids);
    assert Reversed(ids + [id]) + pool == [id] + (Reversed(ids) + pool);
    assert Reversed([]) + pool == pool;
  }

  lemma StockedIsTriedInOrder(pools: Pools, key: string, ids: seq<AssetId>)
    ensures var pool, after := PoolOf(pools, key), PoolOf(Stocked(pools, key, ids), key);
      && |after| == |pool| + |ids|
      && (forall k :: 0 <= k < |pool| ==> Tried(after, k) == Tried(pool, k))
      && (forall k :: 0 <= k < |ids| ==> Tried(after, |pool| + k) == ids[k])
    ensures forall other :: other != key ==> PoolOf(Stocked(pools, key, ids), other) == PoolOf(pools, other)
  {
  }

  lemma InsertedNext(
      assets: map<AssetId, Asset>, ids: seq<AssetId>, id: AssetId, templateId: TemplateId, d: Difficulty,
      expiresAt: nat -> Millis)
    ensures Inserted(assets, ids + [id], templateId, d, expiresAt) ==
      Inserted(assets, ids, templateId, d, expiresAt)[id := Asset(templateId, d, Available, expiresAt(|ids|), 0)]
  {
    assert (ids + [id])[..|ids|] == ids;
  }

  lemma RestIsLeft(pools: Pools, key: string, k: nat)
    requires k <= |PoolOf(pools, key)|
    ensures var pool := PoolOf(pools, key);
      PoolOf(Rest(pools, key, k), key) == if k < |pool| then pool[..|pool| - 1 - k] else []
    ensures forall other :: other != key ==> PoolOf(Rest(pools, key, k), other) == PoolOf(pools, other)
  {
  }

  lemma RestNext(pools: Pools, key: string, k: nat)
    requires k < |PoolOf(pools, key)|
    ensures var pool, rest := PoolOf(pools, key), Rest(pools, key, k); var left := PoolOf(rest, key);
      && left == pool[..|pool| - 1 - k]
      && (left == [] ==> Rest(pools, key, k + 1) == rest)
      && (left != [] ==> rest[key := left[..|left| - 1]] == Rest(pools, key, k + 1))
  {
    var pool := PoolOf(pools, key);
    var left := PoolOf(Rest(pools, key, k), key);
    assert left == pool[..|pool| - 1 - k];
    if left != [] {
      assert left[..|left| - 1] == pool[..|pool| - 1 - (k + 1)];
      assert pools[key := left][key := left[..|left| - 1]] == pools[key := left[..|left| - 1]];
    }
  }

  /** `popped` is what a right pop gives and `after` what it leaves. */
  predicate Pops(before: Pools, key: string, popped: Option<AssetId>, after: Pools) {
    var pool := PoolOf(before, key);
    if pool == [] then popped.None? && after == before
    else popped == Some(pool[|pool| - 1]) && after == before[key := pool[..|pool| - 1]]
  }

  /** After k misses the next asset, if any is left, has been popped. */
  predicate Trying(before: Pools, key: string, k: nat, popped: Option<AssetId>, after: Pools) {
    var pool := PoolOf(before, key);
    && k <= |pool| && after == Rest(before, key, k)
    && popped == if k < |pool| then Some(Tried(pool, k)) else None
  }

  lemma FirstTry(before: Pools, key: string, popped: Option<AssetId>, after: Pools)
    requires Pops(before, key, popped, after)
    ensures Trying(before, key, 0, popped, after)
  {
  }

  lemma NextTry(
      before: Pools, key: string, k: nat, rest: Pools,
      popped: Option<AssetId>, after: Pools)
    requires k < |PoolOf(before, key)| && rest == Rest(before, key, k) && Pops(rest, key, popped, after)
    ensures Trying(before, key, k + 1, popped, after)
  {
    RestNext(before, key, k);
  }

  class Captcha {
    const prefix: string
    /** Templates by their unique code. */
    var templates: map<string, Template>
    var assets: map<AssetId, Asset>
    var challenges: map<ChallengeId, Challenge>
    var attempts: seq<Attempt>
    var pools: Pools

    constructor (prefix: string, templates: map<string, Template>)
      ensures this.prefix == prefix && this.templates == templates
      ensures assets == map[] && challenges == map[] && attempts == [] && pools == map[]
    {
      this.prefix := prefix;
      this.templates := templates;
      assets, challenges, attempts, pools := map[], map[], [], map[];
    }

    function Pool(key: string): seq<AssetId>
      reads this
    {
      PoolOf(pools, key)
    }

    function Tables(): C.State
      reads this
    {
      C.State(assets, challenges, attempts)
    }

    method PushAsset(code: string, d: Difficulty, asset: AssetId)
      modifies this`pools
      ensures pools == old(pools)[Key(prefix, code, d) := [asset] + old(Pool(Key(prefix, code, d)))]
    {
      var key := Key(prefix, code, d);
      pools := pools[key := [asset] + Pool(key)];
    }

    method PopAsset(code: string, d: Difficulty) returns (r: Option<AssetId>)
      modifies this`pools
      ensures Pops(old(pools), Key(prefix, code, d), r, pools)
    {
      var key := Key(prefix, code, d);
      var pool := Pool(key);
      if pool == [] { return None; }
      pools := pools[key := pool[..|pool| - 1]];
      return Some(pool[|pool| - 1]);
    }

    method ReserveAsset(id: AssetId, now: Millis) returns (reserved: bool)
      modifies this`assets
      ensures reserved <==> Reservable(old(assets), id, now)
      ensures reserved <==> !IsNoGood(old(assets), id, now)
      ensures assets == if reserved then Reserve(old(assets), id) else old(assets)
    {
      reserved := id in assets && assets[id].status == Available && assets[id].expiresAt > now;
      if reserved {
        assets := assets[id := assets[id].(status := Reserved)];
      }
    }

    /** The pop and reserve loop, with nobody else at the pool: it stops at the first try that succeeds. */
    method TakeAsset(code: string, d: Difficulty, clock: nat -> Millis) returns (r: Option<AssetId>)
      modifies this`assets, this`pools
      ensures var key := Key(prefix, code, d); var pool := old(Pool(key)); var k := Misses(old(assets), pool, clock, 0);
        && pools == Rest(old(pools), key, k)
        && if k < |pool| then r == Some(Tried(pool, k)) && assets == Reserve(old(assets), Tried(pool, k))
           else r == None && assets == old(assets)
    {
      ghost var key := Key(prefix, code, d);
      ghost var assets0, pools0 := assets, pools;
      var assetId := PopAsset(code, d);
      FirstTry(pools0, key, assetId, pools);
      var reserved := false;
      if assetId.Some? {
        reserved := ReserveAsset(assetId.value, clock(0));
      }
      var k := 0;
      while assetId.Some? && !reserved
        invariant Trying(pools0, key, k, assetId, pools)
        invariant Misses(assets0, PoolOf(pools0, key), clock, 0) == Misses(assets0, PoolOf(pools0, key), clock, k)
        invariant reserved <==> assetId.Some? && Reservable(assets0, assetId.value, clock(k))
        invariant assets == if reserved then Reserve(assets0, assetId.value) else assets0
        decreases |PoolOf(pools0, key)| - k
      {
        ghost var rest := pools;
        k := k + 1;
        assetId := PopAsset(code, d);
        NextTry(pools0, key, k - 1, rest, assetId, pools);
        if assetId.Some? {
          reserved := ReserveAsset(assetId.value, clock(k));
        }
      }
      r := if reserved then assetId else None;
    }

    /**
     * Creating a challenge; `clock` gives the database time of each reservation, and the challenge's id
     * is new. The oldest-pushed asset that is reservable when its turn comes is issued, exactly the
     * older ones are dropped, and an empty pool is reported exactly when none is reservable.
     */
    method CreateChallenge(
        templateCode: Option<string>, difficulty: Option<Difficulty>, clock: nat -> Millis,
        id: ChallengeId, expiresAt: Millis) returns (r: CreateResult, ghost code: string, ghost d: Difficulty)
      requires id !in challenges
      modifies this`assets, this`challenges, this`pools
      ensures code == if templateCode.Some? then templateCode.value else "svg-text-ru-v1"
      ensures r.TemplateNotFound? <==> code !in templates || !templates[code].active
      ensures r.TemplateNotFound? ==> pools == old(pools)
      ensures !r.TemplateNotFound? ==>
        d == if difficulty.Some? then difficulty.value else templates[code].defaultDifficulty
      ensures var key := Key(prefix, code, d); var pool := old(Pool(key)); r.PoolEmpty? ==>
        && pools == Rest(old(pools), key, |pool|)
        && MissedAll(old(assets), pool, clock, |pool|)
      ensures r.PoolEmpty? ==> Pool(Key(prefix, code, d)) == []
      ensures forall other :: other != Key(prefix, code, d) ==> Pool(other) == old(Pool(other))
      ensures r.Created? ==>
        var key := Key(prefix, code, d); var pool := old(Pool(key)); var k := Misses(old(assets), pool, clock, 0);
        && r.challenge == id && k < |pool|
        && pools == Rest(old(pools), key, k)
        && Tables() == C.Apply(old(Tables()), C.Create(id, Tried(pool, k), clock(k), expiresAt), 1)
      ensures r.Created? ==>
        var pool := old(Pool(Key(prefix, code, d))); var k := Misses(old(assets), pool, clock, 0);
        && k < |pool| && Pool(Key(prefix, code, d)) == pool[..|pool| - 1 - k]
        && MissedAll(old(assets), pool, clock, k)
        && !IsNoGood(old(assets), Tried(pool, k), clock(k))
        && var asset := Tried(pool, k);
           && challenges == old(challenges)[id := Challenge(asset, Pending, 0, expiresAt)]
           && assets == old(assets)[asset := old(assets)[asset].(status := Reserved)] && attempts == old(attempts)
      ensures !r.Created? ==> Tables() == old(Tables())
    {
      var templateCode' := if templateCode.Some? then templateCode.value else DEFAULT_TEMPLATE_CODE;
      code, d := templateCode', Medium;
      if templateCode' !in templates || !templates[templateCode'].active {
        return TemplateNotFound, code, d;
      }
      var difficulty' := if difficulty.Some? then difficulty.value else templates[templateCode'].defaultDifficulty;
      d := difficulty';
      ghost var key := Key(prefix, templateCode', difficulty');
      MissesMissed(assets, Pool(key), clock);
      RestIsLeft(pools, key, Misses(assets, Pool(key), clock, 0));
      var asset := TakeAsset(templateCode', difficulty', clock);
      if asset.None? {
        return PoolEmpty, code, d;
      }
      challenges := challenges[id := Challenge(asset.value, Pending, 0, expiresAt)];
      return Created(id), code, d;
    }

    method IncrementChallengeAttempts(id: ChallengeId)
      requires id in challenges
      modifies this`challenges
      ensures var c := old(challenges)[id];
        challenges == old(challenges)[id := c.(attemptsCount := c.attemptsCount + 1)]
    {
      challenges := challenges[id := challenges[id].(attemptsCount := challenges[id].attemptsCount + 1)];
    }

    method CompleteChallenge(id: ChallengeId, status: ChallengeStatus)
      requires id in challenges
      modifies this`challenges
      ensures challenges == old(challenges)[id := old(challenges)[id].(status := status)]
    {
      challenges := challenges[id := challenges[id].(status := status)];
    }

    method MarkAssetUsed(id: AssetId)
      modifies this`assets
      ensures assets == MarkUsed(old(assets), id)
    {
      if id in assets {
        assets := assets[id := assets[id].(status := Used, usedCount := assets[id].usedCount + 1)];
      }
    }

    method VerifyChallenge(id: ChallengeId, correct: bool, now: Millis, maxAttempts: int) returns (r: C.Verdict)
      modifies this`assets, this`challenges, this`attempts
      ensures (Tables(), r) == C.VerifyAnswer(old(Tables()), id, correct, now, maxAttempts)
    {
      if id !in challenges { return C.NotFound; }
      var challenge := challenges[id];
      if challenge.status != Pending { return C.Closed; }
      if challenge.expiresAt <= now {
        CompleteChallenge(id, Expired);
        return C.Gone;
      }
      if challenge.attemptsCount >= maxAttempts { return C.TooManyAttempts; }
      if challenge.assetId !in assets || assets[challenge.assetId].status != Reserved { return C.AssetNotReserved; }
      IncrementChallengeAttempts(id);
      attempts := attempts + [Attempt(id, correct)];
      if correct {
        CompleteChallenge(id, Passed);
        MarkAssetUsed(challenge.assetId);
        return C.Answered(true, 0);
      }
      var attemptsAfter := challenge.attemptsCount + 1;
      var attemptsLeft := C.Max(0, maxAttempts - attemptsAfter);
      if attemptsLeft == 0 {
        CompleteChallenge(id, Failed);
        MarkAssetUsed(challenge.assetId);
      }
      return C.Answered(false, attemptsLeft);
    }

    /** A generation job: one new asset after the other is inserted and pushed; `ids` are the new ids. */
    method GenerateBatch(code: string, templateId: TemplateId, d: Difficulty, ids: seq<AssetId>,
            expiresAt: nat -> Millis)
      requires forall i :: 0 <= i < |ids| ==> ids[i] !in assets
      requires forall i, j :: 0 <= i < j < |ids| ==> ids[i] != ids[j]
      modifies this`assets, this`pools
      ensures assets == Inserted(old(assets), ids, templateId, d, expiresAt)
      ensures pools == Stocked(old(pools), Key(prefix, code, d), ids)
      ensures var key := Key(prefix, code, d); var pool := old(Pool(key));
        && |Pool(key)| == |pool| + |ids|
        && (forall k :: 0 <= k < |pool| ==> Tried(Pool(key), k) == Tried(pool, k))
        && (forall k :: 0 <= k < |ids| ==> Tried(Pool(key), |pool| + k) == ids[k])
        && (forall other :: other != key ==> Pool(other) == old(Pool(other)))
    {
      ghost var key := Key(prefix, code, d);
      ghost var assets0, pools0 := assets, pools;
      var i := 0;
      while i < |ids|
        invariant 0 <= i <= |ids|
        invariant assets == Inserted(assets0, ids[..i], templateId, d, expiresAt)
        invariant pools == Stocked(pools0, key, ids[..i])
      {
        ghost var done, id := ids[..i], ids[i];
        InsertedNext(assets0, done, id, templateId, d, expiresAt);
        StockedNext(pools0, key, done, id);
        assets := assets[ids[i] := Asset(templateId, d, Available, expiresAt(i), 0)];
        PushAsset(code, d, ids[i]);
        i := i + 1;
        assert ids[..i] == done + [id];
      }
      assert ids[..i] == ids;
      StockedIsTriedInOrder(pools0, key, ids);
    }
  }
}
