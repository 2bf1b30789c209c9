/** The life of captcha challenges, one handler run at a time. */
module CaptchaChallenges {
  import opened Accounts
  import opened CaptchaTypes

  datatype State = State(
    assets: map<AssetId, Asset>,
    challenges: map<ChallengeId, Challenge>,
    attempts: seq<Attempt>)

  datatype Verdict =
    | NotFound
    | Closed
    | Gone
    | TooManyAttempts
    | AssetNotReserved
    | Answered(success: bool, attemptsLeft: nat)

  datatype Event =
    | AddAsset(asset: AssetId, row: Asset)
    | Create(challenge: ChallengeId, asset: AssetId, now: Millis, expiresAt: Millis)
    | Verify(challenge: ChallengeId, correct: bool, now: Millis)

  /** Ids are random and new; a challenge is created for an asset whose reservation just succeeded. */
  predicate Enabled(s: State, e: Event) {
    match e
    case AddAsset(asset, row) => asset !in s.assets && row.status == Available && row.usedCount == 0
    case Create(challenge, asset, now, _) => challenge !in s.challenges && Reservable(s.assets, asset, now)
    case Verify(_, _, _) => true
  }

  function Close(s: State, challenge: ChallengeId, status: ChallengeStatus): State
    requires challenge in s.challenges
  {
    s.(challenges := s.challenges[challenge := s.challenges[challenge].(status := status)])
  }

  function Max(a: int, b: int): int {
    if a > b then a else b
  }

  /** One verification; `correct` is the comparison of the answer with the asset's hash. */
  function VerifyAnswer(
      s: State, challenge: ChallengeId, correct: bool, now: Millis, maxAttempts: int): (State, Verdict)
  {
    if challenge !in s.challenges then (s, NotFound)
    else
      var c := s.challenges[challenge];
      if c.status != Pending then (s, Closed)
      else if c.expiresAt <= now then (Close(s, challenge, Expired), Gone)
      else if c.attemptsCount >= maxAttempts then (s, TooManyAttempts)
      else if c.assetId !in s.assets || s.assets[c.assetId].status != Reserved then (s, AssetNotReserved)
      else
        var counted := s.(
          challenges := s.challenges[challenge := c.(attemptsCount := c.attemptsCount + 1)],
          attempts := s.attempts + [Attempt(challenge, correct)]);
        var left := Max(0, maxAttempts - (c.attemptsCount + 1));
        if correct then
          (Close(counted, challenge, Passed).(assets := MarkUsed(s.assets, c.assetId)), Answered(true, 0))
        else if left == 0 then
          (Close(counted, challenge, Failed).(assets := MarkUsed(s.assets, c.assetId)), Answered(false, 0))
        else (counted, Answered(false, left))
  }

  function Apply(s: State, e: Event, maxAttempts: int): State
    requires Enabled(s, e)
  {
    match e
    case AddAsset(asset, row) => s.(assets := s.assets[asset := row])
    case Create(challenge, asset, _, expiresAt) =>
      s.(assets := Reserve(s.assets, asset),
        challenges := s.challenges[challenge := Challenge(asset, Pending, 0, expiresAt)])
    case Verify(challenge, correct, now) => VerifyAnswer(s, challenge, correct, now, maxAttempts).0
  }

  predicate Runs(s: State, es: seq<Event>, maxAttempts: int)
    decreases |es|
  {
    es == [] || (Enabled(s, es[0]) && Runs(Apply(s, es[0], maxAttempts), es[1..], maxAttempts))
  }

  function End(s: State, es: seq<Event>, maxAttempts: int): State
    requires Runs(s, es, maxAttempts)
    decreases |es|
  {
    if es == [] then s else End(Apply(s, es[0], maxAttempts), es[1..], maxAttempts)
  }

  /** The results of a challenge's attempt rows, oldest first. */
  function Results(attempts: seq<Attempt>, challenge: ChallengeId): seq<bool> {
    if attempts == [] then []
    else
      var front, a := attempts[..|attempts| - 1], attempts[|attempts| - 1];
      if a.challengeId == challenge then Results(front, challenge) + [a.isSuccess] else Results(front, challenge)
  }

  lemma ResultsAppend(attempts: seq<Attempt>, a: Attempt, challenge: ChallengeId)
    ensures Results(attempts + [a], challenge) ==
      if a.challengeId == challenge then Results(attempts, challenge) + [a.isSuccess] else Results(attempts, challenge)
  {
    assert (attempts + [a])[..|attempts|] == attempts;
  }

  predicate AllWrong(rs: seq<bool>) {
    forall i :: 0 <= i < |rs| ==> !rs[i]
  }

  /** What the status of a challenge says about its attempts and its asset. */
  predicate Lifecycle(c: Challenge, rs: seq<bool>, a: Asset, maxAttempts: int) {
    && c.attemptsCount == |rs|
    && match c.status
       case Pending => |rs| < maxAttempts && AllWrong(rs) && a.status == Reserved && a.usedCount == 0
       case Passed =>
         && 1 <= |rs| <= maxAttempts && rs[|rs| - 1] && AllWrong(rs[..|rs| - 1])
         && a.status == Used && a.usedCount == 1
       case Failed => |rs| == maxAttempts && AllWrong(rs) && a.status == Used && a.usedCount == 1
       case Expired => |rs| < maxAttempts && AllWrong(rs) && a.status == Reserved && a.usedCount == 0
  }

  predicate LifecycleOf(s: State, id: ChallengeId, maxAttempts: int)
    requires id in s.challenges
  {
    var c := s.challenges[id];
    c.assetId in s.assets && Lifecycle(c, Results(s.attempts, id), s.assets[c.assetId], maxAttempts)
  }

  predicate Coherent(s: State, maxAttempts: int) {
    && (forall id :: id in s.challenges ==> LifecycleOf(s, id, maxAttempts))
    && (forall id, other ::
          id in s.challenges && other in s.challenges && s.challenges[id].assetId == s.challenges[other].assetId ==>
            id == other)
    && (forall k :: 0 <= k < |s.attempts| ==> s.attempts[k].challengeId in s.challenges)
    && (forall a :: a in s.assets && s.assets[a].status == Available ==> s.assets[a].usedCount == 0)
  }

  lemma {:induction false} NoAttemptsYet(attempts: seq<Attempt>, id: ChallengeId)
    requires forall k :: 0 <= k < |attempts| ==> attempts[k].challengeId != id
    ensures Results(attempts, id) == []
  {
    if attempts != [] {
      NoAttemptsYet(attempts[..|attempts| - 1], id);
    }
  }

  /** t differs from s at most in one challenge, in its asset and in one more attempt row for it. */
  predicate Touches(s: State, t: State, id: ChallengeId, correct: bool)
    requires id in s.challenges
  {
    var asset := s.challenges[id].assetId;
    && id in t.challenges && t.challenges[id].assetId == asset
    && t.challenges == s.challenges[id := t.challenges[id]]
    && (t.assets == s.assets ||
        (asset in s.assets && asset in t.assets && t.assets == s.assets[asset := t.assets[asset]]))
    && (t.attempts == s.attempts || t.attempts == s.attempts + [Attempt(id, correct)])
  }

  predicate TouchesOnly(s: State, t: State, id: ChallengeId, correct: bool)
    requires id in s.challenges
  {
    Touches(s, t, id, correct) && (s.challenges[id].status != Pending ==> t == s)
  }

  lemma VerifyTouchesOnly(s: State, id: ChallengeId, correct: bool, now: Millis, maxAttempts: int)
    requires id in s.challenges
    ensures TouchesOnly(s, VerifyAnswer(s, id, correct, now, maxAttempts).0, id, correct)
  {
    var t := VerifyAnswer(s, id, correct, now, maxAttempts).0;
    assert t.challenges == s.challenges[id := t.challenges[id]];
  }

  lemma AnswerKeepsLifecycle(c: Challenge, rs: seq<bool>, a: Asset, correct: bool, maxAttempts: int)
    requires c.status == Pending && Lifecycle(c, rs, a, maxAttempts)
    ensures var counted := c.(attemptsCount := c.attemptsCount + 1);
      var used := a.(status := Used, usedCount := a.usedCount + 1);
      && (correct ==> Lifecycle(counted.(status := Passed), rs + [correct], used, maxAttempts))
      && (!correct && |rs| + 1 == maxAttempts ==>
        Lifecycle(counted.(status := Failed), rs + [correct], used, maxAttempts))
      && (!correct && |rs| + 1 < maxAttempts ==> Lifecycle(counted, rs + [correct], a, maxAttempts))
  {
    assert (rs + [correct])[..|rs|] == rs;
  }

  /** What an answer leaves of the challenge, of its asset and of the attempts. */
  lemma AnswerEffect(s: State, id: ChallengeId, correct: bool, now: Millis, maxAttempts: int)
    requires id in s.challenges && s.challenges[id].status == Pending && s.challenges[id].expiresAt > now
    requires s.challenges[id].attemptsCount < maxAttempts
    requires s.challenges[id].assetId in s.assets && s.assets[s.challenges[id].assetId].status == Reserved
    ensures var c := s.challenges[id]; var a := s.assets[c.assetId];
      var (t, r) := VerifyAnswer(s, id, correct, now, maxAttempts);
      var counted := c.(attemptsCount := c.attemptsCount + 1);
      var ends := correct || c.attemptsCount + 1 == maxAttempts;
      && r.Answered? && id in t.challenges && c.assetId in t.assets
      && t.attempts == s.attempts + [Attempt(id, correct)]
      && t.challenges[id] == (if ends then counted.(status := if correct then Passed else Failed) else counted)
      && t.assets[c.assetId] == if ends then a.(status := Used, usedCount := a.usedCount + 1) else a
  {
  }

  lemma AnswerKeepsOwn(s: State, id: ChallengeId, correct: bool, now: Millis, maxAttempts: int)
    requires id in s.challenges && LifecycleOf(s, id, maxAttempts)
    requires s.challenges[id].status == Pending && s.challenges[id].expiresAt > now
    ensures var (t, r) := VerifyAnswer(s, id, correct, now, maxAttempts);
      id in t.challenges && LifecycleOf(t, id, maxAttempts) && r.Answered?
  {
    var c := s.challenges[id];
    var rs := Results(s.attempts, id);
    var t := VerifyAnswer(s, id, correct, now, maxAttempts).0;
    AnswerEffect(s, id, correct, now, maxAttempts);
    AnswerKeepsLifecycle(c, rs, s.assets[c.assetId], correct, maxAttempts);
    assert Lifecycle(t.challenges[id], rs + [correct], t.assets[c.assetId], maxAttempts);
    ResultsAppend(s.attempts, Attempt(id, correct), id);
  }

  lemma VerifyKeepsOwn(s: State, id: ChallengeId, correct: bool, now: Millis, maxAttempts: int)
    requires id in s.challenges && LifecycleOf(s, id, maxAttempts)
    ensures var (t, r) := VerifyAnswer(s, id, correct, now, maxAttempts);
      && id in t.challenges && LifecycleOf(t, id, maxAttempts)
      && !r.TooManyAttempts? && !r.AssetNotReserved?
  {
    if s.challenges[id].status == Pending && s.challenges[id].expiresAt > now {
      AnswerKeepsOwn(s, id, correct, now, maxAttempts);
    }
  }

  lemma OthersAreKept(s: State, t: State, own: ChallengeId, correct: bool, maxAttempts: int, id: ChallengeId)
    requires own in s.challenges && Touches(s, t, own, correct)
    requires id in s.challenges && id != own && LifecycleOf(s, id, maxAttempts)
    requires s.challenges[id].assetId != s.challenges[own].assetId
    ensures id in t.challenges && LifecycleOf(t, id, maxAttempts)
  {
    ResultsAppend(s.attempts, Attempt(own, correct), id);
  }

  lemma VerifyIsCoherent(s: State, t: State, own: ChallengeId, correct: bool, maxAttempts: int)
    requires own in s.challenges && TouchesOnly(s, t, own, correct)
    requires Coherent(s, maxAttempts) && LifecycleOf(t, own, maxAttempts)
    ensures Coherent(t, maxAttempts)
  {
    forall id | id in t.challenges
      ensures LifecycleOf(t, id, maxAttempts)
    {
      if id != own {
        assert LifecycleOf(s, id, maxAttempts);
        OthersAreKept(s, t, own, correct, maxAttempts, id);
      }
    }
  }

  lemma CreateIsCoherent(s: State, e: Event, maxAttempts: int)
    requires maxAttempts >= 1 && Coherent(s, maxAttempts) && e.Create? && Enabled(s, e)
    ensures Coherent(Apply(s, e, maxAttempts), maxAttempts)
  {
    forall id | id in s.challenges
      ensures s.challenges[id].assetId != e.asset
    {
      assert LifecycleOf(s, id, maxAttempts);
    }
    NoAttemptsYet(s.attempts, e.challenge);
    var t := Apply(s, e, maxAttempts);
    forall id | id in t.challenges
      ensures LifecycleOf(t, id, maxAttempts)
    {
      if id != e.challenge { assert LifecycleOf(s, id, maxAttempts); }
    }
  }

  /** A refusal changes nothing, except that a verification past the expiry marks the challenge as expired. */
  lemma RefusalsExactly(s: State, id: ChallengeId, correct: bool, now: Millis, maxAttempts: int)
    ensures var (t, r) := VerifyAnswer(s, id, correct, now, maxAttempts);
      && (r.NotFound? <==> id !in s.challenges)
      && (id in s.challenges ==>
            var c := s.challenges[id];
            var isOpen := c.status == Pending && now < c.expiresAt;
            && (r.Closed? <==> c.status != Pending)
            && (r.Gone? <==> c.status == Pending && c.expiresAt <= now)
            && (r.TooManyAttempts? <==> isOpen && c.attemptsCount >= maxAttempts)
            && (r.AssetNotReserved? <==>
                  && isOpen && c.attemptsCount < maxAttempts
                  && (c.assetId in s.assets ==> s.assets[c.assetId].status != Reserved)))
      && (r.Gone? ==> t == s.(challenges := s.challenges[id := s.challenges[id].(status := Expired)]))
      && (!r.Gone? && !r.Answered? ==> t == s)
  {
  }

  /** A new challenge is answerable until the expiry it was given, and gone from then on. */
  lemma CreatedIsAnswerable(s: State, e: Event, correct: bool, now: Millis, maxAttempts: int)
    requires maxAttempts >= 1 && e.Create? && Enabled(s, e)
    ensures var r := VerifyAnswer(Apply(s, e, maxAttempts), e.challenge, correct, now, maxAttempts).1;
      && (r.Answered? <==> now < e.expiresAt)
      && (r.Gone? <==> e.expiresAt <= now)
      && (r.Answered? ==> r.success == correct)
  {
  }

  lemma StepIsCoherent(s: State, e: Event, maxAttempts: int)
    requires maxAttempts >= 1 && Coherent(s, maxAttempts) && Enabled(s, e)
    ensures Coherent(Apply(s, e, maxAttempts), maxAttempts)
  {
    match e
    case AddAsset(asset, row) =>
      forall id | id in s.challenges
        ensures LifecycleOf(Apply(s, e, maxAttempts), id, maxAttempts)
      {
        assert LifecycleOf(s, id, maxAttempts);
      }
    case Create(_, _, _, _) => CreateIsCoherent(s, e, maxAttempts);
    case Verify(id, correct, now) =>
      if id in s.challenges {
        VerifyTouchesOnly(s, id, correct, now, maxAttempts);
        VerifyKeepsOwn(s, id, correct, now, maxAttempts);
        VerifyIsCoherent(s, Apply(s, e, maxAttempts), id, correct, maxAttempts);
      }
  }

  /**
   * In every run, for every challenge: attemptsCount is its number of attempt rows; pending means fewer
   * than the maximum, all wrong, asset reserved; passed means one success, the last, and the asset used
   * once; failed means exactly the maximum, all wrong, and the asset used once; expired leaves it reserved.
   */
  lemma {:induction false} LifecyclesHold(s: State, es: seq<Event>, maxAttempts: int)
    requires maxAttempts >= 1 && Coherent(s, maxAttempts) && Runs(s, es, maxAttempts)
    ensures Coherent(End(s, es, maxAttempts), maxAttempts)
    decreases |es|
  {
    if es != [] {
      StepIsCoherent(s, es[0], maxAttempts);
      LifecyclesHold(Apply(s, es[0], maxAttempts), es[1..], maxAttempts);
    }
  }

  /** The guards on the attempt count and on the asset never turn an answer away. */
  lemma OnlyClosedOrExpiredIsRefused(s: State, es: seq<Event>, maxAttempts: int, id: ChallengeId, correct: bool,
          now: Millis)
    requires maxAttempts >= 1 && Coherent(s, maxAttempts) && Runs(s, es, maxAttempts)
    requires id in End(s, es, maxAttempts).challenges
    ensures var t := End(s, es, maxAttempts); var c := t.challenges[id];
      var r := VerifyAnswer(t, id, correct, now, maxAttempts).1;
      && (r.Closed? <==> c.status != Pending)
      && (r.Gone? <==> c.status == Pending && c.expiresAt <= now)
      && (r.Answered? <==> c.status == Pending && c.expiresAt > now)
      && (r.Answered? ==> r.success == correct)
      && (r.Answered? ==> r.attemptsLeft as int == if correct then 0 else maxAttempts - 1 - |Results(t.attempts, id)|)
      && (r.Answered? ==>
            var after := VerifyAnswer(t, id, correct, now, maxAttempts).0;
            Results(after.attempts, id) == Results(t.attempts, id) + [correct])
  {
    LifecyclesHold(s, es, maxAttempts);
    assert LifecycleOf(End(s, es, maxAttempts), id, maxAttempts);
    VerifyKeepsOwn(End(s, es, maxAttempts), id, correct, now, maxAttempts);
    ResultsAppend(End(s, es, maxAttempts).attempts, Attempt(id, correct), id);
  }

  /** What stays of a closed challenge: its row, its attempts and its asset. */
  predicate SameClosed(s: State, t: State, id: ChallengeId)
    requires id in s.challenges
  {
    var asset := s.challenges[id].assetId;
    && id in t.challenges && t.challenges[id] == s.challenges[id]
    && Results(t.attempts, id) == Results(s.attempts, id)
    && asset in s.assets && asset in t.assets && t.assets[asset] == s.assets[asset]
  }

  lemma TouchedKeepsClosed(s: State, t: State, own: ChallengeId, correct: bool, maxAttempts: int, id: ChallengeId)
    requires own in s.challenges && TouchesOnly(s, t, own, correct)
    requires id in s.challenges && s.challenges[id].status != Pending && s.challenges[id].assetId in s.assets
    requires id != own ==> s.challenges[id].assetId != s.challenges[own].assetId
    ensures SameClosed(s, t, id)
  {
    ResultsAppend(s.attempts, Attempt(own, correct), id);
  }

  lemma StepKeepsClosed(s: State, e: Event, maxAttempts: int, id: ChallengeId)
    requires Coherent(s, maxAttempts) && Enabled(s, e)
    requires id in s.challenges && s.challenges[id].status != Pending
    ensures SameClosed(s, Apply(s, e, maxAttempts), id)
  {
    assert LifecycleOf(s, id, maxAttempts);
    if e.Verify? && e.challenge in s.challenges {
      VerifyTouchesOnly(s, e.challenge, e.correct, e.now, maxAttempts);
      TouchedKeepsClosed(s, Apply(s, e, maxAttempts), e.challenge, e.correct, maxAttempts, id);
    }
  }

  /** A closed challenge, its attempts and its asset never change again. */
  lemma {:induction false} ClosedIsFinal(s: State, es: seq<Event>, maxAttempts: int, id: ChallengeId)
    requires maxAttempts >= 1 && Coherent(s, maxAttempts) && Runs(s, es, maxAttempts)
    requires id in s.challenges && s.challenges[id].status != Pending
    ensures SameClosed(s, End(s, es, maxAttempts), id)
    decreases |es|
  {
    if es == [] {
      assert LifecycleOf(s, id, maxAttempts);
    } else {
      StepIsCoherent(s, es[0], maxAttempts);
      StepKeepsClosed(s, es[0], maxAttempts, id);
      ClosedIsFinal(Apply(s, es[0], maxAttempts), es[1..], maxAttempts, id);
    }
  }
}
