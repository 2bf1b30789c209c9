/**
 * Captcha verifications interleaved at every database statement: when no two verifications of one
 * challenge overlap its lifecycle holds as for atomic ones, and when they overlap it need not.
 */
module CaptchaInterleaving {
  import opened Accounts
  import opened CaptchaTypes
  import C = CaptchaChallenges

  type Pid = nat

  datatype Handler =
    | Asked(id: ChallengeId)
    /** A verification that has read its challenge. */
    | Fetched(id: ChallengeId, read: Challenge)
    /** A verification that found its challenge expired and is about to say so. */
    | Expiring(id: ChallengeId)
    /** A verification that found its challenge open, with `count` attempts. */
    | Admitted(id: ChallengeId, assetId: AssetId, count: nat)
    /** It has read the asset as reserved and compared the answer. */
    | Answering(id: ChallengeId, assetId: AssetId, count: nat, correct: bool)
    | Counted(id: ChallengeId, assetId: AssetId, count: nat, correct: bool)
    | Recorded(id: ChallengeId, assetId: AssetId, count: nat, correct: bool)
    | Completed(id: ChallengeId, assetId: AssetId, correct: bool)
    | Done(verdict: C.Verdict)
  {
    /** Between the read of the challenge and the last statement. */
    predicate IsActive() { !Asked? && !Done? }
  }

  datatype System = System(tables: C.State, handlers: map<Pid, Handler>, clock: Millis)

  datatype Label =
    | Ask(p: Pid, id: ChallengeId)
    /** `correct` is the comparison the handler makes, where it makes one. */
    | Act(p: Pid, correct: bool)
    | Tick(to: Millis)
    /** A new asset or a new challenge. */
    | Other(e: C.Event)

  predicate Enabled(s: System, l: Label) {
    match l
    case Ask(p, _) => p !in s.handlers
    case Act(p, _) => p in s.handlers
    case Tick(to) => s.clock <= to
    case Other(e) => !e.Verify? && C.Enabled(s.tables, e) && (e.Create? ==> e.now == s.clock)
  }

  function Left(count: nat, maxAttempts: int): nat {
    C.Max(0, maxAttempts - (count + 1))
  }

  function Increment(t: C.State, id: ChallengeId): C.State
    requires id in t.challenges
  {
    t.(challenges := t.challenges[id := t.challenges[id].(attemptsCount := t.challenges[id].attemptsCount + 1)])
  }

  /** One statement of one verification. Challenges are never removed: the updates find theirs. */
  function ActStep(t: C.State, h: Handler, now: Millis, correct: bool, maxAttempts: int): (C.State, Handler) {
    match h
    case Asked(id) => (t, if id in t.challenges then Fetched(id, t.challenges[id]) else Done(C.NotFound))
    case Fetched(id, c) =>
      (t,
       if c.status != Pending then Done(C.Closed)
       else if c.expiresAt <= now then Expiring(id)
       else if c.attemptsCount >= maxAttempts then Done(C.TooManyAttempts)
       else Admitted(id, c.assetId, c.attemptsCount))
    case Expiring(id) => (if id in t.challenges then C.Close(t, id, Expired) else t, Done(C.Gone))
    case Admitted(id, asset, count) =>
      (t,
       if asset !in t.assets || t.assets[asset].status != Reserved then Done(C.AssetNotReserved)
       else Answering(id, asset, count, correct))
    case Answering(id, asset, count, verdict) =>
      (if id in t.challenges then Increment(t, id) else t, Counted(id, asset, count, verdict))
    case Counted(id, asset, count, verdict) =>
      (t.(attempts := t.attempts + [Attempt(id, verdict)]),
       if verdict || Left(count, maxAttempts) == 0 then Recorded(id, asset, count, verdict)
       else Done(C.Answered(false, Left(count, maxAttempts))))
    case Recorded(id, asset, _, verdict) =>
      (if id in t.challenges then C.Close(t, id, if verdict then Passed else Failed) else t,
       Completed(id, asset, verdict))
    case Completed(_, asset, verdict) => (t.(assets := MarkUsed(t.assets, asset)), Done(C.Answered(verdict, 0)))
    case Done(_) => (t, h)
  }

  function Next(s: System, l: Label, maxAttempts: int): System
    requires Enabled(s, l)
  {
    match l
    case Ask(p, id) => s.(handlers := s.handlers[p := Asked(id)])
    case Act(p, correct) =>
      var (tables, h) := ActStep(s.tables, s.handlers[p], s.clock, correct, maxAttempts);
      s.(tables := tables, handlers := s.handlers[p := h])
    case Tick(to) => s.(clock := to)
    case Other(e) => s.(tables := C.Apply(s.tables, e, maxAttempts))
  }

  predicate Runs(s: System, ls: seq<Label>, maxAttempts: int)
    decreases |ls|
  {
    ls == [] || (Enabled(s, ls[0]) && Runs(Next(s, ls[0], maxAttempts), ls[1..], maxAttempts))
  }

  function End(s: System, ls: seq<Label>, maxAttempts: int): System
    requires Runs(s, ls, maxAttempts)
    decreases |ls|
  {
    if ls == [] then s else End(Next(s, ls[0], maxAttempts), ls[1..], maxAttempts)
  }

  // ---------- without overlap the lifecycle holds ----------

  predicate IsOn(h: Handler, id: ChallengeId) {
    h.IsActive() && h.id == id
  }

  predicate Overlap(h: Handler, k: Handler) {
    h.IsActive() && k.IsActive() && h.id == k.id
  }

  /** No two verifications of one challenge are active at once. */
  predicate Separate(s: System) {
    forall p, q :: p in s.handlers && q in s.handlers && Overlap(s.handlers[p], s.handlers[q]) ==> p == q
  }

  predicate SeparateThroughout(s: System, ls: seq<Label>, maxAttempts: int)
    requires Runs(s, ls, maxAttempts)
    decreases |ls|
  {
    Separate(s) && (ls == [] || SeparateThroughout(Next(s, ls[0], maxAttempts), ls[1..], maxAttempts))
  }

  predicate Untouched(a: Asset) {
    a.status == Reserved && a.usedCount == 0
  }

  /** What a verification alone on its challenge has done so far. */
  predicate Progress(h: Handler, c: Challenge, rs: seq<bool>, a: Asset, maxAttempts: int) {
    match h
    case Asked(_) => true
    case Done(_) => true
    case Fetched(_, read) => read == c && C.Lifecycle(c, rs, a, maxAttempts)
    case Expiring(_) => c.status == Pending && C.Lifecycle(c, rs, a, maxAttempts)
    case Admitted(_, asset, count) =>
      asset == c.assetId && count == |rs| && c.status == Pending && C.Lifecycle(c, rs, a, maxAttempts)
    case Answering(_, asset, count, _) =>
      asset == c.assetId && count == |rs| && c.status == Pending && C.Lifecycle(c, rs, a, maxAttempts)
    case Counted(_, asset, count, _) =>
      && asset == c.assetId && count == |rs| && c.status == Pending
      && c.attemptsCount == |rs| + 1 <= maxAttempts && C.AllWrong(rs) && Untouched(a)
    case Recorded(_, asset, count, correct) =>
      && asset == c.assetId && count + 1 == |rs| && c.status == Pending
      && EndsWith(c, rs, correct, maxAttempts) && Untouched(a)
    case Completed(_, asset, correct) =>
      && asset == c.assetId && c.status == (if correct then Passed else Failed)
      && EndsWith(c, rs, correct, maxAttempts) && Untouched(a)
  }

  /** The last attempt decides: it is right, or the last one allowed. */
  predicate EndsWith(c: Challenge, rs: seq<bool>, correct: bool, maxAttempts: int) {
    && 1 <= |rs| <= maxAttempts && c.attemptsCount == |rs|
    && rs[|rs| - 1] == correct && C.AllWrong(rs[..|rs| - 1])
    && (correct || |rs| == maxAttempts)
  }

  predicate ProgressOf(t: C.State, h: Handler, maxAttempts: int) {
    h.IsActive() ==>
      && h.id in t.challenges && t.challenges[h.id].assetId in t.assets
      && Progress(h, t.challenges[h.id], C.Results(t.attempts, h.id), t.assets[t.challenges[h.id].assetId], maxAttempts)
  }

  /** A challenge's own asset is in the table and not on offer. */
  predicate HoldsAsset(t: C.State, id: ChallengeId)
    requires id in t.challenges
  {
    var asset := t.challenges[id].assetId;
    asset in t.assets && t.assets[asset].status != Available
  }

  predicate TablesFit(t: C.State) {
    && (forall id :: id in t.challenges ==> HoldsAsset(t, id))
    && (forall id, other ::
          id in t.challenges && other in t.challenges && t.challenges[id].assetId == t.challenges[other].assetId ==>
            id == other)
    && (forall k :: 0 <= k < |t.attempts| ==> t.attempts[k].challengeId in t.challenges)
    && (forall a :: a in t.assets && t.assets[a].status == Available ==> t.assets[a].usedCount == 0)
  }

  predicate IsIdle(s: System, id: ChallengeId) {
    forall p :: p in s.handlers ==> !IsOn(s.handlers[p], id)
  }

  predicate Invariant(s: System, maxAttempts: int) {
    && TablesFit(s.tables)
    && (forall p :: p in s.handlers ==> ProgressOf(s.tables, s.handlers[p], maxAttempts))
    && (forall id :: id in s.tables.challenges && IsIdle(s, id) ==> C.LifecycleOf(s.tables, id, maxAttempts))
  }

  /** The verdict an attempt row inserted by this handler would hold. */
  predicate Verdict(h: Handler) {
    h.Counted? && h.correct
  }

  /** The challenge a verification is on and the asset it goes by. */
  predicate HandlerFits(t: C.State, h: Handler) {
    h.IsActive() ==>
      && h.id in t.challenges
      && match h
         case Fetched(id, read) => read.assetId == t.challenges[id].assetId
         case Admitted(id, asset, _) => asset == t.challenges[id].assetId
         case Answering(id, asset, _, _) => asset == t.challenges[id].assetId
         case Counted(id, asset, _, _) => asset == t.challenges[id].assetId
         case Recorded(id, asset, _, _) => asset == t.challenges[id].assetId
         case Completed(id, asset, _) => asset == t.challenges[id].assetId
         case _ => true
  }

  lemma ActTouches(t: C.State, h: Handler, now: Millis, correct: bool, maxAttempts: int)
    requires TablesFit(t) && h.IsActive() && HandlerFits(t, h)
    ensures C.Touches(t, ActStep(t, h, now, correct, maxAttempts).0, h.id, Verdict(h))
    ensures HoldsAsset(ActStep(t, h, now, correct, maxAttempts).0, h.id)
  {
    var t' := ActStep(t, h, now, correct, maxAttempts).0;
    assert HoldsAsset(t, h.id);
    assert t'.challenges == t.challenges[h.id := t'.challenges[h.id]];
  }

  lemma TouchingKeepsFit(t: C.State, t': C.State, id: ChallengeId, verdict: bool)
    requires TablesFit(t) && id in t.challenges && C.Touches(t, t', id, verdict) && HoldsAsset(t', id)
    ensures TablesFit(t')
  {
    forall other | other in t'.challenges
      ensures HoldsAsset(t', other)
    {
      assert HoldsAsset(t, other);
    }
  }

  lemma OtherProgressIsKept(t: C.State, t': C.State, id: ChallengeId, verdict: bool, h: Handler, maxAttempts: int)
    requires TablesFit(t) && id in t.challenges && C.Touches(t, t', id, verdict)
    requires ProgressOf(t, h, maxAttempts) && !IsOn(h, id)
    ensures ProgressOf(t', h, maxAttempts)
  {
    if h.IsActive() {
      C.ResultsAppend(t.attempts, Attempt(id, verdict), h.id);
    }
  }

  lemma AttemptEnds(c: Challenge, rs: seq<bool>, correct: bool, maxAttempts: int)
    requires c.attemptsCount == |rs| + 1 <= maxAttempts && C.AllWrong(rs)
    ensures correct || |rs| + 1 == maxAttempts ==> EndsWith(c, rs + [correct], correct, maxAttempts)
    ensures !correct ==> C.AllWrong(rs + [correct])
  {
    assert (rs + [correct])[..|rs|] == rs;
  }

  /** What one statement of a verification leaves of its progress; a last statement leaves a whole lifecycle. */
  predicate Advances(t: C.State, h: Handler, id: ChallengeId, maxAttempts: int) {
    && ProgressOf(t, h, maxAttempts)
    && !h.Asked? && (h.IsActive() ==> h.id == id)
    && (h.Done? ==> id in t.challenges && C.LifecycleOf(t, id, maxAttempts))
  }

  lemma InsertionAdvances(t: C.State, h: Handler, now: Millis, correct: bool, maxAttempts: int)
    requires h.Counted? && ProgressOf(t, h, maxAttempts)
    ensures var (t', h') := ActStep(t, h, now, correct, maxAttempts); Advances(t', h', h.id, maxAttempts)
  {
    var rs := C.Results(t.attempts, h.id);
    C.ResultsAppend(t.attempts, Attempt(h.id, h.correct), h.id);
    AttemptEnds(t.challenges[h.id], rs, h.correct, maxAttempts);
  }

  lemma ClosingAdvances(t: C.State, h: Handler, now: Millis, correct: bool, maxAttempts: int)
    requires (h.Recorded? || h.Completed?) && ProgressOf(t, h, maxAttempts)
    ensures var (t', h') := ActStep(t, h, now, correct, maxAttempts); Advances(t', h', h.id, maxAttempts)
  {
    if h.Completed? && !h.correct {
      var rs := C.Results(t.attempts, h.id);
      assert rs == rs[..|rs| - 1] + [rs[|rs| - 1]];
    }
  }

  /** One statement of a verification that is alone on its challenge. */
  lemma OwnProgress(t: C.State, h: Handler, now: Millis, correct: bool, maxAttempts: int)
    requires maxAttempts >= 1 && h.IsActive() && ProgressOf(t, h, maxAttempts)
    ensures var (t', h') := ActStep(t, h, now, correct, maxAttempts); Advances(t', h', h.id, maxAttempts)
  {
    if h.Counted? {
      InsertionAdvances(t, h, now, correct, maxAttempts);
    } else if h.Recorded? || h.Completed? {
      ClosingAdvances(t, h, now, correct, maxAttempts);
    }
  }

  /** One verification advances, alone on its challenge and touching nothing else. */
  lemma AdvanceKeepsInvariant(s: System, t: System, p: Pid, verdict: bool, maxAttempts: int)
    requires Invariant(s, maxAttempts) && p in s.handlers && s.handlers[p].IsActive()
    requires p in t.handlers && t.handlers == s.handlers[p := t.handlers[p]]
    requires var id := s.handlers[p].id;
      && id in s.tables.challenges && C.Touches(s.tables, t.tables, id, verdict)
      && HoldsAsset(t.tables, id) && Advances(t.tables, t.handlers[p], id, maxAttempts)
    requires Separate(s)
    ensures Invariant(t, maxAttempts)
  {
    var own := s.handlers[p].id;
    TouchingKeepsFit(s.tables, t.tables, own, verdict);
    forall q | q in t.handlers
      ensures ProgressOf(t.tables, t.handlers[q], maxAttempts)
    {
      if q != p {
        OtherProgressIsKept(s.tables, t.tables, own, verdict, s.handlers[q], maxAttempts);
      }
    }
    forall id | id in t.tables.challenges && IsIdle(t, id)
      ensures C.LifecycleOf(t.tables, id, maxAttempts)
    {
      if id == own {
        assert !IsOn(t.handlers[p], id);
      } else {
        IdleBefore(s, t, p, id);
        C.OthersAreKept(s.tables, t.tables, own, verdict, maxAttempts, id);
      }
    }
  }

  lemma ActKeepsInvariant(s: System, l: Label, maxAttempts: int)
    requires maxAttempts >= 1 && Invariant(s, maxAttempts) && l.Act? && Enabled(s, l) && s.handlers[l.p].IsActive()
    requires Separate(s)
    ensures Invariant(Next(s, l, maxAttempts), maxAttempts)
  {
    var h := s.handlers[l.p];
    ProgressFits(s.tables, h, maxAttempts);
    ActTouches(s.tables, h, s.clock, l.correct, maxAttempts);
    OwnProgress(s.tables, h, s.clock, l.correct, maxAttempts);
    AdvanceKeepsInvariant(s, Next(s, l, maxAttempts), l.p, Verdict(h), maxAttempts);
  }

  lemma ProgressFits(t: C.State, h: Handler, maxAttempts: int)
    requires ProgressOf(t, h, maxAttempts)
    ensures HandlerFits(t, h)
  {
  }

  lemma IdleBefore(s: System, t: System, p: Pid, id: ChallengeId)
    requires p in s.handlers && p in t.handlers && t.handlers == s.handlers[p := t.handlers[p]]
    requires !IsOn(s.handlers[p], id) && IsIdle(t, id)
    ensures IsIdle(s, id)
  {
    forall q | q in s.handlers
      ensures !IsOn(s.handlers[q], id)
    {
      assert q == p || t.handlers[q] == s.handlers[q];
      assert !IsOn(t.handlers[q], id);
    }
  }

  /** The read of a challenge, on which nobody else is then active. */
  lemma ReadKeepsInvariant(s: System, l: Label, maxAttempts: int)
    requires maxAttempts >= 1 && Invariant(s, maxAttempts) && l.Act? && Enabled(s, l) && !s.handlers[l.p].IsActive()
    requires Separate(Next(s, l, maxAttempts))
    ensures Invariant(Next(s, l, maxAttempts), maxAttempts)
  {
    var t := Next(s, l, maxAttempts);
    assert t.tables == s.tables;
    if t.handlers[l.p].IsActive() {
      var id := t.handlers[l.p].id;
      forall p | p in s.handlers
        ensures !IsOn(s.handlers[p], id)
      {
        if p != l.p { assert t.handlers[p] == s.handlers[p]; }
      }
      assert IsIdle(s, id);
      assert C.LifecycleOf(s.tables, id, maxAttempts);
    }
    forall id | id in t.tables.challenges && IsIdle(t, id)
      ensures C.LifecycleOf(t.tables, id, maxAttempts)
    {
      forall p | p in s.handlers
        ensures !IsOn(s.handlers[p], id)
      {
        assert p == l.p || t.handlers[p] == s.handlers[p];
        assert !IsOn(t.handlers[p], id);
      }
      assert IsIdle(s, id);
    }
  }

  /** A new asset or challenge leaves every earlier challenge, its attempts and its asset as they were. */
  lemma OtherKeepsChallenges(t: C.State, e: C.Event, maxAttempts: int)
    requires TablesFit(t) && !e.Verify? && C.Enabled(t, e)
    ensures var t' := C.Apply(t, e, maxAttempts);
      t'.attempts == t.attempts && forall id :: id in t.challenges ==>
        && id in t'.challenges && t'.challenges[id] == t.challenges[id]
        && t.challenges[id].assetId in t.assets && t.challenges[id].assetId in t'.assets
        && t'.assets[t.challenges[id].assetId] == t.assets[t.challenges[id].assetId]
  {
    forall id | id in t.challenges
      ensures t.challenges[id].assetId in t.assets && t.assets[t.challenges[id].assetId].status != Available
    {
      assert HoldsAsset(t, id);
    }
  }

  lemma OtherKeepsFit(t: C.State, e: C.Event, maxAttempts: int)
    requires TablesFit(t) && !e.Verify? && C.Enabled(t, e)
    ensures TablesFit(C.Apply(t, e, maxAttempts))
  {
    OtherKeepsChallenges(t, e, maxAttempts);
    var t' := C.Apply(t, e, maxAttempts);
    forall id | id in t'.challenges
      ensures HoldsAsset(t', id)
    {
      if id in t.challenges {
        assert HoldsAsset(t, id);
      }
    }
  }

  lemma OtherKeepsInvariant(s: System, l: Label, maxAttempts: int)
    requires maxAttempts >= 1 && Invariant(s, maxAttempts) && l.Other? && Enabled(s, l)
    ensures Invariant(Next(s, l, maxAttempts), maxAttempts)
  {
    var t := Next(s, l, maxAttempts);
    OtherKeepsFit(s.tables, l.e, maxAttempts);
    OtherKeepsChallenges(s.tables, l.e, maxAttempts);
    forall p | p in t.handlers
      ensures ProgressOf(t.tables, t.handlers[p], maxAttempts)
    {
      assert ProgressOf(s.tables, s.handlers[p], maxAttempts);
    }
    forall id | id in t.tables.challenges && IsIdle(t, id)
      ensures C.LifecycleOf(t.tables, id, maxAttempts)
    {
      if id in s.tables.challenges {
        assert IsIdle(s, id);
        assert C.LifecycleOf(s.tables, id, maxAttempts);
      } else {
        C.NoAttemptsYet(s.tables.attempts, id);
      }
    }
  }

  lemma AskKeepsInvariant(s: System, l: Label, maxAttempts: int)
    requires Invariant(s, maxAttempts) && l.Ask? && Enabled(s, l)
    ensures Invariant(Next(s, l, maxAttempts), maxAttempts)
  {
    var t := Next(s, l, maxAttempts);
    forall id | id in t.tables.challenges && IsIdle(t, id)
      ensures C.LifecycleOf(t.tables, id, maxAttempts)
    {
      forall p | p in s.handlers
        ensures !IsOn(s.handlers[p], id)
      {
        assert t.handlers[p] == s.handlers[p];
        assert !IsOn(t.handlers[p], id);
      }
      assert IsIdle(s, id);
    }
  }

  lemma {:induction false} InvariantThroughout(s: System, ls: seq<Label>, maxAttempts: int)
    requires maxAttempts >= 1 && Invariant(s, maxAttempts) && Runs(s, ls, maxAttempts)
    requires SeparateThroughout(s, ls, maxAttempts)
    ensures Invariant(End(s, ls, maxAttempts), maxAttempts)
    decreases |ls|
  {
    if ls != [] {
      var t := Next(s, ls[0], maxAttempts);
      assert SeparateThroughout(t, ls[1..], maxAttempts);
      if ls[0].Ask? {
        AskKeepsInvariant(s, ls[0], maxAttempts);
      } else if ls[0].Other? {
        OtherKeepsInvariant(s, ls[0], maxAttempts);
      } else if ls[0].Tick? {
        assert forall id :: IsIdle(t, id) ==> IsIdle(s, id);
      } else if s.handlers[ls[0].p].IsActive() {
        ActKeepsInvariant(s, ls[0], maxAttempts);
      } else {
        ReadKeepsInvariant(s, ls[0], maxAttempts);
      }
      InvariantThroughout(Next(s, ls[0], maxAttempts), ls[1..], maxAttempts);
    }
  }

  /** Nothing is under way. */
  function Idle(t: C.State, clock: Millis): System {
    System(t, map[], clock)
  }

  lemma CoherentTablesFit(t: C.State, clock: Millis, maxAttempts: int)
    requires C.Coherent(t, maxAttempts)
    ensures Invariant(Idle(t, clock), maxAttempts)
  {
    forall id | id in t.challenges
      ensures HoldsAsset(t, id)
    {
      assert C.LifecycleOf(t, id, maxAttempts);
    }
  }

  /**
   * In every run, with any number of verifications at once, in which no two of the same challenge
   * overlap: a challenge on which none is under way is as the lifecycle says.
   */
  lemma LifecyclesHoldWithoutOverlap(t: C.State, clock: Millis, ls: seq<Label>, maxAttempts: int, id: ChallengeId)
    requires maxAttempts >= 1 && C.Coherent(t, maxAttempts)
    requires Runs(Idle(t, clock), ls, maxAttempts) && SeparateThroughout(Idle(t, clock), ls, maxAttempts)
    requires var e := End(Idle(t, clock), ls, maxAttempts); id in e.tables.challenges && IsIdle(e, id)
    ensures C.LifecycleOf(End(Idle(t, clock), ls, maxAttempts).tables, id, maxAttempts)
  {
    CoherentTablesFit(t, clock, maxAttempts);
    InvariantThroughout(Idle(t, clock), ls, maxAttempts);
  }

  // ---------- the atomic verification is one of the interleavings ----------

  lemma Prepend(t: System, rest: seq<Label>, s: System, l: Label, maxAttempts: int) returns (ls: seq<Label>)
    requires Enabled(s, l) && Next(s, l, maxAttempts) == t && Runs(t, rest, maxAttempts)
    ensures ls == [l] + rest && Runs(s, ls, maxAttempts) && End(s, ls, maxAttempts) == End(t, rest, maxAttempts)
  {
    ls := [l] + rest;
    assert ls[1..] == rest;
  }

  predicate StepsOf(ls: seq<Label>, p: Pid) {
    forall k :: 0 <= k < |ls| ==> (ls[k].Ask? || ls[k].Act?) && ls[k].p == p
  }

  /** What is left to do once the answer has been compared. */
  function Finish(t: C.State, h: Handler, maxAttempts: int): (C.State, C.Verdict)
    requires h.Answering? && h.id in t.challenges
  {
    var counted := Increment(t, h.id).(attempts := t.attempts + [Attempt(h.id, h.correct)]);
    if h.correct || Left(h.count, maxAttempts) == 0 then
      (C.Close(counted, h.id, if h.correct then Passed else Failed).(assets := MarkUsed(t.assets, h.assetId)),
       C.Answered(h.correct, 0))
    else (counted, C.Answered(false, Left(h.count, maxAttempts)))
  }

  lemma FinishAlone(s: System, p: Pid, maxAttempts: int) returns (ls: seq<Label>)
    requires p in s.handlers && s.handlers[p].Answering? && s.handlers[p].id in s.tables.challenges
    ensures Runs(s, ls, maxAttempts) && StepsOf(ls, p)
    ensures var (t, verdict) := Finish(s.tables, s.handlers[p], maxAttempts);
      End(s, ls, maxAttempts) == s.(tables := t, handlers := s.handlers[p := Done(verdict)])
  {
    var h := s.handlers[p];
    var act := Act(p, true);
    var s1 := Next(s, act, maxAttempts);
    var s2 := Next(s1, act, maxAttempts);
    ls := [];
    if h.correct || Left(h.count, maxAttempts) == 0 {
      var s3 := Next(s2, act, maxAttempts);
      var s4 := Next(s3, act, maxAttempts);
      assert s4.handlers == s.handlers[p := Done(C.Answered(h.correct, 0))];
      ls := Prepend(s4, [], s3, act, maxAttempts);
      ls := Prepend(s3, ls, s2, act, maxAttempts);
    } else {
      assert s2.handlers == s.handlers[p := Done(C.Answered(false, Left(h.count, maxAttempts)))];
    }
    ls := Prepend(s2, ls, s1, act, maxAttempts);
    ls := Prepend(s1, ls, s, act, maxAttempts);
  }

  /** The read of an open challenge and of its asset. */
  lemma ReadAlone(s: System, p: Pid, id: ChallengeId, correct: bool, maxAttempts: int) returns (ls: seq<Label>)
    requires p !in s.handlers && IsOpen(s.tables, id, s.clock, maxAttempts)
    ensures Runs(s, ls, maxAttempts) && StepsOf(ls, p)
    ensures var c := s.tables.challenges[id];
      End(s, ls, maxAttempts) == s.(handlers := s.handlers[p := Answering(id, c.assetId, c.attemptsCount, correct)])
  {
    var act := Act(p, correct);
    var c := s.tables.challenges[id];
    var s1 := Next(s, Ask(p, id), maxAttempts);
    var s2 := Next(s1, act, maxAttempts);
    var s3 := Next(s2, act, maxAttempts);
    var s4 := Next(s3, act, maxAttempts);
    assert s4.handlers == s.handlers[p := Answering(id, c.assetId, c.attemptsCount, correct)];
    ls := Prepend(s4, [], s3, act, maxAttempts);
    ls := Prepend(s3, ls, s2, act, maxAttempts);
    ls := Prepend(s2, ls, s1, act, maxAttempts);
    ls := Prepend(s1, ls, s, Ask(p, id), maxAttempts);
  }

  /** A verification would count an answer. */
  predicate IsOpen(t: C.State, id: ChallengeId, now: Millis, maxAttempts: int) {
    id in t.challenges &&
    var c := t.challenges[id];
    && c.status == Pending && now < c.expiresAt && c.attemptsCount < maxAttempts
    && c.assetId in t.assets && t.assets[c.assetId].status == Reserved
  }

  lemma {:induction false} RunsJoin(s: System, first: seq<Label>, rest: seq<Label>, maxAttempts: int)
    requires Runs(s, first, maxAttempts) && Runs(End(s, first, maxAttempts), rest, maxAttempts)
    ensures Runs(s, first + rest, maxAttempts)
    ensures End(s, first + rest, maxAttempts) == End(End(s, first, maxAttempts), rest, maxAttempts)
    decreases |first|
  {
    if first == [] {
      assert first + rest == rest;
    } else {
      RunsJoin(Next(s, first[0], maxAttempts), first[1..], rest, maxAttempts);
      assert (first + rest)[1..] == first[1..] + rest;
    }
  }

  /** The statements of a refused verification. */
  lemma RefusedAlone(s: System, p: Pid, id: ChallengeId, maxAttempts: int) returns (ls: seq<Label>)
    requires p !in s.handlers && !IsOpen(s.tables, id, s.clock, maxAttempts)
    ensures Runs(s, ls, maxAttempts) && StepsOf(ls, p)
    ensures forall correct :: var (t, verdict) := C.VerifyAnswer(s.tables, id, correct, s.clock, maxAttempts);
      End(s, ls, maxAttempts) == s.(tables := t, handlers := s.handlers[p := Done(verdict)])
  {
    var act := Act(p, false);
    var s1 := Next(s, Ask(p, id), maxAttempts);
    var s2 := Next(s1, act, maxAttempts);
    assert s2.handlers == s.handlers[p := s2.handlers[p]];
    ls := [];
    if s2.handlers[p].IsActive() {
      var s3 := Next(s2, act, maxAttempts);
      assert s3.handlers == s.handlers[p := s3.handlers[p]];
      if s3.handlers[p].IsActive() {
        var s4 := Next(s3, act, maxAttempts);
        assert s4.handlers == s.handlers[p := s4.handlers[p]];
        ls := Prepend(s4, [], s3, act, maxAttempts);
      }
      ls := Prepend(s3, ls, s2, act, maxAttempts);
    }
    ls := Prepend(s2, ls, s1, act, maxAttempts);
    ls := Prepend(s1, ls, s, Ask(p, id), maxAttempts);
  }

  /** The statements of one verification, run without interference, do and answer what the atomic one does. */
  lemma VerifyAlone(s: System, p: Pid, id: ChallengeId, correct: bool, maxAttempts: int) returns (ls: seq<Label>)
    requires p !in s.handlers
    ensures Runs(s, ls, maxAttempts) && StepsOf(ls, p)
    ensures var (t, verdict) := C.VerifyAnswer(s.tables, id, correct, s.clock, maxAttempts);
      End(s, ls, maxAttempts) == s.(tables := t, handlers := s.handlers[p := Done(verdict)])
  {
    if IsOpen(s.tables, id, s.clock, maxAttempts) {
      var first := ReadAlone(s, p, id, correct, maxAttempts);
      var s1 := End(s, first, maxAttempts);
      var rest := FinishAlone(s1, p, maxAttempts);
      RunsJoin(s, first, rest, maxAttempts);
      ls := first + rest;
      FinishIsVerify(s.tables, s1.handlers[p], id, correct, s.clock, maxAttempts);
    } else {
      ls := RefusedAlone(s, p, id, maxAttempts);
    }
  }

  lemma FinishIsVerify(t: C.State, h: Handler, id: ChallengeId, correct: bool, now: Millis, maxAttempts: int)
    requires IsOpen(t, id, now, maxAttempts)
    requires var c := t.challenges[id]; h == Answering(id, c.assetId, c.attemptsCount, correct)
    ensures Finish(t, h, maxAttempts) == C.VerifyAnswer(t, id, correct, now, maxAttempts)
  {
  }

  // ---------- with overlap it need not ----------

  /** n new verifications of one open challenge, all of them past their reads, with wrong answers. */
  lemma {:induction false} AllRead(s: System, id: ChallengeId, n: nat, maxAttempts: int) returns (ls: seq<Label>)
    requires IsOpen(s.tables, id, s.clock, maxAttempts) && forall p: nat :: p < n ==> p !in s.handlers
    ensures Runs(s, ls, maxAttempts)
    ensures End(s, ls, maxAttempts).tables == s.tables && End(s, ls, maxAttempts).clock == s.clock
    ensures forall p: nat :: p >= n ==> (p in End(s, ls, maxAttempts).handlers <==> p in s.handlers)
    ensures var c := s.tables.challenges[id]; var e := End(s, ls, maxAttempts);
      forall p: nat :: p < n ==>
        p in e.handlers && e.handlers[p] == Answering(id, c.assetId, c.attemptsCount, false)
  {
    if n == 0 {
      ls := [];
    } else {
      var first := AllRead(s, id, n - 1, maxAttempts);
      var t := End(s, first, maxAttempts);
      var rest := ReadAlone(t, n - 1, id, false, maxAttempts);
      RunsJoin(s, first, rest, maxAttempts);
      ls := first + rest;
    }
  }

  lemma FinishCounts(t: C.State, h: Handler, maxAttempts: int)
    requires h.Answering? && h.id in t.challenges
    ensures var (t', verdict) := Finish(t, h, maxAttempts);
      && h.id in t'.challenges && t'.challenges[h.id].attemptsCount == t.challenges[h.id].attemptsCount + 1
      && |C.Results(t'.attempts, h.id)| == |C.Results(t.attempts, h.id)| + 1 && verdict.Answered?
  {
    C.ResultsAppend(t.attempts, Attempt(h.id, h.correct), h.id);
  }

  /** The first n processes have compared answers for the challenge. */
  predicate AllAnswering(s: System, id: ChallengeId, n: nat) {
    forall p: nat :: p < n ==> p in s.handlers && s.handlers[p].Answering? && s.handlers[p].id == id
  }

  predicate AllAnswered(s: System, n: nat) {
    forall p: nat :: p < n ==> p in s.handlers && s.handlers[p].Done? && s.handlers[p].verdict.Answered?
  }

  /** The handlers from n on are the same. */
  ghost predicate SameFrom(s: System, t: System, n: nat) {
    forall p: nat :: p >= n ==>
      (p in t.handlers <==> p in s.handlers) && (p in s.handlers ==> t.handlers[p] == s.handlers[p])
  }

  lemma OneLessAnswering(s: System, e: System, id: ChallengeId, n: nat, verdict: C.Verdict)
    requires n > 0 && AllAnswering(s, id, n) && verdict.Answered?
    requires e.handlers == s.handlers[n - 1 := Done(verdict)]
    ensures AllAnswering(e, id, n - 1) && SameFrom(s, e, n)
    ensures n - 1 in e.handlers && e.handlers[n - 1].Done? && e.handlers[n - 1].verdict.Answered?
  {
  }

  /** The last of them finishes, and its answer is counted. */
  lemma OneCounted(s: System, id: ChallengeId, n: nat, maxAttempts: int) returns (ls: seq<Label>)
    requires n > 0 && id in s.tables.challenges && AllAnswering(s, id, n)
    ensures Runs(s, ls, maxAttempts) && id in End(s, ls, maxAttempts).tables.challenges
    ensures var e := End(s, ls, maxAttempts);
      && |C.Results(e.tables.attempts, id)| == |C.Results(s.tables.attempts, id)| + 1
      && AllAnswering(e, id, n - 1) && SameFrom(s, e, n)
      && n - 1 in e.handlers && e.handlers[n - 1].Done? && e.handlers[n - 1].verdict.Answered?
  {
    ls := FinishAlone(s, n - 1, maxAttempts);
    FinishCounts(s.tables, s.handlers[n - 1], maxAttempts);
    OneLessAnswering(s, End(s, ls, maxAttempts), id, n, Finish(s.tables, s.handlers[n - 1], maxAttempts).1);
  }

  lemma SameFromJoins(s: System, t: System, e: System, n: nat)
    requires n > 0 && SameFrom(s, t, n) && SameFrom(t, e, n - 1) && AllAnswered(e, n - 1)
    requires n - 1 in t.handlers && t.handlers[n - 1].Done? && t.handlers[n - 1].verdict.Answered?
    ensures SameFrom(s, e, n) && AllAnswered(e, n)
  {
  }

  /** Each of them is counted, whatever the others have made of the challenge meanwhile. */
  lemma {:induction false} AllCounted(s: System, id: ChallengeId, n: nat, maxAttempts: int) returns (ls: seq<Label>)
    requires id in s.tables.challenges && AllAnswering(s, id, n)
    ensures Runs(s, ls, maxAttempts)
    ensures id in End(s, ls, maxAttempts).tables.challenges
    ensures var e := End(s, ls, maxAttempts);
      && |C.Results(e.tables.attempts, id)| == |C.Results(s.tables.attempts, id)| + n
      && AllAnswered(e, n) && SameFrom(s, e, n)
    decreases n
  {
    ls := [];
    if n > 0 {
      var first := OneCounted(s, id, n, maxAttempts);
      var t := End(s, first, maxAttempts);
      var rest := AllCounted(t, id, n - 1, maxAttempts);
      SameFromJoins(s, t, End(t, rest, maxAttempts), n);
      RunsJoin(s, first, rest, maxAttempts);
      ls := first + rest;
    }
  }

  predicate AllDone(s: System) {
    forall p :: p in s.handlers ==> s.handlers[p].Done?
  }

  /**
   * Overlapping answers are all counted: every open challenge can get any number n of further attempts,
   * and with more than the maximum its lifecycle is broken while nothing is under way.
   */
  lemma OverlappingAnswersAreAllCounted(t: C.State, clock: Millis, id: ChallengeId, n: nat, maxAttempts: int)
    returns (ls: seq<Label>)
    requires IsOpen(t, id, clock, maxAttempts)
    ensures Runs(Idle(t, clock), ls, maxAttempts)
    ensures var e := End(Idle(t, clock), ls, maxAttempts);
      && id in e.tables.challenges
      && |C.Results(e.tables.attempts, id)| == |C.Results(t.attempts, id)| + n
      && AllAnswered(e, n) && AllDone(e)
      && (n > maxAttempts ==> !C.LifecycleOf(e.tables, id, maxAttempts))
  {
    var s := Idle(t, clock);
    var first := AllRead(s, id, n, maxAttempts);
    var rest := AllCounted(End(s, first, maxAttempts), id, n, maxAttempts);
    RunsJoin(s, first, rest, maxAttempts);
    ls := first + rest;
  }

  /** Even two right answers do it, wherever two verifications of a challenge are past their reads at once. */
  lemma TwoRightAnswersBreakTheLifecycle(s: System, p: Pid, q: Pid, maxAttempts: int) returns (ls: seq<Label>)
    requires p != q && p in s.handlers && q in s.handlers
    requires s.handlers[p].Answering? && s.handlers[p].correct && s.handlers[q] == s.handlers[p]
    requires s.handlers[p].id in s.tables.challenges && s.handlers[p].assetId in s.tables.assets
    ensures Runs(s, ls, maxAttempts)
    ensures var e := End(s, ls, maxAttempts); var h := s.handlers[p];
      && e.handlers == s.handlers[p := Done(C.Answered(true, 0))][q := Done(C.Answered(true, 0))]
      && h.assetId in e.tables.assets
      && e.tables.assets[h.assetId].usedCount == s.tables.assets[h.assetId].usedCount + 2
      && h.id in e.tables.challenges && !C.LifecycleOf(e.tables, h.id, maxAttempts)
  {
    var h := s.handlers[p];
    var first := FinishAlone(s, p, maxAttempts);
    var t := End(s, first, maxAttempts);
    var rest := FinishAlone(t, q, maxAttempts);
    RunsJoin(s, first, rest, maxAttempts);
    ls := first + rest;
    var before := C.Results(s.tables.attempts, h.id);
    C.ResultsAppend(s.tables.attempts, Attempt(h.id, true), h.id);
    C.ResultsAppend(t.tables.attempts, Attempt(h.id, true), h.id);
    var rs := before + [true] + [true];
    assert rs[..|rs| - 1][|before|];
  }

  // ---------- which challenges are out of danger ----------

  /** Whatever overlaps: verifications go by the assets of their challenges. */
  predicate Fits(s: System) {
    TablesFit(s.tables) && forall p :: p in s.handlers ==> HandlerFits(s.tables, s.handlers[p])
  }

  lemma TouchedFits(t: C.State, t': C.State, own: ChallengeId, verdict: bool, h: Handler)
    requires own in t.challenges && C.Touches(t, t', own, verdict) && HandlerFits(t, h)
    ensures HandlerFits(t', h)
  {
  }

  lemma OwnFits(t: C.State, h: Handler, now: Millis, correct: bool, maxAttempts: int)
    requires HandlerFits(t, h)
    ensures var (t', h') := ActStep(t, h, now, correct, maxAttempts); HandlerFits(t', h')
  {
  }

  lemma ActFits(s: System, l: Label, maxAttempts: int)
    requires Fits(s) && l.Act? && Enabled(s, l)
    ensures Fits(Next(s, l, maxAttempts))
  {
    var t := Next(s, l, maxAttempts);
    var h := s.handlers[l.p];
    OwnFits(s.tables, h, s.clock, l.correct, maxAttempts);
    if h.IsActive() {
      ActTouches(s.tables, h, s.clock, l.correct, maxAttempts);
      TouchingKeepsFit(s.tables, t.tables, h.id, Verdict(h));
    }
    forall p | p in t.handlers && p != l.p
      ensures HandlerFits(t.tables, t.handlers[p])
    {
      assert HandlerFits(s.tables, s.handlers[p]);
      if h.IsActive() {
        TouchedFits(s.tables, t.tables, h.id, Verdict(h), s.handlers[p]);
      }
    }
  }

  lemma StepFits(s: System, l: Label, maxAttempts: int)
    requires Fits(s) && Enabled(s, l)
    ensures Fits(Next(s, l, maxAttempts))
  {
    if l.Act? {
      ActFits(s, l, maxAttempts);
    } else if l.Other? {
      OtherKeepsFit(s.tables, l.e, maxAttempts);
      OtherKeepsChallenges(s.tables, l.e, maxAttempts);
    }
    var t := Next(s, l, maxAttempts);
    forall p | p in t.handlers
      ensures HandlerFits(t.tables, t.handlers[p])
    {
      assert p in s.handlers ==> HandlerFits(s.tables, s.handlers[p]);
    }
  }

  /** No answer is counted any more by whoever reads it so. */
  predicate IsOver(c: Challenge, clock: Millis) {
    c.status != Pending || c.expiresAt <= clock
  }

  /** A verification of the challenge that can at most mark it as expired, where it is pending or so marked. */
  predicate IsHarmless(h: Handler, c: Challenge, clock: Millis) {
    match h
    case Asked(_) => true
    case Done(_) => true
    case Fetched(_, read) => IsOver(read, clock) && (read.status == Pending ==> c.status in {Pending, Expired})
    case Expiring(_) => c.status in {Pending, Expired}
    case _ => false
  }

  /** The challenge is over, and nobody under way has taken it for open. */
  predicate IsSpent(s: System, id: ChallengeId) {
    && id in s.tables.challenges && IsOver(s.tables.challenges[id], s.clock)
    && forall p :: p in s.handlers && IsOn(s.handlers[p], id) ==>
         IsHarmless(s.handlers[p], s.tables.challenges[id], s.clock)
  }

  /** The challenge has at most been marked as expired; its attempts and its asset are the same. */
  predicate SameButExpired(before: C.State, after: C.State, id: ChallengeId)
    requires id in before.challenges
  {
    var c := before.challenges[id];
    && id in after.challenges
    && (after.challenges[id] == c || (c.status == Pending && after.challenges[id] == c.(status := Expired)))
    && C.Results(after.attempts, id) == C.Results(before.attempts, id)
    && c.assetId in before.assets && c.assetId in after.assets && after.assets[c.assetId] == before.assets[c.assetId]
  }

  lemma OthersLeaveIt(t: C.State, t': C.State, own: ChallengeId, verdict: bool, id: ChallengeId)
    requires TablesFit(t) && own in t.challenges && C.Touches(t, t', own, verdict)
    requires id in t.challenges && id != own
    ensures SameButExpired(t, t', id) && t'.challenges[id] == t.challenges[id]
  {
    assert HoldsAsset(t, id);
    C.ResultsAppend(t.attempts, Attempt(own, verdict), id);
  }

  lemma ActOnSpent(s: System, l: Label, maxAttempts: int, id: ChallengeId)
    requires Fits(s) && l.Act? && Enabled(s, l) && IsSpent(s, id)
    ensures SameButExpired(s.tables, Next(s, l, maxAttempts).tables, id)
    ensures IsSpent(Next(s, l, maxAttempts), id)
  {
    var t := Next(s, l, maxAttempts);
    var h := s.handlers[l.p];
    assert HoldsAsset(s.tables, id);
    if h.IsActive() && h.id != id {
      ActTouches(s.tables, h, s.clock, l.correct, maxAttempts);
      OthersLeaveIt(s.tables, t.tables, h.id, Verdict(h), id);
    } else if h.IsActive() {
      assert IsHarmless(h, s.tables.challenges[id], s.clock);
    }
    forall p | p in t.handlers && IsOn(t.handlers[p], id)
      ensures IsHarmless(t.handlers[p], t.tables.challenges[id], t.clock)
    {
      assert p in s.handlers && (p != l.p ==> IsOn(s.handlers[p], id));
    }
  }

  lemma StepOnSpent(s: System, l: Label, maxAttempts: int, id: ChallengeId)
    requires Fits(s) && Enabled(s, l) && IsSpent(s, id)
    ensures SameButExpired(s.tables, Next(s, l, maxAttempts).tables, id)
    ensures IsSpent(Next(s, l, maxAttempts), id)
  {
    var t := Next(s, l, maxAttempts);
    assert HoldsAsset(s.tables, id);
    if l.Act? {
      ActOnSpent(s, l, maxAttempts, id);
    } else {
      if l.Other? {
        OtherKeepsChallenges(s.tables, l.e, maxAttempts);
      }
      forall p | p in t.handlers && IsOn(t.handlers[p], id)
        ensures IsHarmless(t.handlers[p], t.tables.challenges[id], t.clock)
      {
        assert p in s.handlers && IsOn(s.handlers[p], id);
      }
    }
  }

  /** Whatever runs and overlaps: a challenge that is over changes at most from pending to expired. */
  lemma {:induction false} SpentThroughout(s: System, ls: seq<Label>, maxAttempts: int, id: ChallengeId)
    requires Fits(s) && IsSpent(s, id) && Runs(s, ls, maxAttempts)
    ensures SameButExpired(s.tables, End(s, ls, maxAttempts).tables, id)
    decreases |ls|
  {
    assert HoldsAsset(s.tables, id);
    if ls != [] {
      StepFits(s, ls[0], maxAttempts);
      StepOnSpent(s, ls[0], maxAttempts, id);
      SpentThroughout(Next(s, ls[0], maxAttempts), ls[1..], maxAttempts, id);
    }
  }

  /**
   * Statement level, overlaps included: a closed challenge on which no verification is under way keeps
   * its row, its attempts and its asset in every run.
   */
  lemma ClosedIsFinal(s: System, ls: seq<Label>, maxAttempts: int, id: ChallengeId)
    requires Fits(s) && Runs(s, ls, maxAttempts)
    requires id in s.tables.challenges && s.tables.challenges[id].status != Pending && IsIdle(s, id)
    ensures C.SameClosed(s.tables, End(s, ls, maxAttempts).tables, id)
  {
    SpentThroughout(s, ls, maxAttempts, id);
  }

  ghost predicate CanBreak(t: C.State, clock: Millis, id: ChallengeId, maxAttempts: int) {
    var s := Idle(t, clock);
    exists ls :: Runs(s, ls, maxAttempts) && BreaksAtRest(End(s, ls, maxAttempts), id, maxAttempts)
  }

  predicate BreaksAtRest(s: System, id: ChallengeId, maxAttempts: int) {
    AllDone(s) && id in s.tables.challenges && !C.LifecycleOf(s.tables, id, maxAttempts)
  }

  lemma OpenCanBreak(t: C.State, clock: Millis, id: ChallengeId, maxAttempts: int)
    requires C.Coherent(t, maxAttempts) && maxAttempts >= 1
    requires id in t.challenges && !IsOver(t.challenges[id], clock)
    ensures CanBreak(t, clock, id, maxAttempts)
  {
    assert C.LifecycleOf(t, id, maxAttempts);
    var ls := OverlappingAnswersAreAllCounted(t, clock, id, maxAttempts + 1, maxAttempts);
    assert BreaksAtRest(End(Idle(t, clock), ls, maxAttempts), id, maxAttempts);
  }

  /** A challenge marked as expired says the same about its attempts and its asset as a pending one. */
  lemma SameLifecycle(t: C.State, t': C.State, id: ChallengeId, maxAttempts: int)
    requires id in t.challenges && SameButExpired(t, t', id) && C.LifecycleOf(t, id, maxAttempts)
    ensures C.LifecycleOf(t', id, maxAttempts)
  {
  }

  /**
   * From coherent tables with nothing under way: some run, overlaps included, that ends with every
   * verification done breaks the lifecycle of a challenge if and only if it is pending and unexpired.
   */
  lemma CanBreakIff(t: C.State, clock: Millis, id: ChallengeId, maxAttempts: int)
    requires C.Coherent(t, maxAttempts) && maxAttempts >= 1 && id in t.challenges
    ensures CanBreak(t, clock, id, maxAttempts) <==>
      t.challenges[id].status == Pending && clock < t.challenges[id].expiresAt
  {
    if !IsOver(t.challenges[id], clock) {
      OpenCanBreak(t, clock, id, maxAttempts);
    } else {
      CoherentTablesFit(t, clock, maxAttempts);
      assert C.LifecycleOf(t, id, maxAttempts);
      forall ls | Runs(Idle(t, clock), ls, maxAttempts)
        ensures !BreaksAtRest(End(Idle(t, clock), ls, maxAttempts), id, maxAttempts)
      {
        SpentThroughout(Idle(t, clock), ls, maxAttempts, id);
        SameLifecycle(t, End(Idle(t, clock), ls, maxAttempts).tables, id, maxAttempts);
      }
    }
  }
}
