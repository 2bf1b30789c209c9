/**
 * Delivery of one notification: its row, its queue job and the worker, with creation, cron re-enqueues
 * and deletion interleaved at every database statement and queue call. The queue holds at most one job
 * per job id, so notifications do not interfere with one another.
 */
module Notifications {
  import opened Options
  import opened Accounts

  datatype Channel = InApp | Email | Telegram | Sms

  datatype Status = Pending | Sent | Failed

  datatype Row = Row(channel: Channel, status: Status, attempts: nat, nextAttemptAt: Option<Millis>, deleted: bool)

  const MAX_ATTEMPTS := 5

  datatype Phase =
    | Waiting
    /** The worker has read the row as pending. */
    | Loaded
    | MailAccepted
    | SendFailed
    /** The row is marked, the error is on its way to the queue. */
    | Rethrown
    | Completed
    /** The queue gave the job up. */
    | Exhausted

  /** attemptsMade counts the runs of this job that failed. */
  datatype Job = Job(phase: Phase, attemptsMade: nat)

  // ---------- the pieces of the processor ----------

  function Pow10(n: nat): nat {
    if n == 0 then 1 else 10 * Pow10(n - 1)
  }

  function Min(a: int, b: int): int {
    if a < b then a else b
  }

  function NextAttemptAt(attemptsMade: nat, maxAttempts: Option<nat>, now: Millis): Option<Millis> {
    var limit := if maxAttempts.Some? then maxAttempts.value else 1;
    var nextAttemptNumber := attemptsMade + 1;
    if nextAttemptNumber >= limit then None
    else Some(now + Min(60_000, 1000 * Pow10(nextAttemptNumber - 1)))
  }

  /** The back-off the rows show: 1 s, 10 s, then 60 s, and none after the last attempt. */
  lemma BackoffSchedule(attemptsMade: nat, now: Millis)
    ensures NextAttemptAt(attemptsMade, Some(MAX_ATTEMPTS), now) ==
      if attemptsMade == 0 then Some(now + 1_000)
      else if attemptsMade == 1 then Some(now + 10_000)
      else if attemptsMade < MAX_ATTEMPTS - 1 then Some(now + 60_000)
      else None
  {
    assert Pow10(1) == 10 && Pow10(2) == 100 && Pow10(3) == 1000;
  }

  function MarkDispatchSent(row: Row): Row {
    if row.deleted then row else row.(status := Sent)
  }

  function MarkDispatchFailed(row: Row, nextAttemptAt: Option<Millis>): Row {
    if row.deleted then row
    else
      var status := if nextAttemptAt.Some? then Pending else Failed;
      row.(status := status, attempts := row.attempts + 1, nextAttemptAt := nextAttemptAt)
  }

  /** What the create handler inserts. */
  function NewRow(channel: Channel): Row {
    Row(channel, if channel.InApp? then Sent else Pending, 0, None, false)
  }

  /** Adding a job whose id exists is ignored. */
  function Add(job: Option<Job>): Option<Job> {
    if job.Some? then job else Some(Job(Waiting, 0))
  }

  // ---------- the interleaved machine ----------

  /** `runs` counts the runs that found the row pending, `mails` the mails accepted for it. */
  datatype Cell = Cell(row: Row, job: Option<Job>, clock: Millis, runs: nat, mails: nat)

  datatype Label =
    /** Any add: by the creator, or by the cron from a list that may be stale. */
    | Enqueue
    | Load
    | Send(accepted: bool)
    | Mark
    | Retry
    | Delete
    /** The queue forgets a completed job. */
    | Trim
    | Tick(to: Millis)

  predicate In(c: Cell, phase: Phase) {
    c.job.Some? && c.job.value.phase == phase
  }

  predicate Enabled(c: Cell, l: Label) {
    match l
    case Enqueue => true
    case Load => In(c, Waiting)
    case Send(_) => In(c, Loaded) && c.row.channel.Email?
    case Mark => (In(c, Loaded) && !c.row.channel.Email?) || In(c, MailAccepted) || In(c, SendFailed)
    case Retry => In(c, Rethrown)
    case Delete => true
    case Trim => In(c, Completed)
    case Tick(to) => c.clock <= to
  }

  function WithPhase(c: Cell, phase: Phase): Cell
    requires c.job.Some?
  {
    c.(job := Some(c.job.value.(phase := phase)))
  }

  function Next(c: Cell, l: Label): Cell
    requires Enabled(c, l)
  {
    match l
    case Enqueue => c.(job := Add(c.job))
    case Load =>
      if c.row.deleted || c.row.status != Pending then WithPhase(c, Completed)
      else WithPhase(c, Loaded).(runs := c.runs + 1)
    case Send(accepted) =>
      if accepted then WithPhase(c, MailAccepted).(mails := c.mails + 1) else WithPhase(c, SendFailed)
    case Mark =>
      if In(c, MailAccepted) || (In(c, Loaded) && c.row.channel.InApp?) then
        WithPhase(c, Completed).(row := MarkDispatchSent(c.row))
      else if In(c, Loaded) then
        WithPhase(c, Completed).(row := MarkDispatchFailed(c.row, None))
      else
        var next := NextAttemptAt(c.job.value.attemptsMade, Some(MAX_ATTEMPTS), c.clock);
        WithPhase(c, if next.Some? then Rethrown else Completed).(row := MarkDispatchFailed(c.row, next))
    case Retry =>
      var made := c.job.value.attemptsMade + 1;
      c.(job := Some(Job(if made < MAX_ATTEMPTS then Waiting else Exhausted, made)))
    case Delete => c.(row := c.row.(deleted := true))
    case Trim => c.(job := None)
    case Tick(to) => c.(clock := to)
  }

  predicate Runs(c: Cell, ls: seq<Label>)
    decreases |ls|
  {
    ls == [] || (Enabled(c, ls[0]) && Runs(Next(c, ls[0]), ls[1..]))
  }

  function End(c: Cell, ls: seq<Label>): Cell
    requires Runs(c, ls)
    decreases |ls|
  {
    if ls == [] then c else End(Next(c, ls[0]), ls[1..])
  }

  /** A notification as it is created, before anything is enqueued. */
  function Created(channel: Channel, clock: Millis): Cell {
    Cell(NewRow(channel), None, clock, 0, 0)
  }

  /** The notification will not be dispatched again. */
  predicate Settled(c: Cell) {
    c.row.deleted || c.row.status != Pending
  }

  /** While a run is under way the row is pending, and unless deleted it shows the job's failed runs. */
  predicate Counts(c: Cell, failedRuns: nat) {
    c.row.status == Pending && (!c.row.deleted ==> c.row.attempts == failedRuns)
  }

  predicate Delivering(c: Cell) {
    && c.mails <= 1 && c.runs <= MAX_ATTEMPTS
    && (c.job.Some? ==> c.job.value.attemptsMade < MAX_ATTEMPTS)
    && (!Settled(c) ==> c.row.attempts <= c.runs)
    && (c.row.status == Sent && c.row.channel.Email? ==> c.mails == 1)
    && (c.row.status == Failed && c.row.channel.Email? ==> c.mails == 0 && c.runs == c.row.attempts == MAX_ATTEMPTS)
    && (c.mails > 0 ==> c.row.channel.Email?)
    && match c.job
       case None => Settled(c) || (c.row.attempts == c.runs == c.mails == 0)
       case Some(Job(Waiting, made)) => Settled(c) || (c.row.attempts == c.runs == made && c.mails == 0)
       case Some(Job(Loaded, made)) => c.runs == made + 1 && c.mails == 0 && Counts(c, made)
       case Some(Job(SendFailed, made)) => c.runs == made + 1 && c.mails == 0 && c.row.channel.Email? && Counts(c, made)
       case Some(Job(MailAccepted, made)) => c.mails == 1 && Counts(c, made)
       case Some(Job(Rethrown, made)) =>
         made + 1 < MAX_ATTEMPTS && c.runs == made + 1 && c.mails == 0 && Counts(c, made + 1)
       case Some(Job(Completed, _)) => Settled(c)
       case Some(Job(Exhausted, _)) => false
  }

  lemma StepKeepsDelivering(c: Cell, l: Label)
    requires Delivering(c) && Enabled(c, l)
    ensures Delivering(Next(c, l))
    ensures Settled(c) ==> Settled(Next(c, l)) && Next(c, l).row == c.row.(deleted := Next(c, l).row.deleted)
  {
    if c.job.Some? {
      BackoffSchedule(c.job.value.attemptsMade, c.clock);
    }
  }

  lemma {:induction false} DeliveringThroughout(c: Cell, ls: seq<Label>)
    requires Delivering(c) && Runs(c, ls)
    ensures Delivering(End(c, ls))
    ensures Settled(c) ==> Settled(End(c, ls)) && End(c, ls).row == c.row.(deleted := End(c, ls).row.deleted)
    decreases |ls|
  {
    if ls != [] {
      StepKeepsDelivering(c, ls[0]);
      DeliveringThroughout(Next(c, ls[0]), ls[1..]);
    }
  }

  /**
   * For every notification, under any mix of creation, cron re-enqueues, retries and deletion: at most
   * one mail is accepted and at most five runs dispatch; while it is open and its job waits, its stored
   * attempts are the job's failed runs; an email is marked sent only with its mail accepted, and failed
   * only after five failed runs; the queue never gives a job up.
   */
  lemma DeliveryIsAtMostOnce(channel: Channel, clock: Millis, ls: seq<Label>)
    requires Runs(Created(channel, clock), ls)
    ensures var c := End(Created(channel, clock), ls);
      && c.mails <= 1 && c.runs <= 5
      && (In(c, Waiting) && !Settled(c) ==> c.row.attempts == c.job.value.attemptsMade == c.runs)
      && (c.row.status == Sent && c.row.channel.Email? ==> c.mails == 1)
      && (c.row.status == Failed && c.row.channel.Email? ==> c.mails == 0 && c.runs == c.row.attempts == 5)
      && !In(c, Exhausted)
  {
    DeliveringThroughout(Created(channel, clock), ls);
  }

  /** A completed job leaves the notification sent, failed or deleted, and no later step changes that. */
  lemma CompletedIsForGood(channel: Channel, clock: Millis, ls: seq<Label>, more: seq<Label>)
    requires Runs(Created(channel, clock), ls) && In(End(Created(channel, clock), ls), Completed)
    requires Runs(End(Created(channel, clock), ls), more)
    ensures var c := End(Created(channel, clock), ls); var d := End(c, more);
      Settled(c) && Settled(d) && d.row == c.row.(deleted := d.row.deleted)
  {
    DeliveringThroughout(Created(channel, clock), ls);
    DeliveringThroughout(End(Created(channel, clock), ls), more);
  }

  /** No job while open means nothing was tried yet: what the cron re-enqueues starts from scratch. */
  lemma OpenWithoutJobIsUntouched(channel: Channel, clock: Millis, ls: seq<Label>)
    requires Runs(Created(channel, clock), ls)
    requires var c := End(Created(channel, clock), ls); c.job.None? && !Settled(c)
    ensures var c := End(Created(channel, clock), ls); c.row.attempts == 0 && c.runs == 0 && c.mails == 0
  {
    DeliveringThroughout(Created(channel, clock), ls);
  }

  /** What the row of an open email shows after its (made + 1)st send has failed at `now`. */
  predicate ShowsBackoff(row: Row, made: nat, now: Millis) {
    && row.attempts == made + 1 && row.status == (if made < 4 then Pending else Failed)
    && row.nextAttemptAt == (if made == 0 then Some(now + 1_000)
                             else if made == 1 then Some(now + 10_000)
                             else if made < 4 then Some(now + 60_000)
                             else None)
  }

  predicate NeverMarks(ls: seq<Label>) {
    forall k :: 0 <= k < |ls| ==> ls[k] != Mark
  }

  lemma {:induction false} NextAttemptStays(c: Cell, ls: seq<Label>)
    requires Runs(c, ls) && NeverMarks(ls)
    ensures var d := End(c, ls);
      d.row.nextAttemptAt == c.row.nextAttemptAt && d.row.attempts == c.row.attempts && d.row.status == c.row.status
    decreases |ls|
  {
    if ls != [] {
      NextAttemptStays(Next(c, ls[0]), ls[1..]);
    }
  }

  /**
   * In every run: when a failed send of an email that is not deleted is marked, its row stores the next
   * attempt 1 s, 10 s, 60 s and 60 s ahead for the first four, and none for the fifth; and it keeps
   * showing that, whatever else happens, until a run of the job is marked again.
   */
  lemma BackoffIsStored(channel: Channel, clock: Millis, ls: seq<Label>, more: seq<Label>)
    requires Runs(Created(channel, clock), ls)
    requires var c := End(Created(channel, clock), ls); In(c, SendFailed) && !c.row.deleted
    requires Runs(Next(End(Created(channel, clock), ls), Mark), more) && NeverMarks(more)
    ensures var c := End(Created(channel, clock), ls);
      && c.job.value.attemptsMade < 5
      && ShowsBackoff(End(Next(c, Mark), more).row, c.job.value.attemptsMade, c.clock)
  {
    var c := End(Created(channel, clock), ls);
    DeliveringThroughout(Created(channel, clock), ls);
    BackoffSchedule(c.job.value.attemptsMade, c.clock);
    NextAttemptStays(Next(c, Mark), more);
  }

  // ---------- one run of the processor, uninterrupted ----------

  datatype RunResult = RunResult(row: Row, job: Job, mailAccepted: bool)

  /** A worker's run of a waiting job; `accepted` says whether the mail command would be accepted. */
  function RunJob(row: Row, job: Job, accepted: bool, now: Millis): RunResult {
    if row.deleted || row.status != Pending then RunResult(row, job.(phase := Completed), false)
    else
      match row.channel
      case InApp => RunResult(MarkDispatchSent(row), job.(phase := Completed), false)
      case Email =>
        if accepted then RunResult(MarkDispatchSent(row), job.(phase := Completed), true)
        else
          var next := NextAttemptAt(job.attemptsMade, Some(MAX_ATTEMPTS), now);
          var made := job.attemptsMade + 1;
          RunResult(
            MarkDispatchFailed(row, next),
            if next.None? then job.(phase := Completed)
            else Job(if made < MAX_ATTEMPTS then Waiting else Exhausted, made),
            false)
      case _ => RunResult(MarkDispatchFailed(row, None), job.(phase := Completed), false)
  }

  /** The steps of that run once it has read the row as an open email. */
  function SendLabels(c: Cell, accepted: bool): seq<Label>
    requires c.job.Some?
  {
    if accepted || NextAttemptAt(c.job.value.attemptsMade, Some(MAX_ATTEMPTS), c.clock).None? then
      [Send(accepted), Mark]
    else [Send(accepted), Mark, Retry]
  }

  /** The steps of that run. */
  function RunLabels(c: Cell, accepted: bool): seq<Label>
    requires c.job.Some?
  {
    if Settled(c) then [Load]
    else if !c.row.channel.Email? then [Load, Mark]
    else [Load] + SendLabels(c, accepted)
  }

  lemma RunsOne(c: Cell, l: Label, ls: seq<Label>)
    requires Enabled(c, l)
    ensures Runs(c, [l] + ls) <==> Runs(Next(c, l), ls)
    ensures Runs(Next(c, l), ls) ==> End(c, [l] + ls) == End(Next(c, l), ls)
  {
    assert ([l] + ls)[1..] == ls;
  }

  /** A run that has read an open email and sends it. */
  lemma SendIsARun(c: Cell, accepted: bool)
    requires In(c, Loaded) && c.row.channel.Email? && !Settled(c)
    ensures var ls := SendLabels(c, accepted); var r := RunJob(c.row, c.job.value, accepted, c.clock);
      && Runs(c, ls)
      && End(c, ls).row == r.row && End(c, ls).job == Some(r.job)
      && End(c, ls).mails == c.mails + if r.mailAccepted then 1 else 0
  {
    var c1 := Next(c, Send(accepted));
    var c2 := Next(c1, Mark);
    var tail: seq<Label> := [];
    if In(c2, Rethrown) {
      tail := [Retry];
      RunsOne(c2, Retry, []);
      assert [Retry] + [] == [Retry];
    }
    RunsOne(c1, Mark, tail);
    RunsOne(c, Send(accepted), [Mark] + tail);
    assert [Send(accepted)] + ([Mark] + tail) == SendLabels(c, accepted);
  }

  /** An uninterrupted run is one of the interleavings. */
  lemma RunJobIsARun(c: Cell, accepted: bool)
    requires In(c, Waiting)
    ensures Runs(c, RunLabels(c, accepted))
    ensures var d := End(c, RunLabels(c, accepted)); var r := RunJob(c.row, c.job.value, accepted, c.clock);
      d.row == r.row && d.job == Some(r.job) && d.mails == c.mails + if r.mailAccepted then 1 else 0
  {
    var c1 := Next(c, Load);
    if Settled(c) {
      RunsOne(c, Load, []);
      assert [Load] + [] == [Load];
    } else if !c.row.channel.Email? {
      RunsOne(c1, Mark, []);
      RunsOne(c, Load, [Mark] + []);
      assert [Load] + ([Mark] + []) == [Load, Mark];
    } else {
      SendIsARun(c1, accepted);
      RunsOne(c, Load, SendLabels(c1, accepted));
      assert [Load] + SendLabels(c1, accepted) == RunLabels(c, accepted);
    }
  }

  /** The worker takes up the job again and again while it waits; outcomes[k] is what the k-th send would give. */
  function Work(row: Row, job: Job, outcomes: seq<bool>, clock: nat -> Millis): RunResult
    decreases |outcomes|
  {
    if outcomes == [] || job.phase != Waiting then RunResult(row, job, false)
    else
      var r := RunJob(row, job, outcomes[0], clock(job.attemptsMade));
      var rest := Work(r.row, r.job, outcomes[1..], clock);
      RunResult(rest.row, rest.job, r.mailAccepted || rest.mailAccepted)
  }

  lemma {:induction false} WorkFrom(row: Row, job: Job, outcomes: seq<bool>, clock: nat -> Millis)
    requires row.channel.Email? && row.status == Pending && !row.deleted
    requires job.phase == Waiting && job.attemptsMade == row.attempts < MAX_ATTEMPTS
    requires |outcomes| == MAX_ATTEMPTS - job.attemptsMade
    ensures var r := Work(row, job, outcomes, clock);
      && r.job.phase == Completed
      && (r.mailAccepted <==> exists k :: 0 <= k < |outcomes| && outcomes[k])
      && (r.row.status == if r.mailAccepted then Sent else Failed)
    decreases |outcomes|
  {
    BackoffSchedule(job.attemptsMade, clock(job.attemptsMade));
    var r := RunJob(row, job, outcomes[0], clock(job.attemptsMade));
    if outcomes[0] {
      assert Work(r.row, r.job, outcomes[1..], clock) == RunResult(r.row, r.job, false);
    } else if job.attemptsMade + 1 < MAX_ATTEMPTS {
      WorkFrom(r.row, r.job, outcomes[1..], clock);
      assert forall k :: 0 < k < |outcomes| ==> outcomes[k] == outcomes[1..][k - 1];
    }
  }

  /** A new email is sent exactly when one of its first five sends is accepted; else it fails for good. */
  lemma FiveTries(outcomes: seq<bool>, clock: nat -> Millis)
    requires |outcomes| == 5
    ensures var r := Work(NewRow(Email), Add(None).value, outcomes, clock);
      && r.job.phase == Completed
      && (r.mailAccepted <==> exists k :: 0 <= k < |outcomes| && outcomes[k])
      && (r.row.status == if r.mailAccepted then Sent else Failed)
  {
    WorkFrom(NewRow(Email), Add(None).value, outcomes, clock);
  }
}
