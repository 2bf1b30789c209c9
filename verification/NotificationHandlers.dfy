/** The notification table and its queue, with the create handler, the cron and the processor over them. */
module NotificationHandlers {
  import opened Options
  import opened Accounts
  import opened Notifications

  type NotificationId = nat

  const DISPATCH_BATCH_LIMIT := 100

  /** First occurrences, in order: what spreading a Set keeps. */
  function Dedup(channels: seq<Channel>): (r: seq<Channel>)
    ensures forall c :: c in r <==> c in channels
    ensures forall i, j :: 0 <= i < j < |r| ==> r[i] != r[j]
  {
    if channels == [] then []
    else
      var front, c := Dedup(channels[..|channels| - 1]), channels[|channels| - 1];
      if c in front then front else front + [c]
  }

  /** Of two channels kept, the earlier one is met before the later one first is. */
  lemma {:induction false} DedupKeepsOrder(channels: seq<Channel>, i: nat, j: nat) returns (at: nat)
    requires i < j < |Dedup(channels)|
    ensures at < |channels| && channels[at] == Dedup(channels)[i] && Dedup(channels)[j] !in channels[..at + 1]
  {
    var front, last := channels[..|channels| - 1], channels[|channels| - 1];
    if j < |Dedup(front)| {
      at := DedupKeepsOrder(front, i, j);
      assert channels[..at + 1] == front[..at + 1];
    } else {
      assert Dedup(front)[i] in front;
      at :| 0 <= at < |front| && front[at] == Dedup(front)[i];
      assert forall k :: 0 <= k < at + 1 ==> channels[k] in front;
    }
  }

  function Channels(requested: seq<Channel>): (r: seq<Channel>)
    ensures r != []
    ensures requested == [] ==> r == [InApp, Email]
    ensures requested != [] ==> forall c :: c in r <==> c in requested
    ensures forall i, j :: 0 <= i < j < |r| ==> r[i] != r[j]
  {
    if requested != [] then
      assert requested[0] in Dedup(requested);
      Dedup(requested)
    else [InApp, Email]
  }

  predicate IsDue(row: Row, now: Millis) {
    row.status == Pending && !row.deleted && (row.nextAttemptAt.None? || row.nextAttemptAt.value <= now)
  }

  /** The ids of the due rows, in the given order. */
  function Due(order: seq<NotificationId>, rows: map<NotificationId, Row>, now: Millis): seq<NotificationId> {
    if order == [] then []
    else
      var front, id := Due(order[..|order| - 1], rows, now), order[|order| - 1];
      if id in rows && IsDue(rows[id], now) then front + [id] else front
  }

  /** The first n of them, or all if there are fewer. */
  function First(ids: seq<NotificationId>, n: nat): (r: seq<NotificationId>)
    ensures r <= ids && |r| <= n && (|r| < n ==> r == ids)
  {
    if |ids| <= n then ids else ids[..n]
  }

  lemma {:induction false} DueAreTheDue(order: seq<NotificationId>, rows: map<NotificationId, Row>, now: Millis)
    ensures forall id :: id in Due(order, rows, now) <==>
      && id in order && id in rows && rows[id].status == Pending && !rows[id].deleted
      && (rows[id].nextAttemptAt.None? || rows[id].nextAttemptAt.value <= now)
  {
    if order != [] {
      var front, last := order[..|order| - 1], order[|order| - 1];
      DueAreTheDue(front, rows, now);
      assert order == front + [last];
    }
  }

  /** They come in the given order: each at its own place, the places rising. */
  lemma {:induction false} DueComeInOrder(order: seq<NotificationId>, rows: map<NotificationId, Row>, now: Millis)
    returns (at: seq<nat>)
    ensures |at| == |Due(order, rows, now)|
    ensures forall i :: 0 <= i < |at| ==> at[i] < |order| && order[at[i]] == Due(order, rows, now)[i]
    ensures forall i, j :: 0 <= i < j < |at| ==> at[i] < at[j]
  {
    at := [];
    if order != [] {
      var n := |order| - 1;
      at := DueComeInOrder(order[..n], rows, now);
      if order[n] in rows && IsDue(rows[order[n]], now) {
        at := at + [n];
      }
    }
  }

  /** A failed send keeps the row from being selected exactly until its next attempt is due, the fifth for good. */
  lemma BackoffDelaysSelection(
      order: seq<NotificationId>, rows: map<NotificationId, Row>, id: NotificationId, job: Job,
      now: Millis, later: Millis)
    requires id in order && id in rows && rows[id].channel == Email && rows[id].status == Pending && !rows[id].deleted
    ensures var made := job.attemptsMade;
      id in Due(order, rows[id := RunJob(rows[id], job, false, now).row], later) <==>
        || (made == 0 && later >= now + 1_000)
        || (made == 1 && later >= now + 10_000)
        || (2 <= made < 4 && later >= now + 60_000)
  {
    BackoffSchedule(job.attemptsMade, now);
    DueAreTheDue(order, rows[id := RunJob(rows[id], job, false, now).row], later);
  }

  /** The queue after an add: one whose job id exists is ignored. */
  function AddOne(jobs: map<NotificationId, Job>, id: NotificationId): map<NotificationId, Job> {
    if id in jobs then jobs else jobs[id := Job(Waiting, 0)]
  }

  /** The queue after an add for each id, in order. */
  function AddAll(jobs: map<NotificationId, Job>, ids: seq<NotificationId>): map<NotificationId, Job> {
    if ids == [] then jobs else AddOne(AddAll(jobs, ids[..|ids| - 1]), ids[|ids| - 1])
  }

  lemma AddAllNext(jobs: map<NotificationId, Job>, ids: seq<NotificationId>, id: NotificationId)
    ensures AddAll(jobs, ids + [id]) == AddOne(AddAll(jobs, ids), id)
  {
    assert (ids + [id])[..|ids|] == ids;
  }

  /** Whatever is added, and however often: no existing job is disturbed and there is one new job for each new id. */
  lemma {:induction false} AddsKeepJobs(jobs: map<NotificationId, Job>, ids: seq<NotificationId>)
    ensures forall id :: id in AddAll(jobs, ids) <==> id in jobs || id in ids
    ensures forall id :: id in jobs ==> AddAll(jobs, ids)[id] == jobs[id]
    ensures forall id :: id in ids && id !in jobs ==> AddAll(jobs, ids)[id] == Job(Waiting, 0)
  {
    if ids != [] {
      var front, last := ids[..|ids| - 1], ids[|ids| - 1];
      AddsKeepJobs(jobs, front);
      assert ids == front + [last];
    }
  }

  /** The table with a new row for each channel. */
  function InsertAll(
      rows: map<NotificationId, Row>, channels: seq<Channel>, ids: seq<NotificationId>): map<NotificationId, Row>
    requires |channels| == |ids|
  {
    if ids == [] then rows
    else
      var n := |ids| - 1;
      InsertAll(rows, channels[..n], ids[..n])[ids[n] := NewRow(channels[n])]
  }

  /** The new rows whose add reaches the queue: in-app ones are not dispatched. */
  function Outgoing(channels: seq<Channel>, ids: seq<NotificationId>, reachable: seq<bool>): seq<NotificationId>
    requires |channels| == |ids| == |reachable|
  {
    if ids == [] then []
    else
      var n := |ids| - 1;
      Outgoing(channels[..n], ids[..n], reachable[..n]) + if channels[n] != InApp && reachable[n] then [ids[n]] else []
  }

  lemma InsertAllNext(rows: map<NotificationId, Row>, channels: seq<Channel>, ids: seq<NotificationId>, c: Channel,
          id: NotificationId)
    requires |channels| == |ids|
    ensures InsertAll(rows, channels + [c], ids + [id]) == InsertAll(rows, channels, ids)[id := NewRow(c)]
  {
    assert (channels + [c])[..|ids|] == channels && (ids + [id])[..|ids|] == ids;
  }

  lemma OutgoingNext(
      jobs: map<NotificationId, Job>, channels: seq<Channel>, ids: seq<NotificationId>, reachable: seq<bool>,
      c: Channel, id: NotificationId, r: bool)
    requires |channels| == |ids| == |reachable|
    ensures var before := AddAll(jobs, Outgoing(channels, ids, reachable));
      AddAll(jobs, Outgoing(channels + [c], ids + [id], reachable + [r])) ==
        if c != InApp && r then AddOne(before, id) else before
  {
    assert (channels + [c])[..|ids|] == channels && (ids + [id])[..|ids|] == ids;
    assert (reachable + [r])[..|ids|] == reachable;
    var out := Outgoing(channels, ids, reachable);
    AddAllNext(jobs, out, id);
    assert Outgoing(channels + [c], ids + [id], reachable + [r]) == if c != InApp && r then out + [id] else out;
  }

  /** What creation has done after the first k channels. */
  ghost predicate Creating(
      rows0: map<NotificationId, Row>, jobs0: map<NotificationId, Job>,
      channels: seq<Channel>, ids: seq<NotificationId>, reachable: seq<bool>, k: nat,
      rows: map<NotificationId, Row>, jobs: map<NotificationId, Job>)
  {
    && k <= |channels| == |ids| == |reachable|
    && rows == InsertAll(rows0, channels[..k], ids[..k])
    && jobs == AddAll(jobs0, Outgoing(channels[..k], ids[..k], reachable[..k]))
  }

  lemma CreateStarts(
      rows: map<NotificationId, Row>, jobs: map<NotificationId, Job>,
      channels: seq<Channel>, ids: seq<NotificationId>, reachable: seq<bool>)
    requires |channels| == |ids| == |reachable|
    ensures Creating(rows, jobs, channels, ids, reachable, 0, rows, jobs)
  {
  }

  /** One more channel is handled. */
  lemma CreateNext(
      rows0: map<NotificationId, Row>, jobs0: map<NotificationId, Job>,
      channels: seq<Channel>, ids: seq<NotificationId>, reachable: seq<bool>, k: nat,
      rows: map<NotificationId, Row>, jobs: map<NotificationId, Job>)
    requires Creating(rows0, jobs0, channels, ids, reachable, k, rows, jobs) && k < |channels|
    ensures Creating(
      rows0, jobs0, channels, ids, reachable, k + 1,
      rows[ids[k] := NewRow(channels[k])], if channels[k] != InApp && reachable[k] then AddOne(jobs, ids[k]) else jobs)
  {
    assert channels[..k + 1] == channels[..k] + [channels[k]];
    assert ids[..k + 1] == ids[..k] + [ids[k]];
    assert reachable[..k + 1] == reachable[..k] + [reachable[k]];
    InsertAllNext(rows0, channels[..k], ids[..k], channels[k], ids[k]);
    OutgoingNext(jobs0, channels[..k], ids[..k], reachable[..k], channels[k], ids[k], reachable[k]);
  }

  lemma CreateEnds(
      rows0: map<NotificationId, Row>, jobs0: map<NotificationId, Job>,
      channels: seq<Channel>, ids: seq<NotificationId>, reachable: seq<bool>,
      rows: map<NotificationId, Row>, jobs: map<NotificationId, Job>)
    requires Creating(rows0, jobs0, channels, ids, reachable, |channels|, rows, jobs)
    ensures rows == InsertAll(rows0, channels, ids) && jobs == AddAll(jobs0, Outgoing(channels, ids, reachable))
  {
    assert channels[..|channels|] == channels && ids[..|ids|] == ids && reachable[..|reachable|] == reachable;
  }

  lemma {:induction false} OutgoingAre(
      channels: seq<Channel>, ids: seq<NotificationId>, reachable: seq<bool>, id: NotificationId)
    requires |channels| == |ids| == |reachable|
    ensures id in Outgoing(channels, ids, reachable) <==>
      exists k :: 0 <= k < |ids| && ids[k] == id && channels[k] != InApp && reachable[k]
  {
    if ids != [] {
      var n := |ids| - 1;
      OutgoingAre(channels[..n], ids[..n], reachable[..n], id);
      assert id in Outgoing(channels, ids, reachable) <==>
        || id in Outgoing(channels[..n], ids[..n], reachable[..n])
        || (id == ids[n] && channels[n] != InApp && reachable[n]);
      if k :| 0 <= k < n && ids[..n][k] == id && channels[..n][k] != InApp && reachable[..n][k] {
        assert ids[k] == id && channels[k] != InApp && reachable[k];
      }
      if k :| 0 <= k < |ids| && ids[k] == id && channels[k] != InApp && reachable[k] {
        assert k == n || (ids[..n][k] == id && channels[..n][k] != InApp && reachable[..n][k]);
      }
    }
  }

  /** The row that is answered with: the in-app one, else the first. */
  function FirstInApp(channels: seq<Channel>): (k: nat)
    requires channels != []
    ensures k < |channels|
    ensures InApp in channels ==> channels[k] == InApp
    ensures InApp !in channels ==> k == 0
  {
    if channels[0] == InApp || InApp !in channels then 0 else 1 + FirstInApp(channels[1..])
  }

  lemma {:induction false} InsertAllAt(rows: map<NotificationId, Row>, channels: seq<Channel>, ids: seq<NotificationId>)
    requires |channels| == |ids|
    requires forall i, j :: 0 <= i < j < |ids| ==> ids[i] != ids[j]
    ensures var after := InsertAll(rows, channels, ids);
      && (forall i :: 0 <= i < |ids| ==> ids[i] in after && after[ids[i]] == NewRow(channels[i]))
      && (forall id :: id !in ids ==> (id in after <==> id in rows) && (id in rows ==> after[id] == rows[id]))
  {
    if ids != [] {
      var n := |ids| - 1;
      var front, frontChannels := ids[..n], channels[..n];
      InsertAllAt(rows, frontChannels, front);
      var before := InsertAll(rows, frontChannels, front);
      var after := before[ids[n] := NewRow(channels[n])];
      assert InsertAll(rows, channels, ids) == after;
      forall i | 0 <= i < |ids|
        ensures ids[i] in after && after[ids[i]] == NewRow(channels[i])
      {
        if i < n {
          assert ids[i] == front[i] && channels[i] == frontChannels[i];
        }
      }
    }
  }

  /** Whichever adds fail, creation leaves each new row either delivered in app or due for the cron. */
  lemma CreatedAreSentOrDue(rows: map<NotificationId, Row>, channels: seq<Channel>, ids: seq<NotificationId>,
          now: Millis)
    requires |channels| == |ids|
    requires forall i, j :: 0 <= i < j < |ids| ==> ids[i] != ids[j]
    ensures var after := InsertAll(rows, channels, ids);
      && (forall i :: 0 <= i < |ids| ==> ids[i] in after)
      && (forall i :: 0 <= i < |ids| ==>
            after[ids[i]] == Row(channels[i], if channels[i] == InApp then Sent else Pending, 0, None, false))
      && (forall i :: 0 <= i < |ids| && channels[i] != InApp ==> [ids[i]] == Due([ids[i]], after, now))
      && (forall id :: id in rows && id !in ids ==> id in after && after[id] == rows[id])
  {
    InsertAllAt(rows, channels, ids);
    forall i | 0 <= i < |ids| && channels[i] != InApp
      ensures [ids[i]] == Due([ids[i]], InsertAll(rows, channels, ids), now)
    {
      assert [ids[i]][..0] == [];
    }
  }

  lemma CreatedJobs(
      jobs: map<NotificationId, Job>, channels: seq<Channel>, ids: seq<NotificationId>, reachable: seq<bool>)
    requires |channels| == |ids| == |reachable|
    ensures var after := AddAll(jobs, Outgoing(channels, ids, reachable));
      && (forall id :: id in after <==>
            id in jobs || exists k :: 0 <= k < |ids| && ids[k] == id && channels[k] != InApp && reachable[k])
      && (forall id :: id in after ==> after[id] == if id in jobs then jobs[id] else Job(Waiting, 0))
  {
    AddsKeepJobs(jobs, Outgoing(channels, ids, reachable));
    forall id {
      OutgoingAre(channels, ids, reachable, id);
    }
  }

  class NotificationService {
    var rows: map<NotificationId, Row>
    /** Ids by creation time. */
    var order: seq<NotificationId>
    /** Jobs by job id, which is the notification's. */
    var jobs: map<NotificationId, Job>
    /** The notifications whose mail was accepted, in order. */
    var mails: seq<NotificationId>

    constructor ()
      ensures rows == map[] && order == [] && jobs == map[] && mails == []
    {
      rows, order, jobs, mails := map[], [], map[], [];
    }

    function JobOf(id: NotificationId): Option<Job>
      reads this
    {
      if id in jobs then Some(jobs[id]) else None
    }

    method Enqueue(id: NotificationId)
      modifies this`jobs
      ensures JobOf(id) == Add(old(JobOf(id)))
      ensures jobs == if id in old(jobs) then old(jobs) else old(jobs)[id := Job(Waiting, 0)]
    {
      if id !in jobs {
        jobs := jobs[id := Job(Waiting, 0)];
      }
    }

    /** The create handler's turn for one channel. */
    method CreateOne(channel: Channel, id: NotificationId, reachable: bool)
      modifies this`rows, this`order, this`jobs
      ensures order == old(order) + [id]
      ensures rows == old(rows)[id := NewRow(channel)]
      ensures jobs == if channel != InApp && reachable then AddOne(old(jobs), id) else old(jobs)
    {
      var isInApp := channel == InApp;
      rows := rows[id := Row(channel, if isInApp then Sent else Pending, 0, None, false)];
      order := order + [id];
      if !isInApp && reachable {
        Enqueue(id);
      }
    }

    /** Its loop over the channels. */
    method CreateEach(channels: seq<Channel>, ids: seq<NotificationId>, reachable: seq<bool>)
      requires |channels| == |ids| == |reachable|
      modifies this`rows, this`order, this`jobs
      ensures order == old(order) + ids
      ensures rows == InsertAll(old(rows), channels, ids)
      ensures jobs == AddAll(old(jobs), Outgoing(channels, ids, reachable))
    {
      ghost var rows0, jobs0 := rows, jobs;
      CreateStarts(rows0, jobs0, channels, ids, reachable);
      var k := 0;
      while k < |channels|
        invariant 0 <= k <= |channels|
        invariant order == old(order) + ids[..k]
        invariant Creating(rows0, jobs0, channels, ids, reachable, k, rows, jobs)
      {
        CreateNext(rows0, jobs0, channels, ids, reachable, k, rows, jobs);
        CreateOne(channels[k], ids[k], reachable[k]);
        k := k + 1;
      }
      CreateEnds(rows0, jobs0, channels, ids, reachable, rows, jobs);
    }

    /**
     * The create handler; None stands for its not-found exception. `userExists` is the answer of the user
     * query, `ids` are the ids of the new rows, and reachable[k] says whether an add for the k-th one
     * reaches the queue, its error being swallowed otherwise.
     */
    method Create(userExists: bool, requested: seq<Channel>, ids: seq<NotificationId>, reachable: seq<bool>)
      returns (answer: Option<NotificationId>)
      requires |ids| == |reachable| == |Channels(requested)|
      modifies this`rows, this`order, this`jobs
      ensures !userExists ==> answer == None && order == old(order) && rows == old(rows) && jobs == old(jobs)
      ensures userExists ==>
        && order == old(order) + ids
        && rows == InsertAll(old(rows), Channels(requested), ids)
        && jobs == AddAll(old(jobs), Outgoing(Channels(requested), ids, reachable))
        && answer == Some(ids[FirstInApp(Channels(requested))])
      ensures userExists && (forall i, j :: 0 <= i < j < |ids| ==> ids[i] != ids[j]) ==>
        forall k :: 0 <= k < |ids| ==>
          var c := Channels(requested)[k];
          ids[k] in rows && rows[ids[k]] == Row(c, if c == InApp then Sent else Pending, 0, None, false)
      ensures userExists ==> forall id :: id in jobs <==>
        id in old(jobs) ||
        exists k :: 0 <= k < |ids| && ids[k] == id && Channels(requested)[k] != InApp && reachable[k]
      ensures forall id :: id in jobs ==> jobs[id] == if id in old(jobs) then old(jobs)[id] else Job(Waiting, 0)
    {
      if !userExists { return None; }
      var channels := Channels(requested);
      CreateEach(channels, ids, reachable);
      CreatedJobs(old(jobs), channels, ids, reachable);
      if forall i, j :: 0 <= i < j < |ids| ==> ids[i] != ids[j] {
        CreatedAreSentOrDue(old(rows), channels, ids, 0);
      }
      answer := Some(ids[FirstInApp(channels)]);
    }

    method FindPendingForDispatch(limit: nat, now: Millis) returns (pending: seq<NotificationId>)
      ensures pending == First(Due(order, rows, now), limit)
      ensures |pending| <= limit
      ensures forall id :: id in pending ==>
        && id in order && id in rows && rows[id].status == Pending && !rows[id].deleted
        && (rows[id].nextAttemptAt.None? || rows[id].nextAttemptAt.value <= now)
      ensures forall id :: id !in pending && id in order && id in rows && |pending| < limit ==>
        || rows[id].status != Pending || rows[id].deleted
        || (rows[id].nextAttemptAt.Some? && rows[id].nextAttemptAt.value > now)
    {
      pending := [];
      var k := 0;
      while k < |order| && |pending| < limit
        invariant 0 <= k <= |order| && |pending| <= limit
        invariant pending == Due(order[..k], rows, now)
      {
        assert order[..k + 1][..k] == order[..k];
        if order[k] in rows && IsDue(rows[order[k]], now) {
          pending := pending + [order[k]];
        }
        k := k + 1;
      }
      assert order[..|order|] == order;
      DuePrefix(order, k, rows, now);
      DueAreTheDue(order, rows, now);
    }

    /**
     * The cron: the due rows among the first hundred are added in order, until an add raises; `working`
     * is how many adds the queue takes before that, and the result says whether none raised.
     */
    method DispatchPending(now: Millis, working: nat) returns (all: bool)
      modifies this`jobs
      ensures var pending := First(Due(order, rows, now), 100);
        jobs == AddAll(old(jobs), First(pending, working)) && (all <==> |pending| <= working)
    {
      var pending := FindPendingForDispatch(DISPATCH_BATCH_LIMIT, now);
      var k := 0;
      while k < |pending|
        invariant 0 <= k <= |pending| && k <= working
        invariant jobs == AddAll(old(jobs), pending[..k])
      {
        if k == working {
          assert First(pending, working) == pending[..k];
          return false;
        }
        assert pending[..k + 1] == pending[..k] + [pending[k]];
        AddAllNext(old(jobs), pending[..k], pending[k]);
        Enqueue(pending[k]);
        k := k + 1;
      }
      assert pending[..k] == pending;
      return true;
    }

    /** One run of a waiting job; `accepted` says whether the mail command would be accepted. */
    method Process(id: NotificationId, accepted: bool, now: Millis)
      requires id in jobs && jobs[id].phase == Waiting
      modifies this`rows, this`jobs, this`mails
      ensures id in old(rows) ==>
        var r := RunJob(old(rows)[id], old(jobs)[id], accepted, now);
        && rows == old(rows)[id := r.row] && jobs == old(jobs)[id := r.job]
        && mails == old(mails) + if r.mailAccepted then [id] else []
      ensures id !in old(rows) || old(rows)[id].deleted || old(rows)[id].status != Pending ==>
        rows == old(rows) && jobs == old(jobs)[id := old(jobs)[id].(phase := Completed)] && mails == old(mails)
      ensures id in old(rows) && !old(rows)[id].deleted && old(rows)[id].status == Pending ==>
        var row, made := old(rows)[id], old(jobs)[id].attemptsMade; var sent := row.channel == Email && accepted;
        && rows.Keys == old(rows).Keys
        && mails == (if sent then old(mails) + [id] else old(mails))
        && (row.channel == InApp || sent ==> rows[id] == row.(status := Sent))
        && (row.channel == Telegram || row.channel == Sms ==>
              rows[id] == row.(status := Failed, attempts := row.attempts + 1, nextAttemptAt := None))
        && (row.channel == Email && !accepted ==>
              && rows[id].channel == Email && !rows[id].deleted && rows[id].attempts == row.attempts + 1
              && ShowsBackoff(rows[id].(attempts := made + 1), made, now))
        && jobs[id] == (if row.channel == Email && !accepted && made < 4 then Job(Waiting, made + 1)
                        else old(jobs)[id].(phase := Completed))
    {
      BackoffSchedule(jobs[id].attemptsMade, now);
      var job := jobs[id];
      jobs := jobs[id := job.(phase := Completed)];
      if id !in rows || rows[id].deleted { return; }
      var notification := rows[id];
      if notification.status != Pending { return; }
      if notification.channel == InApp {
        rows := rows[id := MarkDispatchSent(notification)];
        return;
      }
      if notification.channel != Email {
        rows := rows[id := MarkDispatchFailed(notification, None)];
        return;
      }
      if accepted {
        mails := mails + [id];
        rows := rows[id := MarkDispatchSent(notification)];
        return;
      }
      var nextAttemptAt := NextAttemptAt(job.attemptsMade, Some(MAX_ATTEMPTS), now);
      rows := rows[id := MarkDispatchFailed(notification, nextAttemptAt)];
      if nextAttemptAt.Some? {
        var made := job.attemptsMade + 1;
        jobs := jobs[id := Job(if made < MAX_ATTEMPTS then Waiting else Exhausted, made)];
      }
    }
  }

  lemma {:induction false} DuePrefix(order: seq<NotificationId>, k: nat, rows: map<NotificationId, Row>, now: Millis)
    requires k <= |order|
    ensures Due(order[..k], rows, now) <= Due(order, rows, now)
  {
    if k < |order| {
      DuePrefix(order[..|order| - 1], k, rows, now);
      assert order[..|order| - 1][..k] == order[..k];
    } else {
      assert order[..k] == order;
    }
  }
}
