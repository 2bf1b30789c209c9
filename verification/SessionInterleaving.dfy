/** Refresh-token handlers interleaved at every database statement: revocation is final. */
module SessionInterleaving {
  import opened Options
  import opened Accounts
  import opened Sessions

  type Pid = nat

  datatype Handler =
    /** A refresh whose JWT verified. */
    | Presented(token: Token)
    /** A refresh that read row `row` unrevoked and unexpired. */
    | Admitted(row: nat, userId: UserId)
    | Rotating(row: nat, userId: UserId)
    | Inserting(row: nat, userId: UserId)
    | IssuedFrom(row: nat)
    /** A login past its guards, about to insert its row. */
    | LoggingIn(userId: UserId)
    | LoggingOut(token: Token)
    /** A reset, a change, or a refresh that detected reuse, about to revoke all rows. */
    | Revoking(userId: UserId)
    | Finished

  datatype System = System(rows: seq<Row>, users: map<UserId, Flags>, clock: Millis, handlers: map<Pid, Handler>)

  datatype Label =
    | Start(p: Pid, handler: Handler)
    | Act(p: Pid, id: nat, expiresAt: Millis)
    | Tick(to: Millis)
    | EditUser(userId: UserId, flags: Option<Flags>)

  /** What a request starts with. */
  predicate Initial(h: Handler) {
    h.Presented? || h.LoggingIn? || h.LoggingOut? || h.Revoking?
  }

  /** A handler's process id is its own for good: finished handlers stay in the table. */
  predicate Enabled(s: System, l: Label) {
    match l
    case Start(p, h) => p !in s.handlers && Initial(h)
    case Act(p, id, _) => p in s.handlers && Fresh(s.rows, id)
    case Tick(to) => s.clock <= to
    case EditUser(_, _) => true
  }

  /** One statement of one handler: what becomes of the rows and of the handler. */
  function ActStep(s: System, h: Handler, id: nat, expiresAt: Millis): (seq<Row>, Handler) {
    match h
    case Presented(token) =>
      var found := FindByToken(s.rows, token);
      (s.rows,
       if found.None? then Finished
       else if s.rows[found.value].revoked then Revoking(token.userId)
       else if s.clock > s.rows[found.value].expiresAt then Finished
       else Admitted(found.value, token.userId))
    case Admitted(row, u) =>
      (s.rows, if u in s.users && s.users[u].verified && !s.users[u].blocked then Rotating(row, u) else Finished)
    case Rotating(row, u) => (if row < |s.rows| then RevokeById(s.rows, row) else s.rows, Inserting(row, u))
    case Inserting(row, u) => (s.rows + [Row(u, Token(id, u), expiresAt, false)], IssuedFrom(row))
    case LoggingIn(u) => (s.rows + [Row(u, Token(id, u), expiresAt, false)], Finished)
    case LoggingOut(token) => (RevokeByToken(s.rows, token).0, Finished)
    case Revoking(u) => (RevokeAllForUser(s.rows, u), Finished)
    case IssuedFrom(row) => (s.rows, h)
    case Finished => (s.rows, h)
  }

  function Next(s: System, l: Label): System
    requires Enabled(s, l)
  {
    match l
    case Start(p, h) => s.(handlers := s.handlers[p := h])
    case Act(p, id, expiresAt) =>
      var (rows, h) := ActStep(s, s.handlers[p], id, expiresAt);
      s.(rows := rows, handlers := s.handlers[p := h])
    case Tick(to) => s.(clock := to)
    case EditUser(u, flags) =>
      s.(users := if flags.Some? then s.users[u := flags.value] else s.users - {u})
  }

  predicate Runs(s: System, ls: seq<Label>)
    decreases |ls|
  {
    ls == [] || (Enabled(s, ls[0]) && Runs(Next(s, ls[0]), ls[1..]))
  }

  function End(s: System, ls: seq<Label>): System
    requires Runs(s, ls)
    decreases |ls|
  {
    if ls == [] then s else End(Next(s, ls[0]), ls[1..])
  }

  /** The handler is serving, or has served, a refresh of this row. */
  predicate Accepts(h: Handler, row: nat) {
    match h
    case Admitted(r, _) => r == row
    case Rotating(r, _) => r == row
    case Inserting(r, _) => r == row
    case IssuedFrom(r) => r == row
    case _ => false
  }

  /** Rows are never removed nor altered, except that they become revoked. */
  predicate Extends(before: seq<Row>, after: seq<Row>) {
    && |before| <= |after|
    && forall i :: 0 <= i < |before| ==>
         after[i] == before[i].(revoked := after[i].revoked) && (before[i].revoked ==> after[i].revoked)
  }

  lemma StepExtends(s: System, l: Label)
    requires Enabled(s, l)
    ensures Extends(s.rows, Next(s, l).rows)
  {
  }

  /**
   * Whatever the interleaving, rows only ever become revoked, and a row that is revoked is not accepted
   * by any refresh that starts later, in any continuation.
   */
  lemma {:induction false} RevocationIsFinal(s: System, ls: seq<Label>, row: nat, earlier: set<Pid>)
    requires Runs(s, ls) && row < |s.rows| && s.rows[row].revoked
    requires forall p :: p in s.handlers && p !in earlier ==> !Accepts(s.handlers[p], row)
    ensures Extends(s.rows, End(s, ls).rows)
    ensures forall p :: p in End(s, ls).handlers && p !in earlier ==> !Accepts(End(s, ls).handlers[p], row)
    decreases |ls|
  {
    if ls != [] {
      StepExtends(s, ls[0]);
      RevocationIsFinal(Next(s, ls[0]), ls[1..], row, earlier);
    }
  }

  /**
   * When a reset, a password change or reuse detection has revoked all rows of a user, none of the rows
   * that existed then is accepted by a refresh that starts afterwards, however handlers interleave.
   */
  lemma BulkRevocationIsFinal(s: System, p: Pid, id: nat, expiresAt: Millis, ls: seq<Label>, row: nat, q: Pid)
    requires Enabled(s, Act(p, id, expiresAt)) && s.handlers[p].Revoking?
    requires row < |s.rows| && s.rows[row].userId == s.handlers[p].userId
    requires Runs(Next(s, Act(p, id, expiresAt)), ls)
    requires q !in s.handlers
    ensures var e := End(Next(s, Act(p, id, expiresAt)), ls);
      && row < |e.rows| && e.rows[row].revoked
      && (q in e.handlers ==> !Accepts(e.handlers[q], row))
  {
    var t := Next(s, Act(p, id, expiresAt));
    RevocationIsFinal(t, ls, row, t.handlers.Keys);
  }

  // ---------- what rotation guarantees at statement level ----------

  /** A handler past the revocation step of its rotation has that row revoked behind it. */
  predicate RotatedIsRevoked(s: System) {
    forall p ::
      (p in s.handlers && (s.handlers[p].Inserting? || s.handlers[p].IssuedFrom?)) && s.handlers[p].row < |s.rows| ==>
      s.rows[s.handlers[p].row].revoked
  }

  ghost predicate RowsKnown(s: System) {
    forall p, row: nat :: p in s.handlers && Accepts(s.handlers[p], row) ==> row < |s.rows|
  }

  lemma StepKeepsRotated(s: System, l: Label)
    requires RotatedIsRevoked(s) && RowsKnown(s) && Enabled(s, l)
    ensures RotatedIsRevoked(Next(s, l)) && RowsKnown(Next(s, l))
  {
    StepExtends(s, l);
    var t := Next(s, l);
    forall p, row: nat | p in t.handlers && Accepts(t.handlers[p], row)
      ensures row < |t.rows|
    {
      if p in s.handlers && s.handlers[p] == t.handlers[p] {
        assert Accepts(s.handlers[p], row);
      } else if l.Act? && !s.handlers[p].Presented? {
        assert Accepts(s.handlers[p], row);
      }
    }
    forall p | p in t.handlers && (t.handlers[p].Inserting? || t.handlers[p].IssuedFrom?)
      ensures t.handlers[p].row < |t.rows| ==> t.rows[t.handlers[p].row].revoked
    {
      assert Accepts(t.handlers[p], t.handlers[p].row);
      if p in s.handlers {
        assert Accepts(s.handlers[p], t.handlers[p].row);
      }
    }
  }

  /**
   * Once any refresh has issued from a row, no refresh that starts later is accepted from it: even
   * interleaved, a token is rotated more than once only by refreshes that overlap.
   */
  lemma {:induction false} OnlyOverlappingRotations(s: System, ls: seq<Label>, more: seq<Label>, p: Pid, q: Pid)
    requires s.handlers == map[] && Runs(s, ls) && Runs(End(s, ls), more)
    requires p in End(s, ls).handlers && End(s, ls).handlers[p].IssuedFrom?
    requires q !in End(s, ls).handlers && q in End(End(s, ls), more).handlers
    ensures !Accepts(End(End(s, ls), more).handlers[q], End(s, ls).handlers[p].row)
  {
    RotatedThroughout(s, ls);
    var t := End(s, ls);
    assert Accepts(t.handlers[p], t.handlers[p].row);
    RevocationIsFinal(t, more, t.handlers[p].row, t.handlers.Keys);
  }

  lemma {:induction false} RotatedThroughout(s: System, ls: seq<Label>)
    requires RotatedIsRevoked(s) && RowsKnown(s) && Runs(s, ls)
    ensures RotatedIsRevoked(End(s, ls)) && RowsKnown(End(s, ls))
    decreases |ls|
  {
    if ls != [] {
      StepKeepsRotated(s, ls[0]);
      RotatedThroughout(Next(s, ls[0]), ls[1..]);
    }
  }

  // ---------- the atomic refresh is one of the interleavings ----------

  lemma Prepend(t: System, rest: seq<Label>, s: System, l: Label) returns (ls: seq<Label>)
    requires Enabled(s, l) && Next(s, l) == t && Runs(t, rest)
    ensures ls == [l] + rest && Runs(s, ls) && End(s, ls) == End(t, rest)
  {
    ls := [l] + rest;
    assert ls[1..] == rest;
  }

  predicate StepsOf(ls: seq<Label>, p: Pid) {
    forall k :: 0 <= k < |ls| ==> (ls[k].Start? || ls[k].Act?) && ls[k].p == p
  }

  predicate MayLogIn(users: map<UserId, Flags>, u: UserId) {
    u in users && users[u].verified && !users[u].blocked
  }

  lemma RotateAlone(s: System, p: Pid, row: nat, u: UserId, id: nat, expiresAt: Millis) returns (ls: seq<Label>)
    requires p in s.handlers && s.handlers[p] == Rotating(row, u) && row < |s.rows| && Fresh(s.rows, id)
    ensures Runs(s, ls) && StepsOf(ls, p)
    ensures End(s, ls) == s.(
      rows := RevokeById(s.rows, row) + [Row(u, Token(id, u), expiresAt, false)],
      handlers := s.handlers[p := IssuedFrom(row)])
  {
    var act := Act(p, id, expiresAt);
    var s1 := Next(s, act);
    ls := Prepend(Next(s1, act), [], s1, act);
    ls := Prepend(s1, ls, s, act);
    assert s.handlers[p := Inserting(row, u)][p := IssuedFrom(row)] == s.handlers[p := IssuedFrom(row)];
  }

  lemma AdmittedAlone(s: System, p: Pid, row: nat, u: UserId, id: nat, expiresAt: Millis) returns (ls: seq<Label>)
    requires p in s.handlers && s.handlers[p] == Admitted(row, u) && row < |s.rows| && Fresh(s.rows, id)
    ensures Runs(s, ls) && StepsOf(ls, p)
    ensures End(s, ls) ==
      if MayLogIn(s.users, u) then
        s.(rows := RevokeById(s.rows, row) + [Row(u, Token(id, u), expiresAt, false)],
          handlers := s.handlers[p := IssuedFrom(row)])
      else s.(handlers := s.handlers[p := Finished])
  {
    var act := Act(p, id, expiresAt);
    var s1 := Next(s, act);
    ls := [];
    if MayLogIn(s.users, u) {
      ls := RotateAlone(s1, p, row, u, id, expiresAt);
      assert s.handlers[p := Rotating(row, u)][p := IssuedFrom(row)] == s.handlers[p := IssuedFrom(row)];
    }
    ls := Prepend(s1, ls, s, act);
  }

  lemma PresentedAlone(s: System, p: Pid, token: Token, id: nat, expiresAt: Millis,
                       parents: seq<Option<nat>>, resets: map<string, ResetToken>) returns (ls: seq<Label>)
    requires p in s.handlers && s.handlers[p] == Presented(token) && Fresh(s.rows, id)
    ensures Runs(s, ls) && StepsOf(ls, p)
    ensures var (t, r) := Apply(State(s.rows, parents, s.users, resets), Refresh(token, true, s.clock, id, expiresAt));
      End(s, ls) == s.(
        rows := t.rows,
        handlers := s.handlers[p := if r.Issued? then IssuedFrom(FindByToken(s.rows, token).value) else Finished])
  {
    var act := Act(p, id, expiresAt);
    var s1 := Next(s, act);
    ls := [];
    if s1.handlers[p].Revoking? {
      ls := Prepend(Next(s1, act), [], s1, act);
      assert s.handlers[p := s1.handlers[p]][p := Finished] == s.handlers[p := Finished];
    } else if s1.handlers[p].Admitted? {
      var row := s1.handlers[p].row;
      ls := AdmittedAlone(s1, p, row, token.userId, id, expiresAt);
      assert s.handlers[p := s1.handlers[p]][p := IssuedFrom(row)] == s.handlers[p := IssuedFrom(row)];
      assert s.handlers[p := s1.handlers[p]][p := Finished] == s.handlers[p := Finished];
    }
    ls := Prepend(s1, ls, s, act);
  }

  /** The statements of one refresh, run without interference, leave the rows as the atomic refresh does. */
  lemma RefreshAlone(s: System, p: Pid, token: Token, id: nat, expiresAt: Millis,
                     parents: seq<Option<nat>>, resets: map<string, ResetToken>) returns (ls: seq<Label>)
    requires p !in s.handlers && Fresh(s.rows, id)
    ensures Runs(s, ls) && StepsOf(ls, p)
    ensures var (t, r) := Apply(State(s.rows, parents, s.users, resets), Refresh(token, true, s.clock, id, expiresAt));
      var e := End(s, ls);
      && e.rows == t.rows && e.users == t.users
      && e.handlers == s.handlers[p := if r.Issued? then IssuedFrom(FindByToken(s.rows, token).value) else Finished]
  {
    var s1 := Next(s, Start(p, Presented(token)));
    ls := PresentedAlone(s1, p, token, id, expiresAt, parents, resets);
    ls := Prepend(s1, ls, s, Start(p, Presented(token)));
  }

  // ---------- overlapping refreshes do rotate a row twice ----------

  lemma {:induction false} RunsJoin(s: System, first: seq<Label>, rest: seq<Label>)
    requires Runs(s, first) && Runs(End(s, first), rest)
    ensures Runs(s, first + rest) && End(s, first + rest) == End(End(s, first), rest)
    decreases |first|
  {
    if first == [] {
      assert first + rest == rest;
    } else {
      RunsJoin(Next(s, first[0]), first[1..], rest);
      assert (first + rest)[1..] == first[1..] + rest;
    }
  }

  /** Two more rows, both live, in place of one. */
  predicate Forks(before: seq<Row>, after: seq<Row>, row: nat, r1: Row, r2: Row)
    requires row < |before|
  {
    after == RevokeById(before, row) + [r1] + [r2] && !r1.revoked && !r2.revoked
  }

  /** Whenever two refreshes have been admitted on one row of a user who may log in, both can issue from it. */
  lemma AdmittedTogetherForkTheChain(
      s: System, p: Pid, q: Pid, row: nat, u: UserId, id1: nat, id2: nat, expiresAt: Millis) returns (ls: seq<Label>)
    requires p != q && p in s.handlers && q in s.handlers && s.handlers[p] == s.handlers[q] == Admitted(row, u)
    requires row < |s.rows| && MayLogIn(s.users, u)
    requires id1 != id2 && Fresh(s.rows, id1) && Fresh(s.rows, id2)
    ensures Runs(s, ls)
    ensures var e := End(s, ls);
      && e.handlers == s.handlers[p := IssuedFrom(row)][q := IssuedFrom(row)]
      && Forks(s.rows, e.rows, row, Row(u, Token(id1, u), expiresAt, false), Row(u, Token(id2, u), expiresAt, false))
  {
    var first := AdmittedAlone(s, p, row, u, id1, expiresAt);
    var t := End(s, first);
    var second := AdmittedAlone(t, q, row, u, id2, expiresAt);
    RunsJoin(s, first, second);
    ls := first + second;
    var r1 := Row(u, Token(id1, u), expiresAt, false);
    var r2 := Row(u, Token(id2, u), expiresAt, false);
    assert RevokeById(t.rows, row) + [r2] == RevokeById(s.rows, row) + [r1] + [r2];
  }

  /** Whether a row is unrevoked, unexpired and of a user who may log in, with its subject's token. */
  predicate IsLiveRow(s: System, row: nat)
    requires row < |s.rows|
  {
    && !s.rows[row].revoked && s.clock <= s.rows[row].expiresAt && MayLogIn(s.users, s.rows[row].userId)
    && s.rows[row].token.userId == s.rows[row].userId && FindByToken(s.rows, s.rows[row].token) == Some(row)
  }

  /**
   * So a live row can always be forked: two new refreshes that present its token and overlap may both
   * issue, and the chain has two live rows. Only at statement level is a rotation chain not a line.
   */
  lemma OverlappingRefreshesForkTheChain(s: System, row: nat, p: Pid, q: Pid, id1: nat, id2: nat, expiresAt: Millis)
    returns (ls: seq<Label>)
    requires row < |s.rows| && IsLiveRow(s, row)
    requires p != q && p !in s.handlers && q !in s.handlers
    requires id1 != id2 && Fresh(s.rows, id1) && Fresh(s.rows, id2)
    ensures Runs(s, ls)
    ensures var e := End(s, ls); var u := s.rows[row].userId;
      && e.handlers == s.handlers[p := IssuedFrom(row)][q := IssuedFrom(row)]
      && Forks(s.rows, e.rows, row, Row(u, Token(id1, u), expiresAt, false), Row(u, Token(id2, u), expiresAt, false))
  {
    var token := s.rows[row].token;
    var u := s.rows[row].userId;
    var s1 := Next(s, Start(p, Presented(token)));
    var s2 := Next(s1, Start(q, Presented(token)));
    var s3 := Next(s2, Act(p, id1, expiresAt));
    var s4 := Next(s3, Act(q, id2, expiresAt));
    ls := AdmittedTogetherForkTheChain(s4, p, q, row, u, id1, id2, expiresAt);
    assert s4.handlers[p := IssuedFrom(row)][q := IssuedFrom(row)]
        == s.handlers[p := IssuedFrom(row)][q := IssuedFrom(row)];
    ls := Prepend(s4, ls, s3, Act(q, id2, expiresAt));
    ls := Prepend(s3, ls, s2, Act(p, id1, expiresAt));
    ls := Prepend(s2, ls, s1, Start(q, Presented(token)));
    ls := Prepend(s1, ls, s, Start(p, Presented(token)));
  }

  // ---------- exactly when a row can be issued from twice ----------

  function MaxId(rows: seq<Row>): (m: nat)
    ensures forall i :: 0 <= i < |rows| ==> rows[i].token.id <= m
  {
    if rows == [] then 0
    else
      var m := MaxId(rows[..|rows| - 1]);
      if rows[|rows| - 1].token.id > m then rows[|rows| - 1].token.id else m
  }

  function NewId(rows: seq<Row>): (id: nat)
    ensures Fresh(rows, id)
  {
    MaxId(rows) + 1
  }

  /** An acting handler takes its next step, for a user who may log in if that matters. */
  lemma {:induction false} Completes(s: System, p: Pid, row: nat, expiresAt: Millis) returns (ls: seq<Label>)
    requires p in s.handlers && Accepts(s.handlers[p], row)
    ensures Runs(s, ls) && End(s, ls).handlers == s.handlers[p := IssuedFrom(row)]
    ensures !s.handlers[p].IssuedFrom? ==>
      var e := End(s, ls); var n := |s.rows|;
      |e.rows| == n + 1 && e.rows[n].userId == s.handlers[p].userId && !e.rows[n].revoked
    decreases match s.handlers[p]
      case Admitted(_, _) => 3
      case Rotating(_, _) => 2
      case Inserting(_, _) => 1
      case _ => 0
  {
    var act := Act(p, NewId(s.rows), expiresAt);
    if s.handlers[p].IssuedFrom? {
      ls := [];
      assert s.handlers == s.handlers[p := IssuedFrom(row)];
    } else if s.handlers[p].Admitted? {
      var edit := EditUser(s.handlers[p].userId, Some(Flags(true, false)));
      var s1 := Next(s, edit);
      var s2 := Next(s1, act);
      ls := Completes(s2, p, row, expiresAt);
      assert s2.handlers[p := IssuedFrom(row)] == s.handlers[p := IssuedFrom(row)];
      ls := Prepend(s2, ls, s1, act);
      ls := Prepend(s1, ls, s, edit);
    } else if s.handlers[p].Inserting? {
      ls := Prepend(Next(s, act), [], s, act);
    } else {
      var s1 := Next(s, act);
      ls := Completes(s1, p, row, expiresAt);
      assert s1.handlers[p := IssuedFrom(row)] == s.handlers[p := IssuedFrom(row)];
      ls := Prepend(s1, ls, s, act);
    }
  }

  /** Two handlers have issued, or are on the way to issue, from the row. */
  ghost predicate TwoAccept(s: System, row: nat) {
    exists p, q ::
      p != q && p in s.handlers && q in s.handlers && Accepts(s.handlers[p], row) && Accepts(s.handlers[q], row)
  }

  ghost predicate IssuedTwice(s: System, row: nat) {
    exists p, q :: p != q && p in s.handlers && q in s.handlers && s.handlers[p] == s.handlers[q] == IssuedFrom(row)
  }

  /** The row is closed to refreshes that have not yet read it. */
  predicate IsClosed(s: System, row: nat)
    requires row < |s.rows|
  {
    s.rows[row].revoked || s.clock > s.rows[row].expiresAt
  }

  lemma ClosedStep(s: System, l: Label, row: nat)
    requires Enabled(s, l) && row < |s.rows| && IsClosed(s, row)
    ensures row < |Next(s, l).rows| && IsClosed(Next(s, l), row)
    ensures forall p :: p in Next(s, l).handlers && Accepts(Next(s, l).handlers[p], row) ==>
      p in s.handlers && Accepts(s.handlers[p], row)
  {
    StepExtends(s, l);
  }

  /** Once a row is closed, nobody comes to accept it who did not before. */
  lemma {:induction false} ClosedToNewcomers(s: System, ls: seq<Label>, row: nat)
    requires Runs(s, ls) && row < |s.rows| && IsClosed(s, row)
    ensures forall p :: p in End(s, ls).handlers && Accepts(End(s, ls).handlers[p], row) ==>
      p in s.handlers && Accepts(s.handlers[p], row)
    decreases |ls|
  {
    if ls != [] {
      ClosedStep(s, ls[0], row);
      ClosedToNewcomers(Next(s, ls[0]), ls[1..], row);
    }
  }

  lemma BothComplete(s: System, p: Pid, q: Pid, row: nat) returns (ls: seq<Label>)
    requires p != q && p in s.handlers && q in s.handlers && Accepts(s.handlers[p], row) && Accepts(s.handlers[q], row)
    ensures Runs(s, ls) && IssuedTwice(End(s, ls), row)
  {
    var first := Completes(s, p, row, 0);
    var second := Completes(End(s, first), q, row, 0);
    RunsJoin(s, first, second);
    ls := first + second;
    var e := End(s, ls);
    assert p in e.handlers && q in e.handlers && e.handlers[p] == e.handlers[q] == IssuedFrom(row);
  }

  /** A number above all of them. */
  lemma {:induction false} Above(pids: set<Pid>) returns (p: Pid)
    ensures forall q :: q in pids ==> q < p
    decreases |pids|
  {
    p := 0;
    if q :| q in pids {
      p := Above(pids - {q});
      assert pids == (pids - {q}) + {q};
      p := if q >= p then q + 1 else p;
    }
  }

  lemma BothAreAdmitted(s: System, row: nat, p: Pid, q: Pid) returns (ls: seq<Label>)
    requires row < |s.rows| && FindByToken(s.rows, s.rows[row].token) == Some(row) && !IsClosed(s, row)
    requires p != q && p !in s.handlers && q !in s.handlers
    ensures Runs(s, ls)
    ensures var h := Admitted(row, s.rows[row].token.userId); End(s, ls).handlers == s.handlers[p := h][q := h]
  {
    var token := s.rows[row].token;
    var id := NewId(s.rows);
    var s1 := Next(s, Start(p, Presented(token)));
    var s2 := Next(s1, Start(q, Presented(token)));
    var s3 := Next(s2, Act(p, id, 0));
    var s4 := Next(s3, Act(q, id, 0));
    ls := Prepend(s4, [], s3, Act(q, id, 0));
    ls := Prepend(s3, ls, s2, Act(p, id, 0));
    ls := Prepend(s2, ls, s1, Start(q, Presented(token)));
    ls := Prepend(s1, ls, s, Start(p, Presented(token)));
  }

  ghost predicate CanIssueTwice(s: System, row: nat) {
    exists ls :: Runs(s, ls) && IssuedTwice(End(s, ls), row)
  }

  lemma TwoAcceptedCan(s: System, row: nat)
    requires TwoAccept(s, row)
    ensures CanIssueTwice(s, row)
  {
    var p, q :|
      p != q && p in s.handlers && q in s.handlers && Accepts(s.handlers[p], row) && Accepts(s.handlers[q], row);
    var ls := BothComplete(s, p, q, row);
    assert Runs(s, ls) && IssuedTwice(End(s, ls), row);
  }

  lemma OpenCan(s: System, row: nat)
    requires row < |s.rows| && FindByToken(s.rows, s.rows[row].token) == Some(row) && !IsClosed(s, row)
    ensures CanIssueTwice(s, row)
  {
    var p := Above(s.handlers.Keys);
    var first := BothAreAdmitted(s, row, p, p + 1);
    var rest := BothComplete(End(s, first), p, p + 1, row);
    RunsJoin(s, first, rest);
    assert Runs(s, first + rest) && IssuedTwice(End(s, first + rest), row);
  }

  lemma ClosedCannot(s: System, row: nat)
    requires row < |s.rows| && IsClosed(s, row) && CanIssueTwice(s, row)
    ensures TwoAccept(s, row)
  {
    var ls :| Runs(s, ls) && IssuedTwice(End(s, ls), row);
    var e := End(s, ls);
    var p, q :| p != q && p in e.handlers && q in e.handlers && e.handlers[p] == e.handlers[q] == IssuedFrom(row);
    ClosedToNewcomers(s, ls, row);
    assert Accepts(e.handlers[p], row) && Accepts(e.handlers[q], row);
    assert Accepts(s.handlers[p], row) && Accepts(s.handlers[q], row);
  }

  /**
   * From every state, for every row its token finds: in some run two refreshes issue from it if and only
   * if it is unrevoked and unexpired, or two refreshes have accepted it already.
   */
  lemma CanIssueTwiceIff(s: System, row: nat)
    requires row < |s.rows| && FindByToken(s.rows, s.rows[row].token) == Some(row)
    ensures CanIssueTwice(s, row) <==> !IsClosed(s, row) || TwoAccept(s, row)
  {
    if TwoAccept(s, row) {
      TwoAcceptedCan(s, row);
    } else if !IsClosed(s, row) {
      OpenCan(s, row);
    } else if CanIssueTwice(s, row) {
      ClosedCannot(s, row);
    }
  }

  // ---------- what a bulk revocation does not reach ----------

  /** Past its read or its guards, and about to insert a row for the user. */
  predicate IsInFlight(h: Handler, u: UserId) {
    (h.Admitted? || h.Rotating? || h.Inserting? || h.LoggingIn?) && h.userId == u
  }

  /** Every row's subject is its user, as every insert makes it. */
  predicate OwnTokens(rows: seq<Row>) {
    forall i :: 0 <= i < |rows| ==> rows[i].token.userId == rows[i].userId
  }

  /**
   * After the first n rows of user u are revoked: a handler that is not among those in flight at that
   * time serves only newer rows of u, or is a login that started later.
   */
  predicate ServesNewer(s: System, n: nat, u: UserId, inFlight: set<Pid>, earlier: set<Pid>) {
    && n <= |s.rows| && OwnTokens(s.rows)
    && (forall i :: 0 <= i < n && s.rows[i].userId == u ==> s.rows[i].revoked)
    && forall p :: p in s.handlers && p !in inFlight && IsInFlight(s.handlers[p], u) ==>
         if s.handlers[p].LoggingIn? then p !in earlier else s.handlers[p].row >= n
  }

  lemma StepServesNewer(s: System, l: Label, n: nat, u: UserId, inFlight: set<Pid>, earlier: set<Pid>)
    requires ServesNewer(s, n, u, inFlight, earlier) && Enabled(s, l) && earlier <= s.handlers.Keys
    ensures ServesNewer(Next(s, l), n, u, inFlight, earlier) && earlier <= Next(s, l).handlers.Keys
  {
    StepExtends(s, l);
    var t := Next(s, l);
    forall i | 0 <= i < |t.rows|
      ensures t.rows[i].token.userId == t.rows[i].userId
    {
      if i < |s.rows| { assert t.rows[i] == s.rows[i].(revoked := t.rows[i].revoked); }
    }
    forall i | 0 <= i < n && t.rows[i].userId == u
      ensures t.rows[i].revoked
    {
      assert t.rows[i] == s.rows[i].(revoked := t.rows[i].revoked);
    }
    forall p | p in t.handlers && p !in inFlight && IsInFlight(t.handlers[p], u)
      ensures if t.handlers[p].LoggingIn? then p !in earlier else t.handlers[p].row >= n
    {
      if p in s.handlers && s.handlers[p].Presented? && t.handlers[p].Admitted? {
        assert s.rows[t.handlers[p].row].userId == u;
      }
    }
  }

  /** The state in which row r is about to be inserted, and by whom. */
  function Insertion(s: System, ls: seq<Label>, r: nat): (x: (System, Pid))
    requires Runs(s, ls) && |s.rows| <= r < |End(s, ls).rows|
    ensures x.1 in x.0.handlers && r == |x.0.rows|
    ensures x.0.handlers[x.1].Inserting? || x.0.handlers[x.1].LoggingIn?
    decreases |ls|
  {
    if r < |Next(s, ls[0]).rows| then (s, ls[0].p) else Insertion(Next(s, ls[0]), ls[1..], r)
  }

  lemma {:induction false} InsertedNewer(
      s: System, ls: seq<Label>, r: nat, n: nat, u: UserId, inFlight: set<Pid>, earlier: set<Pid>)
    requires ServesNewer(s, n, u, inFlight, earlier) && earlier <= s.handlers.Keys && Runs(s, ls)
    requires |s.rows| <= r < |End(s, ls).rows|
    ensures var (x, q) := Insertion(s, ls, r);
      ServesNewer(x, n, u, inFlight, earlier) && x.handlers[q].userId == End(s, ls).rows[r].userId
    decreases |ls|
  {
    var t := Next(s, ls[0]);
    StepServesNewer(s, ls[0], n, u, inFlight, earlier);
    if r < |t.rows| {
      RowKeepsItsUser(t, ls[1..], r);
    } else {
      InsertedNewer(t, ls[1..], r, n, u, inFlight, earlier);
    }
  }

  lemma {:induction false} RowKeepsItsUser(s: System, ls: seq<Label>, r: nat)
    requires Runs(s, ls) && r < |s.rows|
    ensures r < |End(s, ls).rows| && End(s, ls).rows[r].userId == s.rows[r].userId
    ensures s.rows[r].revoked ==> End(s, ls).rows[r].revoked
    decreases |ls|
  {
    if ls != [] {
      StepExtends(s, ls[0]);
      var t := Next(s, ls[0]);
      assert t.rows[r] == s.rows[r].(revoked := t.rows[r].revoked);
      RowKeepsItsUser(t, ls[1..], r);
    }
  }

  /**
   * After a bulk revocation every live row of the user is new, and was inserted by a handler that was in
   * flight then, past its read or its guards, or by a login that started later, or by a refresh of a row
   * that is itself newer than the revocation.
   */
  lemma LiveRowsAfterRevocation(s: System, p: Pid, id: nat, expiresAt: Millis, ls: seq<Label>, r: nat)
    requires Enabled(s, Act(p, id, expiresAt)) && s.handlers[p].Revoking? && OwnTokens(s.rows)
    requires Runs(Next(s, Act(p, id, expiresAt)), ls)
    requires var e := End(Next(s, Act(p, id, expiresAt)), ls);
      r < |e.rows| && e.rows[r].userId == s.handlers[p].userId && !e.rows[r].revoked
    ensures |s.rows| <= r
    ensures var t := Next(s, Act(p, id, expiresAt)); var (x, q) := Insertion(t, ls, r);
      || (q in t.handlers && IsInFlight(t.handlers[q], s.handlers[p].userId))
      || (q !in t.handlers && x.handlers[q].LoggingIn?)
      || (x.handlers[q].Inserting? && x.handlers[q].row >= |s.rows|)
  {
    var t := Next(s, Act(p, id, expiresAt));
    var u := s.handlers[p].userId;
    if r < |t.rows| {
      RowKeepsItsUser(t, ls, r);
    }
    var inFlight := set q | q in t.handlers && IsInFlight(t.handlers[q], u);
    InsertedNewer(t, ls, r, |s.rows|, u, inFlight, t.handlers.Keys);
  }

  /** And whatever is in flight does survive: from every such state some run leaves a live session of the user. */
  lemma InFlightSurvivesRevocation(s: System, p: Pid, q: Pid, expiresAt: Millis) returns (ls: seq<Label>)
    requires p in s.handlers && s.handlers[p].Revoking?
    requires q in s.handlers && IsInFlight(s.handlers[q], s.handlers[p].userId)
    ensures |ls| > 0 && ls[0] == Act(p, NewId(s.rows), expiresAt) && Runs(s, ls)
    ensures var e := End(s, ls); var n := |s.rows|;
      |e.rows| == n + 1 && e.rows[n].userId == s.handlers[p].userId && !e.rows[n].revoked
  {
    var t := Next(s, Act(p, NewId(s.rows), expiresAt));
    if t.handlers[q].LoggingIn? {
      var act := Act(q, NewId(t.rows), expiresAt);
      ls := Prepend(Next(t, act), [], t, act);
    } else {
      ls := Completes(t, q, t.handlers[q].row, expiresAt);
    }
    ls := Prepend(t, ls, s, Act(p, NewId(s.rows), expiresAt));
  }
}
