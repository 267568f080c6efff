/**
  The login-session table of src/mes_dashboard/core/login_session_store.py.  The SQLite
  table is a map from row id to row; each SQL statement of the source is one Update.  Times
  are seconds on one clock.  Each call is taken as atomic: the write lock makes it so among
  the threads of one process, not between processes that share the file.
*/
module LoginSessions {
  import opened Options

  /** `login` is login_time, `logout` logout_time, `duration` duration_sec; NULL is None. */
  datatype Row = Row(
    sid: nat,
    emp: string,
    login: real,
    lastActive: Option<real>,
    logout: Option<real>,
    duration: Option<int>,
    synced: bool)
  {
    predicate IsOpen() {
      logout.None?
    }

    /** Everything the remote copy should hold: the row without its sync flag. */
    function Content(): Row {
      this.(synced := false)
    }
  }

  type Rows = map<nat, Row>

  datatype Table = Table(rows: Rows, nextId: nat)

  const EMPTY := Table(map[], 0)

  const LIFETIME: real := 28800.0

  /** UPDATE ... SET set WHERE where. */
  function Update(rows: Rows, where: Row -> bool, set_: Row -> Row): (updated: Rows)
    ensures updated.Keys == rows.Keys
  {
    map id | id in rows :: if where(rows[id]) then set_(rows[id]) else rows[id]
  }

  /** CAST(... AS INTEGER), and Python's int(): both cut toward zero. */
  function Truncated(x: real): int {
    if x >= 0.0 then x.Floor else -((-x).Floor)
  }

  function Resumed(r: Row, now: real): Row {
    r.(lastActive := Some(now), synced := false)
  }

  function Expired(r: Row, now: real): Row {
    r.(logout := Some(now), duration := Some(Truncated(now - r.login)), synced := false)
  }

  function Beaten(r: Row, now: real): Row {
    r.(logout := None, duration := None, lastActive := Some(now), synced := false)
  }

  function LoggedOut(r: Row, now: real): Row {
    var end := if r.lastActive.Some? then r.lastActive.value else now;
    r.(logout := Some(now), duration := Some(Truncated(end - r.login)), synced := false)
  }

  function ClosedWhereLeft(r: Row): Row {
    var end := if r.lastActive.Some? then r.lastActive.value else r.login;
    r.(logout := Some(end), duration := Some(Truncated(end - r.login)), synced := false)
  }

  predicate CanResume(r: Row, emp: string, now: real) {
    r.emp == emp && r.IsOpen() && r.login >= now - LIFETIME
  }

  /** ORDER BY id DESC LIMIT 1 among the rows a login may resume. */
  function Newest(rows: Rows, emp: string, now: real, below: nat): (id: Option<nat>)
    ensures id.Some? ==> id.value < below && id.value in rows && CanResume(rows[id.value], emp, now)
    ensures forall k :: k in rows && k < below && CanResume(rows[k], emp, now) ==> id.Some? && k <= id.value
  {
    if below == 0 then None
    else if below - 1 in rows && CanResume(rows[below - 1], emp, now) then Some(below - 1)
    else Newest(rows, emp, now, below - 1)
  }

  // ---------------------------------------------------------------------------
  // The calls as functions on the table
  // ---------------------------------------------------------------------------

  datatype Op =
    | Create(emp: string, now: real, sid: nat)
    | Heartbeat(sid: nat, now: real)
    | Logout(sid: nat, now: real)
    | CloseAll
    | CleanOrphans(cutoff: real)
    | Mark(ids: set<nat>)
    | CleanSynced(cutoff: real)

  function Apply(t: Table, op: Op): Table {
    match op
    case Create(emp, now, sid) =>
      (match Newest(t.rows, emp, now, t.nextId)
       case Some(id) =>
         var resumed := t.rows[id].sid;
         t.(rows := Update(t.rows, (r: Row) => r.sid == resumed, (r: Row) => Resumed(r, now)))
       case None =>
         var rest := Update(t.rows, (r: Row) => r.emp == emp && r.IsOpen(), (r: Row) => Expired(r, now));
         Table(rest[t.nextId := Row(sid, emp, now, Some(now), None, None, false)], t.nextId + 1))
    case Heartbeat(sid, now) => t.(rows := Update(t.rows, (r: Row) => r.sid == sid, (r: Row) => Beaten(r, now)))
    case Logout(sid, now) => t.(rows := Update(t.rows, (r: Row) => r.sid == sid, (r: Row) => LoggedOut(r, now)))
    case CloseAll => t.(rows := Update(t.rows, (r: Row) => r.IsOpen(), (r: Row) => ClosedWhereLeft(r)))
    case CleanOrphans(cutoff) =>
      t.(rows := Update(t.rows, (r: Row) => r.IsOpen() && r.login < cutoff, (r: Row) => ClosedWhereLeft(r)))
    case Mark(ids) =>
      t.(rows := map id | id in t.rows :: if id in ids then t.rows[id].(synced := true) else t.rows[id])
    case CleanSynced(cutoff) =>
      t.(rows := map id | id in t.rows && !(t.rows[id].synced && t.rows[id].login < cutoff) :: t.rows[id])
  }

  predicate UniqueSids(rows: Rows) {
    forall i, k :: i in rows && k in rows && rows[i].sid == rows[k].sid ==> i == k
  }

  predicate OpenHasNoDuration(rows: Rows) {
    forall id :: id in rows && rows[id].IsOpen() ==> rows[id].duration.None?
  }

  predicate Valid(t: Table) {
    && (forall id :: id in t.rows ==> id < t.nextId)
    && UniqueSids(t.rows)
    && OpenHasNoDuration(t.rows)
  }

  /** A login brings a session id no row has. */
  predicate FreshSid(t: Table, op: Op) {
    op.Create? ==> forall id :: id in t.rows ==> t.rows[id].sid != op.sid
  }

  // ---------------------------------------------------------------------------
  // The store
  // ---------------------------------------------------------------------------

  class LoginSessionStore {
    var rows: Rows
    var nextId: nat

    ghost function Contents(): Table
      reads this
    {
      Table(rows, nextId)
    }

    constructor ()
      ensures Contents() == EMPTY
    {
      rows, nextId := map[], 0;
    }

    /** The caller gets back an open session of that user, stamped now and waiting for sync. */
    method CreateSession(emp: string, now: real, freshSid: nat) returns (sid: nat)
      requires Valid(Contents()) && FreshSid(Contents(), Create(emp, now, freshSid))
      modifies this
      ensures Contents() == Apply(old(Contents()), Create(emp, now, freshSid))
      ensures exists id :: id in rows && rows[id].sid == sid && rows[id].emp == emp && rows[id].IsOpen()
                           && rows[id].lastActive == Some(now) && !rows[id].synced && rows[id].login >= now - LIFETIME
    {
      var id: nat := nextId;
      while id > 0 && !(id - 1 in rows && CanResume(rows[id - 1], emp, now))
        invariant id <= nextId
        invariant Newest(rows, emp, now, nextId) == Newest(rows, emp, now, id)
      {
        id := id - 1;
      }
      if id > 0 {
        sid := rows[id - 1].sid;
        rows := Update(rows, (r: Row) => r.sid == sid, (r: Row) => Resumed(r, now));
        assert rows[id - 1].sid == sid;
        return;
      }
      rows := Update(rows, (r: Row) => r.emp == emp && r.IsOpen(), (r: Row) => Expired(r, now));
      rows := rows[nextId := Row(freshSid, emp, now, Some(now), None, None, false)];
      assert rows[nextId].sid == freshSid;
      nextId := nextId + 1;
      sid := freshSid;
    }

    /** Three UPDATE statements, which together are the one of Apply. */
    method UpdateLastActive(sid: nat, now: real)
      requires Valid(Contents())
      modifies this
      ensures Contents() == Apply(old(Contents()), Heartbeat(sid, now))
    {
      HeartbeatIsOneUpdate(rows, sid, now);
      rows := Update(rows, (r: Row) => r.sid == sid && r.logout.Some?,
                     (r: Row) => r.(logout := None, duration := None, lastActive := Some(now), synced := false));
      rows := Update(rows, (r: Row) => r.sid == sid && (r.synced || r.lastActive.None?),
                     (r: Row) => r.(lastActive := Some(now), synced := false));
      rows := Update(rows, (r: Row) => r.sid == sid && !r.synced, (r: Row) => r.(lastActive := Some(now)));
    }

    method CloseSession(sid: nat, now: real)
      requires Valid(Contents())
      modifies this
      ensures Contents() == Apply(old(Contents()), Logout(sid, now))
      ensures rows.Keys == old(rows.Keys)
      ensures forall id :: id in rows ==>
                if old(rows)[id].sid != sid then rows[id] == old(rows)[id]
                else ClosedAt(old(rows)[id], rows[id], now, LastSeen(old(rows)[id], now) - old(rows)[id].login)
    {
      forall id | id in rows
        ensures id in Apply(Contents(), Logout(sid, now)).rows
        ensures var r := Apply(Contents(), Logout(sid, now)).rows[id];
                if rows[id].sid != sid then r == rows[id]
                else ClosedAt(rows[id], r, now, LastSeen(rows[id], now) - rows[id].login)
      {
        LogoutClosesSession(Contents(), sid, now, id);
      }
      var duration: Option<int> := None;
      if id :| id in rows && rows[id].sid == sid {
        var end := if rows[id].lastActive.Some? then rows[id].lastActive.value else now;
        duration := Some(Truncated(end - rows[id].login));
      }
      rows := Update(rows, (r: Row) => r.sid == sid,
                     (r: Row) => r.(logout := Some(now), duration := duration, synced := false));
    }

    method CloseAllActiveSessions() returns (count: nat)
      modifies this
      ensures Contents() == Apply(old(Contents()), CloseAll)
      ensures forall id :: id in rows ==> !rows[id].IsOpen()
      ensures count == |set id | id in old(rows) && old(rows)[id].IsOpen()|
    {
      count := |set id | id in rows && rows[id].IsOpen()|;
      rows := Update(rows, (r: Row) => r.IsOpen(), (r: Row) => ClosedWhereLeft(r));
    }

    method CleanupOrphanSessions(now: real, olderThanHours: int) returns (count: nat)
      modifies this
      ensures Contents() == Apply(old(Contents()), CleanOrphans(now - 3600.0 * olderThanHours as real))
      ensures forall id :: id in rows && rows[id].IsOpen() ==> rows[id].login >= now - 3600.0 * olderThanHours as real
      ensures count == |set id | id in old(rows) && old(rows)[id].IsOpen()
                                 && old(rows)[id].login < now - 3600.0 * olderThanHours as real|
    {
      var cutoff := now - 3600.0 * olderThanHours as real;
      count := |set id | id in rows && rows[id].IsOpen() && rows[id].login < cutoff|;
      rows := Update(rows, (r: Row) => r.IsOpen() && r.login < cutoff, (r: Row) => ClosedWhereLeft(r));
    }

    /** The oldest unsynced rows, in id order, at most batchSize of them and all of them if they fit. */
    method GetUnsynced(batchSize: nat) returns (batch: seq<nat>)
      requires Valid(Contents())
      ensures forall i :: 0 <= i < |batch| ==> batch[i] in rows && !rows[batch[i]].synced
      ensures forall i, k :: 0 <= i < k < |batch| ==> batch[i] < batch[k]
      ensures |batch| <= batchSize
      ensures forall id :: id in rows && !rows[id].synced && id !in batch ==>
                |batch| == batchSize && forall i :: 0 <= i < |batch| ==> batch[i] < id
    {
      batch := [];
      var id := 0;
      while id < nextId && |batch| < batchSize
        invariant id <= nextId && |batch| <= batchSize
        invariant forall i :: 0 <= i < |batch| ==> batch[i] < id && batch[i] in rows && !rows[batch[i]].synced
        invariant forall i, k :: 0 <= i < k < |batch| ==> batch[i] < batch[k]
        invariant forall k :: k in rows && k < id && !rows[k].synced ==> k in batch
      {
        if id in rows && !rows[id].synced {
          batch := batch + [id];
        }
        id := id + 1;
      }
    }

    /** The named rows that exist stop waiting for sync; no row's content changes, nor any other row's flag. */
    method MarkSynced(ids: set<nat>)
      modifies this
      ensures Contents() == Apply(old(Contents()), Mark(ids))
      ensures rows.Keys == old(rows.Keys) && nextId == old(nextId)
      ensures forall id :: id in rows ==> rows[id].Content() == old(rows)[id].Content()
      ensures forall id :: id in rows ==> (rows[id].synced <==> id in ids || old(rows)[id].synced)
    {
      rows := map id | id in rows :: if id in ids then rows[id].(synced := true) else rows[id];
    }

    /**
      A row goes exactly if it is synced and older; whatever waits for sync stays, what stays
      is unchanged, and the count is of the rows gone.
    */
    method CleanupSynced(now: real, olderThanHours: int) returns (deleted: nat)
      modifies this
      ensures Contents() == Apply(old(Contents()), CleanSynced(now - 3600.0 * olderThanHours as real))
      ensures forall id :: id in old(rows) && !old(rows)[id].synced ==> id in rows
      ensures forall id :: id in rows ==> id in old(rows) && rows[id] == old(rows)[id]
      ensures forall id :: id in old(rows) && id !in rows ==>
                old(rows)[id].synced && old(rows)[id].login < now - 3600.0 * olderThanHours as real
      ensures forall id :: id in rows ==> !(rows[id].synced && rows[id].login < now - 3600.0 * olderThanHours as real)
      ensures deleted + |rows| == old(|rows|)
    {
      var cutoff := now - 3600.0 * olderThanHours as real;
      var gone := set id | id in rows && rows[id].synced && rows[id].login < cutoff;
      deleted := |gone|;
      ghost var before := rows;
      rows := map id | id in rows && !(rows[id].synced && rows[id].login < cutoff) :: rows[id];
      assert rows.Keys == before.Keys - gone && gone <= before.Keys;
      assert |rows| == |rows.Keys| && |before| == |before.Keys|;
    }
  }

  function ThreeUpdates(rows: Rows, sid: nat, now: real): Rows {
    var one := Update(rows, (r: Row) => r.sid == sid && r.logout.Some?,
                      (r: Row) => r.(logout := None, duration := None, lastActive := Some(now), synced := false));
    var two := Update(one, (r: Row) => r.sid == sid && (r.synced || r.lastActive.None?),
                      (r: Row) => r.(lastActive := Some(now), synced := false));
    Update(two, (r: Row) => r.sid == sid && !r.synced, (r: Row) => r.(lastActive := Some(now)))
  }

  /**
    The heartbeat's three statements are one unconditional update exactly when no open row of
    the session has a duration.
  */
  lemma {:induction false} HeartbeatIsOneUpdate(rows: Rows, sid: nat, now: real)
    ensures ThreeUpdates(rows, sid, now) == Update(rows, (r: Row) => r.sid == sid, (r: Row) => Beaten(r, now))
            <==> forall id :: id in rows && rows[id].sid == sid && rows[id].IsOpen() ==> rows[id].duration.None?
  {
    var three := ThreeUpdates(rows, sid, now);
    var single := Update(rows, (r: Row) => r.sid == sid, (r: Row) => Beaten(r, now));
    forall id | id in rows
      ensures three[id] == single[id] <==> rows[id].sid == sid && rows[id].IsOpen() ==> rows[id].duration.None?
    {
    }
    if forall id :: id in rows && rows[id].sid == sid && rows[id].IsOpen() ==> rows[id].duration.None? {
      assert forall id :: id in rows ==> three[id] == single[id];
      assert three == single;
    }
  }

  // ---------------------------------------------------------------------------
  // Runs
  // ---------------------------------------------------------------------------

  /**
    The first n calls of a run from table `t`: states[i] is the table before ops[i], and
    every login brings a fresh session id.
  */
  predicate IsRun(t: Table, ops: seq<Op>, states: seq<Table>, n: nat) {
    && n <= |ops|
    && |states| == |ops| + 1
    && if n == 0 then states[0] == t
       else
         && IsRun(t, ops, states, n - 1)
         && FreshSid(states[n - 1], ops[n - 1])
         && states[n] == Apply(states[n - 1], ops[n - 1])
  }

  lemma {:induction false} LoginKeepsValid(t: Table, op: Op, u: Table)
    requires Valid(t) && FreshSid(t, op) && u == Apply(t, op) && op.Create?
    ensures Valid(u) && t.nextId <= u.nextId
    ensures forall id :: id in u.rows && id < t.nextId ==> id in t.rows
  {
  }

  lemma {:induction false} StepKeepsValid(t: Table, op: Op, u: Table)
    requires Valid(t) && FreshSid(t, op) && u == Apply(t, op)
    ensures Valid(u) && t.nextId <= u.nextId
    ensures forall id :: id in u.rows && id < t.nextId ==> id in t.rows
  {
    if op.Create? {
      LoginKeepsValid(t, op, u);
    }
  }

  lemma {:induction false} RunKeepsValid(t: Table, ops: seq<Op>, states: seq<Table>, n: nat)
    requires Valid(t) && IsRun(t, ops, states, n)
    ensures Valid(states[n]) && t.nextId <= states[n].nextId
  {
    if n > 0 {
      RunKeepsValid(t, ops, states, n - 1);
      StepKeepsValid(states[n - 1], ops[n - 1], states[n]);
    }
  }

  // ---------------------------------------------------------------------------
  // What each call does to a row
  // ---------------------------------------------------------------------------

  /** Whole seconds, cut toward zero. */
  predicate Cuts(d: int, x: real) {
    if x >= 0.0 then d as real <= x < d as real + 1.0 else d as real - 1.0 < x <= d as real
  }

  lemma {:induction false} TruncatedCuts(x: real)
    ensures Cuts(Truncated(x), x)
  {
  }

  /** `r` is `was` closed at `end` after `spent` seconds, and waits for sync; nothing else has changed. */
  predicate ClosedAt(was: Row, r: Row, end: real, spent: real) {
    && r.logout == Some(end) && r.duration.Some? && Cuts(r.duration.value, spent) && !r.synced
    && r.sid == was.sid && r.emp == was.emp && r.login == was.login && r.lastActive == was.lastActive
  }

  /** The last activity before the call, or `none` where there was none. */
  function LastSeen(r: Row, none: real): real {
    match r.lastActive case Some(t) => t case None => none
  }

  /**
    Logout: every row of the session gets the logout time now and a duration that runs to its
    last activity, or to now where it had none; no other row changes.
  */
  lemma {:induction false} LogoutClosesSession(t: Table, sid: nat, now: real, id: nat)
    requires id in t.rows
    ensures var u := Apply(t, Logout(sid, now));
            && u.rows.Keys == t.rows.Keys && u.nextId == t.nextId
            && if t.rows[id].sid == sid
               then ClosedAt(t.rows[id], u.rows[id], now, LastSeen(t.rows[id], now) - t.rows[id].login)
               else u.rows[id] == t.rows[id]
  {
    TruncatedCuts(LastSeen(t.rows[id], now) - t.rows[id].login);
  }

  /** The calls that close what was left open. */
  predicate ClosesLeftOver(op: Op, r: Row) {
    match op
    case CloseAll => r.logout.None?
    case CleanOrphans(cutoff) => r.logout.None? && r.login < cutoff
    case _ => false
  }

  /** A shutdown closes every open row, the clean-up those older than its cutoff: each at its last activity. */
  lemma {:induction false} LeftOverClosedWhereLeft(t: Table, op: Op, id: nat)
    requires id in t.rows && (op.CloseAll? || op.CleanOrphans?)
    ensures var u := Apply(t, op);
            var end := LastSeen(t.rows[id], t.rows[id].login);
            && u.rows.Keys == t.rows.Keys && u.nextId == t.nextId
            && if ClosesLeftOver(op, t.rows[id])
               then ClosedAt(t.rows[id], u.rows[id], end, end - t.rows[id].login)
               else u.rows[id] == t.rows[id]
  {
    TruncatedCuts(LastSeen(t.rows[id], t.rows[id].login) - t.rows[id].login);
  }

  /** An open session of that user, logged in no more than eight hours ago. */
  predicate Resumable(r: Row, emp: string, now: real) {
    r.emp == emp && r.logout.None? && r.login >= now - 8.0 * 3600.0
  }

  /** A login that finds such a session stamps the newest one, and changes no other row. */
  lemma {:induction false} LoginResumes(t: Table, emp: string, now: real, sid: nat, found: nat, id: nat)
    requires Valid(t) && found in t.rows && Resumable(t.rows[found], emp, now)
    requires forall k :: k in t.rows && Resumable(t.rows[k], emp, now) ==> k <= found
    requires id in t.rows
    ensures var u := Apply(t, Create(emp, now, sid));
            && u.rows.Keys == t.rows.Keys && u.nextId == t.nextId
            && u.rows[id] == if id == found then t.rows[id].(lastActive := Some(now), synced := false) else t.rows[id]
  {
    assert forall k :: k in t.rows ==> (CanResume(t.rows[k], emp, now) <==> Resumable(t.rows[k], emp, now));
    assert Newest(t.rows, emp, now, t.nextId) == Some(found);
  }

  /**
    A login that finds none adds one new open row and closes every session the user had left
    open, now, with the whole time since its login as duration; no other row changes.
  */
  lemma {:induction false} LoginOpens(t: Table, emp: string, now: real, sid: nat, id: nat)
    requires Valid(t) && forall k :: k in t.rows ==> !Resumable(t.rows[k], emp, now)
    ensures var u := Apply(t, Create(emp, now, sid));
            && u.rows.Keys == t.rows.Keys + {t.nextId} && u.nextId == t.nextId + 1
            && u.rows[t.nextId] == Row(sid, emp, now, Some(now), None, None, false)
            && (id in t.rows ==>
                  if t.rows[id].emp == emp && t.rows[id].logout.None?
                  then ClosedAt(t.rows[id], u.rows[id], now, now - t.rows[id].login)
                  else u.rows[id] == t.rows[id])
  {
    assert forall k :: k in t.rows ==> (CanResume(t.rows[k], emp, now) <==> Resumable(t.rows[k], emp, now));
    assert Newest(t.rows, emp, now, t.nextId) == None;
    if id in t.rows {
      TruncatedCuts(now - t.rows[id].login);
    }
  }

  /** A heartbeat opens the session's row, stamps it now and sets it waiting for sync; no other row changes. */
  lemma {:induction false} HeartbeatStamps(t: Table, sid: nat, now: real, id: nat)
    requires id in t.rows
    ensures var u, r := Apply(t, Heartbeat(sid, now)), t.rows[id];
            && u.rows.Keys == t.rows.Keys && u.nextId == t.nextId
            && u.rows[id] == if r.sid == sid then Row(sid, r.emp, r.login, Some(now), None, None, false) else r
  {
  }

  // ---------------------------------------------------------------------------
  // Times and durations
  // ---------------------------------------------------------------------------

  predicate At(op: Op, time: real) {
    match op
    case Create(_, now, _) => now == time
    case Heartbeat(_, now) => now == time
    case Logout(_, now) => now == time
    case _ => true
  }

  /** clock[i] is the time of ops[i], and never decreases. */
  predicate Clocked(ops: seq<Op>, clock: seq<real>) {
    && |clock| == |ops|
    && (forall i :: 0 <= i < |ops| ==> At(ops[i], clock[i]))
    && (forall i, k :: 0 <= i < k < |clock| ==> clock[i] <= clock[k])
  }

  /**
    The stamps of a row are in order and none lies ahead of the clock; a row has a duration
    exactly when it is closed, and the duration covers the time to the last activity, up to
    the cut second, and no more than the time to the logout.
  */
  predicate TimesOk(r: Row, time: real) {
    && r.lastActive.Some? && r.login <= r.lastActive.value <= time
    && (r.duration.Some? <==> r.logout.Some?)
    && (r.logout.Some? && r.duration.Some? ==>
          && r.lastActive.value <= r.logout.value <= time
          && 0 <= r.duration.value
          && r.lastActive.value - r.login - 1.0 < r.duration.value as real <= r.logout.value - r.login)
  }

  lemma {:induction false} LoginKeepsTimes(t: Table, op: Op, u: Table, before: real, time: real)
    requires Valid(t) && u == Apply(t, op) && At(op, time) && before <= time
    requires forall id :: id in t.rows ==> TimesOk(t.rows[id], before)
    requires op.Create?
    ensures forall id :: id in u.rows ==> TimesOk(u.rows[id], time)
  {
  }

  predicate Closes(op: Op) {
    op.Logout? || op.CloseAll? || op.CleanOrphans?
  }

  lemma {:induction false} ClosingKeepsTimes(t: Table, op: Op, u: Table, before: real, time: real)
    requires Valid(t) && u == Apply(t, op) && At(op, time) && before <= time
    requires forall id :: id in t.rows ==> TimesOk(t.rows[id], before)
    requires Closes(op)
    ensures forall id :: id in u.rows ==> TimesOk(u.rows[id], time)
  {
  }

  lemma {:induction false} OtherKeepsTimes(t: Table, op: Op, u: Table, before: real, time: real)
    requires Valid(t) && u == Apply(t, op) && At(op, time) && before <= time
    requires forall id :: id in t.rows ==> TimesOk(t.rows[id], before)
    requires !op.Create? && !Closes(op)
    ensures forall id :: id in u.rows ==> TimesOk(u.rows[id], time)
  {
  }

  lemma {:induction false} TimesStayInOrder(ops: seq<Op>, states: seq<Table>, clock: seq<real>, n: nat)
    requires IsRun(EMPTY, ops, states, n) && Clocked(ops, clock)
    ensures forall id :: id in states[n].rows ==> n > 0 && TimesOk(states[n].rows[id], clock[n - 1])
  {
    if n > 0 {
      TimesStayInOrder(ops, states, clock, n - 1);
      RunKeepsValid(EMPTY, ops, states, n - 1);
      var before := if n > 1 then clock[n - 2] else clock[n - 1];
      var op := ops[n - 1];
      if op.Create? {
        LoginKeepsTimes(states[n - 1], op, states[n], before, clock[n - 1]);
      } else if Closes(op) {
        ClosingKeepsTimes(states[n - 1], op, states[n], before, clock[n - 1]);
      } else {
        OtherKeepsTimes(states[n - 1], op, states[n], before, clock[n - 1]);
      }
    }
  }

  // ---------------------------------------------------------------------------
  // The sync flag
  // ---------------------------------------------------------------------------

  predicate Marks(op: Op, id: nat) {
    op.Mark? && id in op.ids
  }

  predicate SameContent(t: Table, u: Table, id: nat) {
    id in t.rows && id in u.rows && t.rows[id].Content() == u.rows[id].Content()
  }

  /** A row that is synced after a step was just marked, or was synced before; it has not changed. */
  lemma {:induction false} SyncedStep(t: Table, op: Op, u: Table, id: nat)
    requires Valid(t) && u == Apply(t, op) && id in u.rows && u.rows[id].synced
    ensures SameContent(t, u, id)
    ensures Marks(op, id) || t.rows[id].synced
  {
  }

  /** In every run a synced row still holds what it held when it was last marked. */
  lemma {:induction false} SyncedSinceMark(ops: seq<Op>, states: seq<Table>, n: nat, id: nat) returns (k: nat)
    requires IsRun(EMPTY, ops, states, n) && id in states[n].rows && states[n].rows[id].synced
    ensures k < n && Marks(ops[k], id) && forall i :: k < i < n ==> !Marks(ops[i], id)
    ensures SameContent(states[k], states[n], id)
  {
    RunKeepsValid(EMPTY, ops, states, n - 1);
    SyncedStep(states[n - 1], ops[n - 1], states[n], id);
    if Marks(ops[n - 1], id) {
      k := n - 1;
    } else {
      k := SyncedSinceMark(ops, states, n - 1, id);
    }
  }

  /** The only call that deletes is cleanup_synced, and it deletes no change made since the row was last marked. */
  lemma {:induction false} NoUnmarkedChangeIsDeleted(ops: seq<Op>, states: seq<Table>, n: nat, id: nat) returns (k: nat)
    requires n < |ops| && IsRun(EMPTY, ops, states, n + 1) && id in states[n].rows && id !in states[n + 1].rows
    ensures ops[n].CleanSynced? && states[n].rows[id].login < ops[n].cutoff
    ensures k < n && Marks(ops[k], id) && SameContent(states[k], states[n], id)
  {
    k := SyncedSinceMark(ops, states, n, id);
  }

  // ---------------------------------------------------------------------------
  // Fetch, upload, mark: what the mark may hide
  // ---------------------------------------------------------------------------

  /** The WHERE clauses of the calls: whether `op` rewrites row `id`. */
  predicate Touches(t: Table, op: Op, id: nat) {
    id in t.rows
    && var r := t.rows[id];
       match op
       case Create(emp, now, _) =>
         (match Newest(t.rows, emp, now, t.nextId)
          case Some(k) => r.sid == t.rows[k].sid
          case None => r.emp == emp && r.IsOpen())
       case Heartbeat(sid, _) => r.sid == sid
       case Logout(sid, _) => r.sid == sid
       case CloseAll => r.IsOpen()
       case CleanOrphans(cutoff) => r.IsOpen() && r.login < cutoff
       case _ => false
  }

  predicate TouchedBefore(ops: seq<Op>, states: seq<Table>, n: nat, id: nat)
    requires n <= |ops| && |states| == |ops| + 1
  {
    exists i :: 0 <= i < n && Touches(states[i], ops[i], id)
  }

  predicate Later(op: Op, since: real) {
    match op
    case Create(_, now, _) => now > since
    case Heartbeat(_, now) => now > since
    case Logout(_, now) => now > since
    case _ => true
  }

  predicate StampedBy(r: Row, since: real) {
    && (r.lastActive.Some? ==> r.lastActive.value <= since)
    && (r.logout.Some? ==> r.logout.value <= since)
  }

  /** A stamp later than `since`, or closed where it was open. */
  predicate Moved(was: Row, r: Row, since: real) {
    || (r.lastActive.Some? && r.lastActive.value > since)
    || (r.logout.Some? && (was.IsOpen() || r.logout.value > since))
  }

  lemma {:induction false} UntouchedStep(t: Table, op: Op, u: Table, id: nat)
    requires Valid(t) && u == Apply(t, op) && id in t.rows && id in u.rows && !Touches(t, op, id)
    ensures SameContent(t, u, id)
  {
  }

  lemma {:induction false} TouchMoves(t: Table, op: Op, u: Table, id: nat, was: Row, since: real)
    requires Valid(t) && u == Apply(t, op) && id in t.rows && id in u.rows && Later(op, since)
    requires Touches(t, op, id)
    requires t.rows[id].Content() == was.Content() || Moved(was, t.rows[id], since)
    ensures Moved(was, u.rows[id], since)
  {
  }

  /** The last step of a run: a row there at both ends was there before it. */
  lemma {:induction false} LastStep(t: Table, ops: seq<Op>, states: seq<Table>, n: nat, id: nat)
    requires Valid(t) && 0 < n && IsRun(t, ops, states, n)
    requires id in t.rows && id in states[n].rows
    ensures Valid(states[n - 1]) && id in states[n - 1].rows && states[n] == Apply(states[n - 1], ops[n - 1])
  {
    RunKeepsValid(t, ops, states, n - 1);
    StepKeepsValid(states[n - 1], ops[n - 1], states[n]);
  }

  /** Over a run a row keeps its content exactly if no call touched it; once touched it stays different. */
  lemma {:induction false} KeptExactlyIfUntouched(t: Table, ops: seq<Op>, states: seq<Table>, n: nat, id: nat,
        since: real)
    requires Valid(t) && IsRun(t, ops, states, n) && forall i :: 0 <= i < n ==> Later(ops[i], since)
    requires id in t.rows && StampedBy(t.rows[id], since) && id in states[n].rows
    ensures SameContent(t, states[n], id) <==> !TouchedBefore(ops, states, n, id)
    ensures TouchedBefore(ops, states, n, id) ==> Moved(t.rows[id], states[n].rows[id], since)
  {
    if n > 0 {
      var before, op := states[n - 1], ops[n - 1];
      LastStep(t, ops, states, n, id);
      KeptExactlyIfUntouched(t, ops, states, n - 1, id, since);
      if Touches(before, op, id) {
        TouchMoves(before, op, states[n], id, t.rows[id], since);
      } else {
        UntouchedStep(before, op, states[n], id);
      }
    }
  }

  /**
    Upload then mark: rows are fetched from `t`, calls run meanwhile, then the fetched ids are
    marked.  A row is left flagged as synced although the uploaded copy is stale exactly when
    some call in between touched it.
  */
  lemma {:induction false} MarkHidesExactlyTheTouched(t: Table, meanwhile: seq<Op>, states: seq<Table>,
        ids: set<nat>, id: nat,
        since: real)
    requires Valid(t) && IsRun(t, meanwhile, states, |meanwhile|)
    requires forall i :: 0 <= i < |meanwhile| ==> Later(meanwhile[i], since)
    requires id in ids && id in t.rows && StampedBy(t.rows[id], since) && id in states[|meanwhile|].rows
    ensures var marked := Apply(states[|meanwhile|], Mark(ids));
            && id in marked.rows && marked.rows[id].synced
            && (SameContent(t, marked, id) <==> !TouchedBefore(meanwhile, states, |meanwhile|, id))
  {
    KeptExactlyIfUntouched(t, meanwhile, states, |meanwhile|, id, since);
  }

  predicate MarkedBefore(ops: seq<Op>, n: nat, id: nat)
    requires n <= |ops|
  {
    exists i :: 0 <= i < n && Marks(ops[i], id)
  }

  lemma {:induction false} TouchUnsyncs(t: Table, op: Op, u: Table, id: nat)
    requires Valid(t) && u == Apply(t, op) && id in t.rows && id in u.rows && !Marks(op, id)
    ensures u.rows[id].synced <==> t.rows[id].synced && !Touches(t, op, id)
  {
  }

  lemma {:induction false} TouchedNext(ops: seq<Op>, states: seq<Table>, n: nat, id: nat)
    requires 0 < n <= |ops| && |states| == |ops| + 1
    ensures TouchedBefore(ops, states, n, id)
            <==> TouchedBefore(ops, states, n - 1, id) || Touches(states[n - 1], ops[n - 1], id)
  {
  }

  lemma {:induction false} MarkedNext(ops: seq<Op>, n: nat, id: nat)
    requires 0 < n <= |ops|
    ensures MarkedBefore(ops, n, id) <==> MarkedBefore(ops, n - 1, id) || Marks(ops[n - 1], id)
  {
  }

  /** After it was marked, and until it is marked again, a row stays synced exactly while no call touches it. */
  lemma {:induction false} SyncedExactlyUntouched(t: Table, ops: seq<Op>, states: seq<Table>, n: nat, id: nat)
    requires Valid(t) && IsRun(t, ops, states, n) && !MarkedBefore(ops, n, id)
    requires id in t.rows && t.rows[id].synced && id in states[n].rows
    ensures states[n].rows[id].synced <==> !TouchedBefore(ops, states, n, id)
  {
    if n > 0 {
      LastStep(t, ops, states, n, id);
      MarkedNext(ops, n, id);
      SyncedExactlyUntouched(t, ops, states, n - 1, id);
      TouchUnsyncs(states[n - 1], ops[n - 1], states[n], id);
      TouchedNext(ops, states, n, id);
    }
  }

  lemma {:induction false} UntouchedKeepsContent(t: Table, ops: seq<Op>, states: seq<Table>, n: nat, id: nat)
    requires Valid(t) && IsRun(t, ops, states, n) && !TouchedBefore(ops, states, n, id)
    requires id in t.rows && id in states[n].rows
    ensures SameContent(t, states[n], id)
  {
    if n > 0 {
      LastStep(t, ops, states, n, id);
      TouchedNext(ops, states, n, id);
      UntouchedKeepsContent(t, ops, states, n - 1, id);
      UntouchedStep(states[n - 1], ops[n - 1], states[n], id);
    }
  }

  /**
    Upload, mark, clean up: rows are fetched from `t`, calls run meanwhile, the fetched ids
    are marked, and more calls run up to a cleanup that reaches back past the row's login.
    The cleanup deletes a change that was never uploaded exactly when some call touched the
    row before the mark and none did after it.
  */
  lemma {:induction false} UnsentChangeDeletedExactlyWhen(t: Table, meanwhile: seq<Op>, states: seq<Table>,
        ids: set<nat>, later: seq<Op>, states': seq<Table>, id: nat, since: real, cutoff: real)
    requires Valid(t) && IsRun(t, meanwhile, states, |meanwhile|)
    requires forall i :: 0 <= i < |meanwhile| ==> Later(meanwhile[i], since)
    requires id in ids && id in t.rows && StampedBy(t.rows[id], since) && id in states[|meanwhile|].rows
    requires IsRun(Apply(states[|meanwhile|], Mark(ids)), later, states', |later|)
    requires !MarkedBefore(later, |later|, id)
    requires id in states'[|later|].rows && states'[|later|].rows[id].login < cutoff
    ensures id !in Apply(states'[|later|], CleanSynced(cutoff)).rows <==> !TouchedBefore(later, states', |later|, id)
    ensures id !in Apply(states'[|later|], CleanSynced(cutoff)).rows && !SameContent(t, states'[|later|], id)
            <==> TouchedBefore(meanwhile, states, |meanwhile|, id) && !TouchedBefore(later, states', |later|, id)
  {
    var marked := Apply(states[|meanwhile|], Mark(ids));
    RunKeepsValid(t, meanwhile, states, |meanwhile|);
    StepKeepsValid(states[|meanwhile|], Mark(ids), marked);
    MarkHidesExactlyTheTouched(t, meanwhile, states, ids, id, since);
    SyncedExactlyUntouched(marked, later, states', |later|, id);
    if !TouchedBefore(later, states', |later|, id) {
      UntouchedKeepsContent(marked, later, states', |later|, id);
    }
  }

  /** Fetch, heartbeat, mark, cleanup: the heartbeat's change is deleted and was never uploaded. */
  lemma {:induction false} HeartbeatLost(emp: string)
    ensures var row := Row(1, emp, 10.0, Some(10.0), None, None, false);
            var fetched := Table(map[0 := row], 1);
            var beaten := Apply(fetched, Heartbeat(1, 20.0));
            var marked := Apply(beaten, Mark({0}));
            && 0 in marked.rows && marked.rows[0].Content() != row.Content()
            && 0 !in Apply(marked, CleanSynced(30.0)).rows
  {
  }

  // ---------------------------------------------------------------------------
  // One open session per user
  // ---------------------------------------------------------------------------

  predicate AtMostOneOpen(rows: Rows) {
    forall i, k ::
      (i in rows && k in rows && rows[i].IsOpen() && rows[k].IsOpen() && rows[i].emp == rows[k].emp) ==> i == k
  }

  /** The heartbeat names a closed session of a user who has an open one. */
  predicate ReopensBeside(t: Table, op: Op) {
    op.Heartbeat?
    && exists i, k :: i in t.rows && k in t.rows && t.rows[i].sid == op.sid && !t.rows[i].IsOpen()
                      && t.rows[k].IsOpen() && t.rows[k].emp == t.rows[i].emp
  }

  lemma {:induction false} LoginKeepsOneOpen(t: Table, op: Op, u: Table)
    requires Valid(t) && AtMostOneOpen(t.rows) && FreshSid(t, op) && u == Apply(t, op) && op.Create?
    ensures AtMostOneOpen(u.rows)
  {
  }

  lemma {:induction false} HeartbeatKeepsOneOpen(t: Table, op: Op, u: Table)
    requires Valid(t) && AtMostOneOpen(t.rows) && u == Apply(t, op) && op.Heartbeat?
    ensures AtMostOneOpen(u.rows) <==> !ReopensBeside(t, op)
  {
    if ReopensBeside(t, op) {
      var i, k :| i in t.rows && k in t.rows && t.rows[i].sid == op.sid && !t.rows[i].IsOpen()
                  && t.rows[k].IsOpen() && t.rows[k].emp == t.rows[i].emp;
      assert u.rows[i].IsOpen() && u.rows[k].IsOpen() && u.rows[i].emp == u.rows[k].emp;
    }
  }

  lemma {:induction false} OtherKeepsOneOpen(t: Table, op: Op, u: Table)
    requires AtMostOneOpen(t.rows) && u == Apply(t, op) && !op.Create? && !op.Heartbeat?
    ensures AtMostOneOpen(u.rows)
  {
  }

  /**
    The only call that can give a user a second open session is a heartbeat that reopens
    beside an open one, and it always does.
  */
  lemma {:induction false} StepKeepsOneOpen(t: Table, op: Op, u: Table)
    requires Valid(t) && AtMostOneOpen(t.rows) && FreshSid(t, op) && u == Apply(t, op)
    ensures AtMostOneOpen(u.rows) <==> !ReopensBeside(t, op)
  {
    if op.Create? {
      LoginKeepsOneOpen(t, op, u);
    } else if op.Heartbeat? {
      HeartbeatKeepsOneOpen(t, op, u);
    } else {
      OtherKeepsOneOpen(t, op, u);
    }
  }

  /** Unless a heartbeat reopens a closed session beside an open one, no user ever has two open sessions. */
  lemma {:induction false} OneOpenPerUser(ops: seq<Op>, states: seq<Table>, n: nat)
    requires IsRun(EMPTY, ops, states, n)
    requires forall i :: 0 <= i < n ==> !ReopensBeside(states[i], ops[i])
    ensures AtMostOneOpen(states[n].rows)
  {
    if n > 0 {
      OneOpenPerUser(ops, states, n - 1);
      RunKeepsValid(EMPTY, ops, states, n - 1);
      StepKeepsOneOpen(states[n - 1], ops[n - 1], states[n]);
    }
  }

  /** Login, server restart, login elsewhere, heartbeat of the old cookie: two open sessions. */
  lemma {:induction false} HeartbeatOpensASecond(emp: string)
    ensures exists states: seq<Table> ::
              IsRun(EMPTY, [Create(emp, 10.0, 1), CloseAll, Create(emp, 20.0, 2), Heartbeat(1, 30.0)], states, 4)
              && !AtMostOneOpen(states[4].rows)
  {
    var a := Row(1, emp, 10.0, Some(10.0), None, None, false);
    var b := Row(2, emp, 20.0, Some(20.0), None, None, false);
    var one := Table(map[0 := a], 1);
    var two := Table(map[0 := ClosedWhereLeft(a)], 1);
    var three := Table(map[0 := ClosedWhereLeft(a), 1 := b], 2);
    var four := Table(map[0 := Beaten(a, 30.0), 1 := b], 2);
    FirstLogin(emp, 10.0, 1, EMPTY, one, a);
    RestartCloses(a);
    FirstLogin(emp, 20.0, 2, two, three, b);
    OldCookieReopens(a, b, 30.0);
    assert !AtMostOneOpen(four.rows) by {
      assert four.rows[0].IsOpen() && four.rows[1].IsOpen() && four.rows[0].emp == four.rows[1].emp;
    }
    var ops := [Create(emp, 10.0, 1), CloseAll, Create(emp, 20.0, 2), Heartbeat(1, 30.0)];
    var states := [EMPTY, one, two, three, four];
    FourCalls(ops, states);
  }

  lemma {:induction false} FourCalls(ops: seq<Op>, states: seq<Table>)
    requires |ops| == 4 && |states| == 5 && states[0] == EMPTY
    requires forall i :: 0 <= i < 4 ==> FreshSid(states[i], ops[i])
    requires states[1] == Apply(states[0], ops[0]) && states[2] == Apply(states[1], ops[1])
    requires states[3] == Apply(states[2], ops[2]) && states[4] == Apply(states[3], ops[3])
    ensures IsRun(EMPTY, ops, states, 4)
  {
    assert IsRun(EMPTY, ops, states, 0);
    NextCall(EMPTY, ops, states, 0);
    NextCall(EMPTY, ops, states, 1);
    NextCall(EMPTY, ops, states, 2);
    NextCall(EMPTY, ops, states, 3);
  }

  lemma {:induction false} NextCall(t: Table, ops: seq<Op>, states: seq<Table>, n: nat)
    requires n < |ops| && IsRun(t, ops, states, n)
    requires FreshSid(states[n], ops[n]) && states[n + 1] == Apply(states[n], ops[n])
    ensures IsRun(t, ops, states, n + 1)
  {
  }

  lemma {:induction false} RestartCloses(a: Row)
    requires a.IsOpen()
    ensures Apply(Table(map[0 := a], 1), CloseAll) == Table(map[0 := ClosedWhereLeft(a)], 1)
  {
  }

  lemma {:induction false} OldCookieReopens(a: Row, b: Row, now: real)
    requires a.sid != b.sid
    ensures Apply(Table(map[0 := ClosedWhereLeft(a), 1 := b], 2), Heartbeat(a.sid, now))
            == Table(map[0 := Beaten(a, now), 1 := b], 2)
  {
  }

  lemma {:induction false} FirstLogin(emp: string, now: real, sid: nat, t: Table, u: Table, row: Row)
    requires forall id :: id in t.rows ==> !t.rows[id].IsOpen()
    requires row == Row(sid, emp, now, Some(now), None, None, false)
    requires u == Table(t.rows[t.nextId := row], t.nextId + 1)
    ensures u == Apply(t, Create(emp, now, sid))
  {
    assert Newest(t.rows, emp, now, t.nextId).None?;
    assert t.rows == Update(t.rows, (r: Row) => r.emp == emp && r.IsOpen(), (r: Row) => Expired(r, now));
  }
}
