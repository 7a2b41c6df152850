/** The database connection as a handle state machine. What the client library answers is arbitrary and
    passed in; every call made to the library is recorded, so that the whole run can be judged. */
module DbConnect {
  import opened CallText
  import opened Words

  type HandleId = nat

  datatype Con = Null | Handle(id: HandleId)

  /** Calls to the library, with their outcome where it matters. A handle is the identity of one
      object made by mysql_init. */
  datatype LibCall =
    | Connected(h: HandleId) | ConnectFailed(con: Con)
    | Pinged(con: Con)
    | Queried(h: HandleId, sql: string)
    | Stored(h: HandleId)
    | Closed(h: HandleId)

  /** The answers of the library during one call of ours. */
  datatype Answers = Answers(
    pingFails: bool,
    newHandle: Con, connects: bool,
    queryFails: bool, hasResult: bool)

  // ----- What a run of library calls must satisfy -----

  ghost predicate Open(log: seq<LibCall>, h: HandleId) {
    Connected(h) in log && Closed(h) !in log
  }

  /** Queries, result fetches and closes use only a handle that connected and is not yet closed, and a
      handle that is pinged is such a one, too. */
  ghost predicate Allowed(log: seq<LibCall>, call: LibCall) {
    match call
    case Queried(h, _) => Open(log, h)
    case Stored(h) => Open(log, h)
    case Closed(h) => Open(log, h)
    case Pinged(con) => con.Handle? ==> Open(log, con.id)
    case _ => true
  }

  ghost predicate Safe(log: seq<LibCall>) {
    forall i {:trigger Allowed(log[..i], log[i])} :: 0 <= i < |log| ==> Allowed(log[..i], log[i])
  }

  lemma NoHandleIsClosedTwice(log: seq<LibCall>, i: nat, j: nat)
    requires Safe(log) && i < j < |log| && log[i].Closed? && log[j].Closed?
    ensures log[i].h != log[j].h
  {
    assert Allowed(log[..j], log[j]);
    assert log[..j][i] == log[i];
  }

  lemma SafeSnoc(log: seq<LibCall>, call: LibCall)
    requires Safe(log) && Allowed(log, call)
    ensures Safe(log + [call])
  {
    forall i | 0 <= i <= |log| ensures (log + [call])[..i] == log[..i] {
    }
    assert log[..|log|] == log;
  }

  // ----- Handles seen so far -----

  function IdOf(con: Con): set<HandleId> {
    if con.Handle? then {con.id} else {}
  }

  function IdsIn(call: LibCall): set<HandleId> {
    match call
    case Connected(h) => {h}
    case ConnectFailed(c) => IdOf(c)
    case Pinged(c) => IdOf(c)
    case Queried(h, _) => {h}
    case Stored(h) => {h}
    case Closed(h) => {h}
  }

  function Used(log: seq<LibCall>): set<HandleId> {
    if log == [] then {} else Used(log[..|log| - 1]) + IdsIn(log[|log| - 1])
  }

  lemma {:induction false} UsedHasAllIds(log: seq<LibCall>)
    ensures forall call :: call in log ==> IdsIn(call) <= Used(log)
  {
    if log != [] {
      UsedHasAllIds(log[..|log| - 1]);
      assert log == log[..|log| - 1] + [log[|log| - 1]];
    }
  }

  lemma UnusedIsUnseen(log: seq<LibCall>, h: HandleId)
    requires h !in Used(log)
    ensures Connected(h) !in log && Closed(h) !in log
  {
    UsedHasAllIds(log);
    assert h in IdsIn(Connected(h)) && h in IdsIn(Closed(h));
  }

  lemma OpenIsUsed(log: seq<LibCall>, h: HandleId)
    requires Open(log, h)
    ensures h in Used(log)
  {
    UsedHasAllIds(log);
    assert h in IdsIn(Connected(h));
  }

  /** What the library is asked for: a ping, a statement, or the result set of the last one. */
  datatype Request = Ping(con: Con) | Statement(sql: string) | Fetch

  function RequestOf(call: LibCall): seq<Request> {
    match call
    case Pinged(con) => [Ping(con)]
    case Queried(_, sql) => [Statement(sql)]
    case Stored(_) => [Fetch]
    case _ => []
  }

  /** The requests made so far. */
  function Requests(log: seq<LibCall>): seq<Request> {
    if log == [] then [] else Requests(log[..|log| - 1]) + RequestOf(log[|log| - 1])
  }

  lemma Logged(log: seq<LibCall>, call: LibCall)
    requires Safe(log) && Allowed(log, call)
    ensures Safe(log + [call])
    ensures Used(log + [call]) == Used(log) + IdsIn(call)
    ensures Requests(log + [call]) == Requests(log) + RequestOf(call)
    ensures forall h :: Open(log + [call], h) <==>
      (Open(log, h) || (call == Connected(h) && Closed(h) !in log)) && call != Closed(h)
  {
    SafeSnoc(log, call);
    assert (log + [call])[..|log|] == log;
  }

  /** The only open connection, if any, is `con`. */
  ghost predicate OnlyOpen(log: seq<LibCall>, con: Con) {
    Safe(log) && forall h :: Open(log, h) <==> con == Handle(h)
  }

  lemma ConnectionOpens(log: seq<LibCall>, h: HandleId)
    requires OnlyOpen(log, Null) && h !in Used(log)
    ensures OnlyOpen(log + [Connected(h)], Handle(h))
    ensures Used(log + [Connected(h)]) == Used(log) + {h} && Requests(log + [Connected(h)]) == Requests(log)
  {
    UnusedIsUnseen(log, h);
    Logged(log, Connected(h));
    assert Requests(log) + [] == Requests(log);
  }

  lemma ConnectionFails(log: seq<LibCall>, con: Con)
    requires OnlyOpen(log, Null)
    ensures OnlyOpen(log + [ConnectFailed(con)], Null)
    ensures Used(log + [ConnectFailed(con)]) == Used(log) + IdOf(con)
    ensures Requests(log + [ConnectFailed(con)]) == Requests(log)
  {
    Logged(log, ConnectFailed(con));
    assert Requests(log) + [] == Requests(log);
  }

  /** A ping, a query or a fetch leaves the open connection as it is. */
  lemma AskingKeepsOpen(log: seq<LibCall>, con: Con, call: LibCall)
    requires OnlyOpen(log, con)
    requires call == Pinged(con) || (con.Handle? && (call == Stored(con.id) || (call.Queried? && call.h == con.id)))
    ensures OnlyOpen(log + [call], con)
    ensures Used(log + [call]) == Used(log) && Requests(log + [call]) == Requests(log) + RequestOf(call)
  {
    if con.Handle? {
      OpenIsUsed(log, con.id);
    }
    Logged(log, call);
  }

  lemma ConnectionCloses(log: seq<LibCall>, h: HandleId)
    requires OnlyOpen(log, Handle(h))
    ensures OnlyOpen(log + [Closed(h)], Null)
    ensures Used(log + [Closed(h)]) == Used(log) && Requests(log + [Closed(h)]) == Requests(log)
  {
    OpenIsUsed(log, h);
    Logged(log, Closed(h));
    assert Requests(log) + [] == Requests(log);
  }

  /** A connection attempt made with these answers succeeds. */
  predicate Reconnects(a: Answers) {
    a.newHandle.Handle? && a.connects
  }

  /** The held handle after KeepAlive, and after a load, which does nothing without one. */
  function AfterPing(con: Con, a: Answers): Con {
    if !a.pingFails then con else if Reconnects(a) then a.newHandle else Null
  }

  function AfterLoad(con: Con, a: Answers): Con {
    if con.Null? then Null else AfterPing(con, a)
  }

  class DBConnect {
    var con: Con
    var m_strDBip: string
    var m_strDBName: string
    var log: seq<LibCall>   // history: every library call so far

    /** The only open connection is the one the object holds. */
    ghost predicate Valid()
      reads this
    {
      OnlyOpen(log, con)
    }

    /** mysql_init makes a new object each time. */
    ghost predicate Fresh(a: Answers)
      reads this
    {
      IdOf(a.newHandle) !! Used(log)
    }

    constructor ()
      ensures Valid() && con == Null && log == []
    {
      con, m_strDBip, m_strDBName, log := Null, "", "", [];
    }

    /** Returns 0, and does nothing, when there is a handle already. */
    method Init(ip: string, dbName: string, a: Answers) returns (rt: int)
      requires Valid() && Fresh(a)
      modifies this
      ensures Valid() && Used(log) <= old(Used(log)) + IdOf(a.newHandle)
      ensures Requests(log) == Requests(old(log))
      ensures old(con).Handle? ==> rt == 0 && unchanged(this)
      ensures old(con).Null? ==>
        && m_strDBip == ip && m_strDBName == dbName
        && if a.newHandle.Handle? && a.connects then
             rt == 1 && con == a.newHandle && log == old(log) + [Connected(a.newHandle.id)]
           else
             rt == 0 && con == Null && log == old(log) + [ConnectFailed(a.newHandle)]
    {
      rt := 0;
      if con != Null {
        return;
      }
      m_strDBip, m_strDBName := ip, dbName;
      con := a.newHandle;
      if con != Null && a.connects {
        rt := 1;
        ConnectionOpens(log, con.id);
        log := log + [Connected(con.id)];
      } else {
        ConnectionFails(log, con);
        log := log + [ConnectFailed(con)];
        con := Null;
      }
    }

    method Clear()
      requires Valid()
      modifies this
      ensures Valid() && con == Null && Used(log) == old(Used(log)) && Requests(log) == Requests(old(log))
      ensures m_strDBip == old(m_strDBip) && m_strDBName == old(m_strDBName)
      ensures log == old(log) + (if old(con).Handle? then [Closed(old(con).id)] else [])
    {
      if con != Null {
        ConnectionCloses(log, con.id);
        log := log + [Closed(con.id)];
        con := Null;
      }
    }

    /** Pings, with a null handle too. Returns 0 only when the ping failed and the new connection, to the
        remembered server and database, failed too. */
    method KeepAlive(a: Answers) returns (rt: int)
      requires Valid() && Fresh(a)
      modifies this
      ensures Valid() && Used(log) <= old(Used(log)) + IdOf(a.newHandle)
      ensures Requests(log) == Requests(old(log)) + [Ping(old(con))]
      ensures !a.pingFails ==> rt == 1 && con == old(con)
      ensures a.pingFails && a.newHandle.Handle? && a.connects ==> rt == 1 && con == a.newHandle
      ensures a.pingFails && (a.newHandle.Null? || !a.connects) ==> rt == 0 && con == Null
      ensures m_strDBip == old(m_strDBip) && m_strDBName == old(m_strDBName)
    {
      AskingKeepsOpen(log, con, Pinged(con));
      log := log + [Pinged(con)];
      if a.pingFails {
        Clear();
        rt := Init(m_strDBip, m_strDBName, a);
      } else {
        rt := 1;
      }
    }

    /** Runs a statement, and for a procedure call the follow-up query cut out of its text. The text ends
        at the first NUL of the buffer. Nothing is asked for without a handle, and after a ping that
        failed for good nothing more. `stored` tells whether the caller got a result set. What is asked
        for, case by case, is in DeadLoad, SelectIsFetched, OtherIsNotFetched and CallIsFollowed. */
    method LoadTableData(sql: string, a: Answers) returns (rt: int, stored: bool)
      requires Valid() && Fresh(a)
      modifies this
      ensures Valid() && Used(log) <= old(Used(log)) + IdOf(a.newHandle)
      ensures old(con).Null? ==> log == old(log)
      ensures con == AfterLoad(old(con), a)
      ensures rt == LoadResult(old(con), CString(sql), a)
      ensures rt == -1 <==> old(con).Null? || (a.pingFails && (a.newHandle.Null? || !a.connects))
      ensures rt == -2 <==> rt != -1 && a.queryFails
      ensures rt == -3 ==> !a.hasResult
      ensures stored <==> rt == 1 && Fetches(CString(sql))
      ensures Requests(log) == Requests(old(log)) + LoadRequests(old(con), CString(sql), a)
    {
      if con == Null {
        NothingAsked(Requests(log));
        return -1, false;
      }
      ghost var asked, ping := Requests(log), [Ping(con)];
      var alive := KeepAlive(a);
      if alive == 0 {
        NothingAsked(ping);
        return -1, false;
      }
      rt, stored := SendStatement(CString(sql), a);
      AskedInTurn(asked, ping, RequestsFor(CString(sql), a.queryFails));
    }

    /** A query or a fetch on the live connection. */
    method Send(call: LibCall)
      requires Valid() && con.Handle? && (call == Stored(con.id) || (call.Queried? && call.h == con.id))
      modifies this`log
      ensures Valid() && Used(log) == old(Used(log))
      ensures Requests(log) == Requests(old(log)) + RequestOf(call)
    {
      AskingKeepsOpen(log, con, call);
      log := log + [call];
    }

    /** The part of LoadTableData after the connection was found alive; `sql` has no NUL. */
    method SendStatement(sql: string, a: Answers) returns (rt: int, stored: bool)
      requires Valid() && con.Handle?
      modifies this`log
      ensures Valid() && Used(log) == old(Used(log))
      ensures rt == if a.queryFails then -2 else if Fetches(sql) && !a.hasResult then -3 else 1
      ensures stored <==> rt == 1 && Fetches(sql)
      ensures Requests(log) == Requests(old(log)) + RequestsFor(sql, a.queryFails)
    {
      ghost var asked := Requests(log);
      Send(Queried(con.id, sql));
      if a.queryFails {
        return -2, false;
      }
      if IsCall(sql) {
        CallRequests(sql);
        if FollowUpOf(sql).NoQuery? {
          return 1, false;
        }
        Send(Queried(con.id, FollowUpOf(sql).text));
        AskedInTurn(asked, [Statement(sql)], [Statement(FollowUpOf(sql).text)]);
      } else {
        OtherRequests(sql);
      }
      if sql != "" && sql[0] in ['s', 'c', 'S', 'C'] {
        Send(Stored(con.id));
        AskedInTurn(asked, FirstRequests(sql), [Fetch]);
        return if a.hasResult then 1 else -3, a.hasResult;
      }
      return 1, false;
    }
  }

  // ----- What a load sends and returns -----

  predicate IsCall(sql: string) {
    sql != "" && sql[0] == 'c' && Contains(sql, "call")
  }

  /** The statement, its follow-up query if any, and the fetch if any, in that order. */
  function RequestsFor(sql: string, fails: bool): seq<Request> {
    if fails then [Statement(sql)] else FirstRequests(sql) + (if Fetches(sql) then [Fetch] else [])
  }

  function FirstRequests(sql: string): seq<Request> {
    if IsCall(sql) && FollowUpOf(sql).Query? then [Statement(sql), Statement(FollowUpOf(sql).text)]
    else [Statement(sql)]
  }

  lemma CallRequests(sql: string)
    requires IsCall(sql)
    ensures Fetches(sql) <==> FollowUpOf(sql).Query?
    ensures FollowUpOf(sql).NoQuery? ==> RequestsFor(sql, false) == [Statement(sql)]
    ensures FollowUpOf(sql).Query? ==>
      && FirstRequests(sql) == [Statement(sql)] + [Statement(FollowUpOf(sql).text)]
      && RequestsFor(sql, false) == FirstRequests(sql) + [Fetch]
  {
  }

  lemma OtherRequests(sql: string)
    requires !IsCall(sql)
    ensures Fetches(sql) <==> sql != "" && sql[0] in ['s', 'c', 'S', 'C']
    ensures FirstRequests(sql) == [Statement(sql)]
    ensures RequestsFor(sql, false) == FirstRequests(sql) + (if Fetches(sql) then [Fetch] else [])
    ensures !Fetches(sql) ==> RequestsFor(sql, false) == [Statement(sql)]
  {
  }

  /** Whether a successful statement is followed by a fetch of its result set. */
  predicate Fetches(sql: string) {
    && sql != "" && sql[0] in ['s', 'c', 'S', 'C']
    && !(IsCall(sql) && FollowUpOf(sql).NoQuery?)
  }

  function LoadResult(con: Con, sql: string, a: Answers): int {
    if AfterLoad(con, a).Null? then -1
    else if a.queryFails then -2
    else if Fetches(sql) && !a.hasResult then -3
    else 1
  }

  /** What a load asks for: a ping of its open handle, and then the statement if a connection is left. */
  function LoadRequests(con: Con, sql: string, a: Answers): seq<Request> {
    if con.Null? then []
    else [Ping(con)] + (if AfterPing(con, a).Null? then [] else RequestsFor(sql, a.queryFails))
  }

  // ----- The loads, case by case -----

  /** Without a connection nothing is asked for but a ping, and a failed statement is the last request. */
  lemma DeadLoad(con: Con, sql: string, a: Answers)
    ensures var dead := con.Null? || (a.pingFails && (a.newHandle.Null? || !a.connects));
      && (dead ==> LoadResult(con, sql, a) == -1)
      && (dead ==> LoadRequests(con, sql, a) == if con.Null? then [] else [Ping(con)])
      && (!dead && a.queryFails ==> LoadResult(con, sql, a) == -2)
      && (!dead && a.queryFails ==> LoadRequests(con, sql, a) == [Ping(con), Statement(sql)])
  {
  }

  /** A statement that begins with 's', 'S' or 'C' is followed by a fetch and nothing else. */
  lemma SelectIsFetched(con: Con, sql: string, a: Answers)
    requires con.Handle? && (a.pingFails ==> a.newHandle.Handle? && a.connects) && !a.queryFails
    requires sql != "" && (sql[0] == 's' || sql[0] == 'S' || sql[0] == 'C')
    ensures LoadRequests(con, sql, a) == [Ping(con), Statement(sql), Fetch]
    ensures Fetches(sql) && LoadResult(con, sql, a) == if a.hasResult then 1 else -3
  {
    OtherRequests(sql);
  }

  /** A statement that begins with no 's', 'c', 'S' or 'C' succeeds and is followed by nothing. */
  lemma OtherIsNotFetched(con: Con, sql: string, a: Answers)
    requires con.Handle? && (a.pingFails ==> a.newHandle.Handle? && a.connects) && !a.queryFails
    requires sql == "" || (sql[0] != 's' && sql[0] != 'c' && sql[0] != 'S' && sql[0] != 'C')
    ensures LoadRequests(con, sql, a) == [Ping(con), Statement(sql)]
    ensures !Fetches(sql) && LoadResult(con, sql, a) == 1
  {
    OtherRequests(sql);
  }

  /** A statement that begins with 'c' is followed by the query cut out of it if and only if "call" and an
      '@' occur in it; with "call" but no '@' it is not even fetched. */
  lemma CallIsFollowed(con: Con, sql: string, a: Answers)
    requires con.Handle? && (a.pingFails ==> a.newHandle.Handle? && a.connects) && !a.queryFails
    requires sql != "" && sql[0] == 'c'
    ensures var call := exists x, y :: sql == x + "call" + y;
      LoadRequests(con, sql, a) ==
        if call && '@' in sql then [Ping(con), Statement(sql), Statement(FollowUpOf(sql).text), Fetch]
        else if call then [Ping(con), Statement(sql)]
        else [Ping(con), Statement(sql), Fetch]
    ensures var call := exists x, y :: sql == x + "call" + y;
      && (Fetches(sql) <==> !call || '@' in sql)
      && LoadResult(con, sql, a) == if (!call || '@' in sql) && !a.hasResult then -3 else 1
  {
    ContainsIsPart(sql, "call");
    HasMeansIn(sql, '@');
    if IsCall(sql) {
      CallRequests(sql);
    } else {
      OtherRequests(sql);
    }
  }

  lemma AskedInTurn(a: seq<Request>, b: seq<Request>, c: seq<Request>)
    ensures a + (b + c) == a + b + c
  {
  }

  lemma NothingAsked(a: seq<Request>)
    ensures a + [] == a
  {
  }

  // ----- Runs -----

  datatype Op =
    | Init(ip: string, dbName: string, a: Answers)
    | KeepAlive(a: Answers)
    | Load(sql: string, a: Answers)
    | Clear

  function NewIds(op: Op): set<HandleId> {
    if op.Clear? then {} else IdOf(op.a.newHandle)
  }

  ghost predicate DistinctHandles(ops: seq<Op>) {
    forall i, j :: 0 <= i < j < |ops| ==> NewIds(ops[i]) !! NewIds(ops[j])
  }

  function ConAfterOne(con: Con, op: Op): Con {
    match op
    case Init(_, _, a) => if con.Null? && Reconnects(a) then a.newHandle else con
    case KeepAlive(a) => AfterPing(con, a)
    case Load(_, a) => AfterLoad(con, a)
    case Clear => Null
  }

  /** The handle that the object holds after the operations. */
  function ConAfter(ops: seq<Op>): Con {
    if ops == [] then Null else ConAfterOne(ConAfter(ops[..|ops| - 1]), ops[|ops| - 1])
  }

  function ReturnOf(con: Con, op: Op): int {
    match op
    case Init(_, _, a) => if con.Null? && Reconnects(a) then 1 else 0
    case KeepAlive(a) => if a.pingFails && !Reconnects(a) then 0 else 1
    case Load(sql, a) => LoadResult(con, CString(sql), a)
    case Clear => 0
  }

  function RequestsOf(con: Con, op: Op): seq<Request> {
    match op
    case KeepAlive(_) => [Ping(con)]
    case Load(sql, a) => LoadRequests(con, CString(sql), a)
    case _ => []
  }

  /** What the operations ask for, in order. */
  function RunRequests(ops: seq<Op>): seq<Request> {
    if ops == [] then []
    else
      var before := ops[..|ops| - 1];
      RunRequests(before) + RequestsOf(ConAfter(before), ops[|ops| - 1])
  }

  method Perform(db: DBConnect, op: Op) returns (rt: int)
    requires db.Valid() && NewIds(op) !! Used(db.log)
    modifies db
    ensures db.Valid() && Used(db.log) <= old(Used(db.log)) + NewIds(op)
    ensures db.con == ConAfterOne(old(db.con), op)
    ensures rt == ReturnOf(old(db.con), op)
    ensures Requests(db.log) == Requests(old(db.log)) + RequestsOf(old(db.con), op)
  {
    match op {
      case Init(ip, dbName, a) =>
        NothingAsked(Requests(db.log));
        rt := db.Init(ip, dbName, a);
      case KeepAlive(a) => rt := db.KeepAlive(a);
      case Load(sql, a) =>
        var stored;
        rt, stored := db.LoadTableData(sql, a);
      case Clear =>
        NothingAsked(Requests(db.log));
        db.Clear();
        rt := 0;
    }
  }

  /** Any operations in any order with any library answers: the library only ever sees safe calls, and it
      is asked for exactly what the operations ask for one after the other. */
  method Session(ops: seq<Op>) returns (rets: seq<int>, calls: seq<LibCall>)
    requires DistinctHandles(ops)
    ensures Safe(calls)
    ensures forall i, j :: 0 <= i < j < |calls| && calls[i].Closed? && calls[j].Closed? ==> calls[i].h != calls[j].h
    ensures Requests(calls) == RunRequests(ops)
    ensures |rets| == |ops| && forall i :: 0 <= i < |ops| ==> rets[i] == ReturnOf(ConAfter(ops[..i]), ops[i])
  {
    var db := new DBConnect();
    rets := [];
    for n := 0 to |ops|
      invariant db.Valid() && fresh(db)
      invariant db.con == ConAfter(ops[..n])
      invariant forall j :: n <= j < |ops| ==> NewIds(ops[j]) !! Used(db.log)
      invariant Requests(db.log) == RunRequests(ops[..n])
      invariant |rets| == n && forall i :: 0 <= i < n ==> rets[i] == ReturnOf(ConAfter(ops[..i]), ops[i])
    {
      assert ops[..n + 1][..n] == ops[..n];
      var rt := Perform(db, ops[n]);
      rets := rets + [rt];
    }
    assert ops[..|ops|] == ops;
    calls := db.log;
    forall i, j | 0 <= i < j < |calls| && calls[i].Closed? && calls[j].Closed? ensures calls[i].h != calls[j].h {
      NoHandleIsClosedTwice(calls, i, j);
    }
  }

  /** The `i`-th operation is a KeepAlive that is called while no connection is held. */
  predicate NullKeepAlive(ops: seq<Op>, i: nat)
    requires i < |ops|
  {
    ops[i].KeepAlive? && ConAfter(ops[..i]).Null?
  }

  ghost predicate SomeNullKeepAlive(ops: seq<Op>) {
    exists i :: 0 <= i < |ops| && NullKeepAlive(ops, i)
  }

  /** A null handle is pinged in a run exactly when some KeepAlive is called while no connection is held;
      a load never does it. */
  lemma {:induction false} NullPingIsKeepAlive(ops: seq<Op>)
    ensures Ping(Null) in RunRequests(ops) <==> SomeNullKeepAlive(ops)
  {
    if ops != [] {
      var before := ops[..|ops| - 1];
      NullPingIsKeepAlive(before);
      NullPingOfOne(ConAfter(before), ops[|ops| - 1]);
      NullKeepAliveSnoc(ops);
    }
  }

  lemma NullKeepAliveSnoc(ops: seq<Op>)
    requires ops != []
    ensures var before, n := ops[..|ops| - 1], |ops| - 1;
      SomeNullKeepAlive(ops) <==> SomeNullKeepAlive(before) || NullKeepAlive(ops, n)
  {
    var before, n := ops[..|ops| - 1], |ops| - 1;
    if SomeNullKeepAlive(ops) {
      var i :| 0 <= i < |ops| && NullKeepAlive(ops, i);
      assert i < n ==> before[..i] == ops[..i] && NullKeepAlive(before, i);
    }
    if SomeNullKeepAlive(before) {
      var i :| 0 <= i < |before| && NullKeepAlive(before, i);
      assert before[..i] == ops[..i] && NullKeepAlive(ops, i);
    }
  }

  lemma NullPingOfOne(con: Con, op: Op)
    ensures Ping(Null) in RequestsOf(con, op) <==> op.KeepAlive? && con.Null?
  {
  }

  /** Once the connection is lost, every load returns -1 until a connection attempt succeeds. */
  lemma {:induction false} LoadsFailUntilReconnected(ops: seq<Op>, from: nat, at: nat)
    requires from <= at < |ops| && ConAfter(ops[..from]).Null? && ops[at].Load?
    requires forall k :: from <= k < at && (ops[k].Init? || ops[k].KeepAlive?) ==> !Reconnects(ops[k].a)
    ensures ReturnOf(ConAfter(ops[..at]), ops[at]) == -1
  {
    StaysClosed(ops, from, at);
  }

  lemma {:induction false} StaysClosed(ops: seq<Op>, from: nat, at: nat)
    requires from <= at <= |ops| && ConAfter(ops[..from]).Null?
    requires forall k :: from <= k < at && (ops[k].Init? || ops[k].KeepAlive?) ==> !Reconnects(ops[k].a)
    ensures ConAfter(ops[..at]).Null?
  {
    if from < at {
      StaysClosed(ops, from, at - 1);
      assert ops[..at][..at - 1] == ops[..at - 1];
    }
  }

  // ----- Registration -----

  datatype Row = NoRow | Row(accountId: int, isNew: int)

  /** The registration statement as the library sees it: it ends at the first NUL of the two texts. */
  function RegisterText(account: string, password: string): string {
    CString(RegisterSql(account, password))
  }

  /** The code of a registration; `row` is the first row of the result set that its follow-up query gave.
      Without an '@' in the statement there is no such query and no result set. */
  function CheckResult(con: Con, account: string, password: string, a: Answers, row: Row): int {
    if |account| > 20 then -1
    else if con.Null? then -2
    else if AfterLoad(con, a).Null? || a.queryFails then -3
    else if '@' !in RegisterText(account, password) then -6
    else if !a.hasResult then -3
    else if row.NoRow? then -6
    else if row.isNew != 0 then row.accountId
    else -4
  }

  function AfterCheck(con: Con, account: string, a: Answers): Con {
    if |account| > 20 then con else AfterLoad(con, a)
  }

  /** What a registration asks for: nothing for a long account or without a connection. */
  function CheckRequests(con: Con, account: string, password: string, a: Answers): seq<Request> {
    if |account| > 20 then [] else LoadRequests(con, RegisterText(account, password), a)
  }

  /** The statement, the query for the procedure's two outputs and for nothing else, and a fetch. */
  function ExpectedRequests(account: string, password: string): seq<Request> {
    [Statement(RegisterText(account, password)), Statement("SELECT @accountid,@isNew"), Fetch]
  }

  /** The codes, each with its exact condition. */
  lemma RegistrationCodes(con: Con, account: string, password: string, a: Answers, row: Row)
    ensures var out := CheckResult(con, account, password, a, row);
      CodeIsRight(con, account, password, a, row, out)
  {
  }

  /** A new account gives its id. Otherwise: -1 for a long account, -2 without a handle, -3 when no
      connection is left, the statement fails or its follow-up query has no result set, -4 for an account
      that exists, -6 without a follow-up query or a row. */
  predicate CodeIsRight(con: Con, account: string, password: string, a: Answers, row: Row, out: int) {
    var sent := |account| <= 20 && con.Handle? && (a.pingFails ==> a.newHandle.Handle? && a.connects) && !a.queryFails;
    var asked := '@' in CString(RegisterSql(account, password));
    if sent && asked && a.hasResult && row.Row? && row.isNew != 0 then out == row.accountId
    else
      && (out == -1 <==> |account| > 20)
      && (out == -2 <==> |account| <= 20 && con.Null?)
      && (out == -3 <==> |account| <= 20 && con.Handle? && (!sent || (asked && !a.hasResult)))
      && (out == -4 <==> sent && asked && a.hasResult && row.Row? && row.isNew == 0)
      && (out == -6 <==> sent && (!asked || (a.hasResult && row.NoRow?)))
      && out < 0
  }

  /** The registration on a connection. When the statement succeeds, it is followed by the query for the
      procedure's two outputs and its fetch, and by nothing else, exactly when the texts are harmless. */
  method CheckAndInsertAccountAndPasswd(db: DBConnect, account: string, password: string, a: Answers, row: Row)
    returns (out: int)
    requires db.Valid() && db.Fresh(a)
    modifies db
    ensures db.Valid() && Used(db.log) <= old(Used(db.log)) + IdOf(a.newHandle)
    ensures db.con == AfterCheck(old(db.con), account, a)
    ensures out == CheckResult(old(db.con), account, password, a, row)
    ensures CodeIsRight(old(db.con), account, password, a, row, out)
    ensures |account| > 20 || old(db.con).Null? ==> db.log == old(db.log)
    ensures Requests(db.log) == Requests(old(db.log)) + CheckRequests(old(db.con), account, password, a)
    ensures |account| <= 20 && db.con.Handle? && !a.queryFails && |RegisterSql(account, password)| < TWO_31 ==>
      (Requests(db.log) == Requests(old(db.log)) + ([Ping(old(db.con))] + ExpectedRequests(account, password))
       <==> Harmless(account, password))
  {
    ghost var asked, ping := Requests(db.log), [Ping(db.con)];
    NothingAsked(asked);
    if |account| > 20 {
      return -1;
    }
    var sql := RegisterSql(account, password);
    if db.con == Null {
      return -2;
    }
    RegisterTextIsCall(account, password);
    var iret, stored := db.LoadTableData(sql, a);
    if |sql| < TWO_31 {
      ExpectedIsHarmless(asked, ping, account, password);
    }
    if iret <= 0 {
      return -3;
    }
    if stored && row.Row? {
      return if row.isNew != 0 then row.accountId else -4;
    }
    return -6;
  }

  lemma RegisterTextIsCall(account: string, password: string)
    ensures var text := RegisterText(account, password);
      IsCall(text) && (Fetches(text) <==> '@' in text)
  {
    var text := RegisterText(account, password);
    HeadStaysInFront(account, password);
    assert StandsAt(text, 0, "call");
    HasMeansIn(text, '@');
  }

  lemma HeadStaysInFront(account: string, password: string)
    ensures HEAD <= RegisterText(account, password)
  {
    HeadIsPlain();
    IndexOfConcat(HEAD, account + (MIDDLE + (password + TAIL)), '\0');
  }

  lemma RequestsOfCall(text: string, query: string)
    requires IsCall(text)
    ensures RequestsFor(text, false) == [Statement(text), Statement(query), Fetch] <==> FollowUpOf(text) == Query(query)
  {
    var sent, wanted := RequestsFor(text, false), [Statement(text), Statement(query), Fetch];
    if FollowUpOf(text).Query? {
      assert sent == [Statement(text), Statement(FollowUpOf(text).text), Fetch];
      assert sent[1] == wanted[1] ==> sent == wanted;
    } else {
      assert |sent| == 1;
    }
  }

  lemma ExpectedIsHarmless(asked: seq<Request>, ping: seq<Request>, account: string, password: string)
    requires |RegisterSql(account, password)| < TWO_31
    ensures asked + (ping + RequestsFor(RegisterText(account, password), false))
         == asked + (ping + ExpectedRequests(account, password))
       <==> Harmless(account, password)
  {
    var text := RegisterText(account, password);
    FollowUpIsExpected(account, password);
    RegisterTextIsCall(account, password);
    RequestsOfCall(text, "SELECT @accountid,@isNew");
    SameTail(asked, ping, RequestsFor(text, false), ExpectedRequests(account, password));
  }

  lemma SameTail(a: seq<Request>, b: seq<Request>, c: seq<Request>, d: seq<Request>)
    ensures a + (b + c) == a + (b + d) <==> c == d
  {
    if a + (b + c) == a + (b + d) {
      assert (a + (b + c))[|a|..] == b + c && (a + (b + d))[|a|..] == b + d;
      assert (b + c)[|b|..] == c && (b + d)[|b|..] == d;
    }
  }
}
