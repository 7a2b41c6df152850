/** The registration nodes and the two vectors as objects, one caller at a time: what each method of the
    SQL thread does to the heap and on its connection. The interleavings are in SqlPipeline. */
module WaitNodes {
  import opened DbConnect

  /** The two vectors after an iteration of `run` that nothing interrupts. */
  function Iterated<T>(write: seq<T>, finish: seq<T>): (seq<T>, seq<T>) {
    ([], finish + write)
  }

  /** What the library and the server answer to one registration. */
  datatype Reply = Reply(answers: Answers, row: Row)

  // ----- The first registrations of a batch, one after the other on one connection -----

  /** The handle held after the first `k` registrations. */
  function ConAfterRuns(con: Con, nodes: seq<CRegisterWaitNode>, replies: seq<Reply>, k: nat): Con
    requires k <= |nodes| == |replies|
    decreases k
  {
    if k == 0 then con
    else AfterCheck(ConAfterRuns(con, nodes, replies, k - 1), nodes[k - 1].m_strAccount, replies[k - 1].answers)
  }

  /** The code of the registration at place `i`: its own texts and reply, on the connection that the
      registrations before it left. */
  function CodeAt(con: Con, nodes: seq<CRegisterWaitNode>, replies: seq<Reply>, i: nat): int
    requires i < |nodes| == |replies|
  {
    CheckResult(ConAfterRuns(con, nodes, replies, i), nodes[i].m_strAccount, nodes[i].m_strPassword,
                replies[i].answers, replies[i].row)
  }

  /** How many of the first `k` places hold the node. */
  function Places<T(==)>(nodes: seq<T>, k: nat, n: T): nat
    requires k <= |nodes|
    decreases k
  {
    if k == 0 then 0 else Places(nodes, k - 1, n) + (if nodes[k - 1] == n then 1 else 0)
  }

  lemma PlacesAreOccurrences<T>(nodes: seq<T>)
    ensures forall n :: Places(nodes, |nodes|, n) == multiset(nodes)[n]
  {
    forall n ensures Places(nodes, |nodes|, n) == multiset(nodes)[n] {
      PlacesCount(nodes, |nodes|, n);
      assert nodes[..|nodes|] == nodes;
    }
  }

  lemma {:induction false} PlacesCount<T>(nodes: seq<T>, k: nat, n: T)
    requires k <= |nodes|
    ensures Places(nodes, k, n) == multiset(nodes[..k])[n]
    decreases k
  {
    if k > 0 {
      PlacesCount(nodes, k - 1, n);
      assert nodes[..k] == nodes[..k - 1] + [nodes[k - 1]];
    }
  }

  /** `i` is the last of the first `k` places that holds the node. */
  predicate LastPlace<T(==)>(nodes: seq<T>, k: nat, n: T, i: nat) {
    i < k <= |nodes| && nodes[i] == n && forall j :: i < j < k ==> nodes[j] != n
  }

  function NewId(reply: Reply): set<HandleId> {
    IdOf(reply.answers.newHandle)
  }

  /** The handles made during the replies from place `k` on are new: mysql_init makes a new object each
      time. */
  ghost predicate NewFrom(used: set<HandleId>, replies: seq<Reply>, k: nat) {
    forall i :: k <= i < |replies| ==> NewId(replies[i]) !! used
  }

  ghost predicate DistinctIds(replies: seq<Reply>) {
    forall i, j :: 0 <= i < j < |replies| ==> NewId(replies[i]) !! NewId(replies[j])
  }

  lemma StillNew(used: set<HandleId>, now: set<HandleId>, replies: seq<Reply>, k: nat)
    requires NewFrom(used, replies, k) && DistinctIds(replies) && k < |replies| && now <= used + NewId(replies[k])
    ensures NewFrom(now, replies, k + 1)
  {
  }

  class CRegisterWaitNode {
    const m_strAccount: string
    const m_strPassword: string
    var m_outdata: int
    ghost var runs: nat

    constructor (strAccount: string, strPassword: string)
      ensures m_strAccount == strAccount && m_strPassword == strPassword && runs == 0
    {
      m_strAccount, m_strPassword, runs := strAccount, strPassword, 0;
    }

    method DoDBSql(db: DBConnect, reply: Reply)
      requires db.Valid() && NewId(reply) !! Used(db.log)
      modifies this, db
      ensures db.Valid() && Used(db.log) <= old(Used(db.log)) + NewId(reply)
      ensures db.con == AfterCheck(old(db.con), m_strAccount, reply.answers)
      ensures m_outdata == CheckResult(old(db.con), m_strAccount, m_strPassword, reply.answers, reply.row)
      ensures runs == old(runs) + 1
    {
      runs := runs + 1;
      m_outdata := CheckAndInsertAccountAndPasswd(db, m_strAccount, m_strPassword, reply.answers, reply.row);
    }
  }

  class DBSqlThread {
    var m_vecWrite: seq<CRegisterWaitNode>
    var m_vecWriteFinish: seq<CRegisterWaitNode>
    const m_dbSqlThreadConnect: DBConnect

    constructor ()
      ensures m_vecWrite == [] && m_vecWriteFinish == []
      ensures fresh(m_dbSqlThreadConnect) && m_dbSqlThreadConnect.Valid() && m_dbSqlThreadConnect.con == Null
    {
      m_vecWrite, m_vecWriteFinish := [], [];
      m_dbSqlThreadConnect := new DBConnect();
    }

    method AddWaitNode(node: CRegisterWaitNode)
      modifies this
      ensures m_vecWrite == old(m_vecWrite) + [node]
      ensures m_vecWriteFinish == old(m_vecWriteFinish)
    {
      m_vecWrite := m_vecWrite + [node];
    }

    method GetFinishDBWait() returns (tmp: seq<CRegisterWaitNode>)
      modifies this
      ensures tmp == old(m_vecWriteFinish) && m_vecWriteFinish == []
      ensures m_vecWrite == old(m_vecWrite)
    {
      tmp := m_vecWriteFinish;
      m_vecWriteFinish := [];
    }

    /** One iteration of `run`: the registrations of the batch run one after the other on the one
        connection, one for each place, and a node carries the code of its last place. */
    method RunIteration(replies: seq<Reply>)
      requires |replies| == |m_vecWrite|
      requires m_dbSqlThreadConnect.Valid()
      requires NewFrom(Used(m_dbSqlThreadConnect.log), replies, 0) && DistinctIds(replies)
      modifies this, m_dbSqlThreadConnect, m_vecWrite
      ensures (m_vecWrite, m_vecWriteFinish) == Iterated(old(m_vecWrite), old(m_vecWriteFinish))
      ensures m_dbSqlThreadConnect.Valid()
      ensures m_dbSqlThreadConnect.con
           == ConAfterRuns(old(m_dbSqlThreadConnect.con), old(m_vecWrite), replies, |replies|)
      ensures var batch, con := old(m_vecWrite), old(m_dbSqlThreadConnect.con);
        forall i {:trigger CodeAt(con, batch, replies, i)} ::
          0 <= i < |batch| && LastPlace(batch, |batch|, batch[i], i) ==>
            batch[i].m_outdata == CodeAt(con, batch, replies, i)
      ensures forall n {:trigger n.runs} :: n in old(m_vecWrite) ==>
        n.runs == old(n.runs) + multiset(old(m_vecWrite))[n]
    {
      var tmp := m_vecWrite;
      m_vecWrite := [];
      var db := m_dbSqlThreadConnect;
      ghost var con0 := db.con;
      for k := 0 to |tmp|
        invariant m_vecWrite == [] && m_vecWriteFinish == old(m_vecWriteFinish) + tmp[..k]
        invariant db.Valid() && db.con == ConAfterRuns(con0, tmp, replies, k)
        invariant forall n {:trigger n.runs} :: n in tmp ==> n.runs == old(n.runs) + Places(tmp, k, n)
        invariant NewFrom(Used(db.log), replies, k)
        invariant forall i {:trigger CodeAt(con0, tmp, replies, i)} :: 0 <= i < k && LastPlace(tmp, k, tmp[i], i) ==>
          tmp[i].m_outdata == CodeAt(con0, tmp, replies, i)
      {
        ghost var used := Used(db.log);
        tmp[k].DoDBSql(db, replies[k]);
        StillNew(used, Used(db.log), replies, k);
        m_vecWriteFinish := m_vecWriteFinish + [tmp[k]];
        assert tmp[..k + 1] == tmp[..k] + [tmp[k]];
      }
      assert tmp[..|tmp|] == tmp;
      PlacesAreOccurrences(tmp);
    }
  }
}
