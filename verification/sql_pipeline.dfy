/** The SQL pipeline as a state machine: one worker and any number of client threads share the two
    mutex-protected vectors. Every lock, copy, clear, push, execution and unlock is one step, and the
    steps of different threads interleave in any order. */
module SqlPipeline {
  import WaitNodes

  /** A shared pointer to a wait node; the same node may be submitted more than once. */
  type Node = nat
  type ClientId = nat

  datatype Owner = Free | Worker | Client(id: ClientId)

  /** Where the worker is in `run`; each name is the statement it executes next. */
  datatype WorkerPc =
    | LockWrite | CopyWrite | ClearWrite | UnlockWrite
    | LockFinish | DoDBSql | PushFinish | UnlockFinish | Sleep

  datatype ClientPc =
    | Idle
    | AddLock(node: Node) | AddPush(node: Node) | AddUnlock
    | GetLock | GetCopy | GetClear(tmp: seq<Node>) | GetUnlock(tmp: seq<Node>)

  /** A vector handed back by GetFinishDBWait, and how many of the worker's batches were complete then. */
  datatype Delivery = Delivery(client: ClientId, nodes: seq<Node>, upTo: nat)

  datatype State = State(
    write: seq<Node>, writeLock: Owner,
    finish: seq<Node>, finishLock: Owner,
    pc: WorkerPc, batch: seq<Node>, i: nat,
    clients: map<ClientId, ClientPc>,
    // History: pushes and who made them, batches that left the write vector, how many of those are
    // completely pushed, executions and returned vectors, in order.
    submitted: seq<Node>,
    submitters: seq<ClientId>,
    taken: seq<seq<Node>>,
    pushed: nat,
    executed: seq<Node>,
    delivered: seq<Delivery>)

  datatype Action =
    | Work
    | CallAdd(id: ClientId, node: Node)
    | CallGet(id: ClientId)
    | Go(id: ClientId)

  function Init(ids: set<ClientId>): State {
    State([], Free, [], Free, LockWrite, [], 0, map c | c in ids :: Idle, [], [], [], 0, [], [])
  }

  predicate Enabled(s: State, a: Action) {
    match a
    case Work =>
      && (s.pc.LockWrite? ==> s.writeLock.Free?)
      && (s.pc.LockFinish? ==> s.finishLock.Free?)
      && (s.pc.DoDBSql? || s.pc.PushFinish? ==> s.i < |s.batch|)
    case CallAdd(c, _) => c in s.clients && s.clients[c].Idle?
    case CallGet(c) => c in s.clients && s.clients[c].Idle?
    case Go(c) =>
      && c in s.clients && !s.clients[c].Idle?
      && (s.clients[c].AddLock? ==> s.writeLock.Free?)
      && (s.clients[c].GetLock? ==> s.finishLock.Free?)
  }

  /** The loop test of `run`, taken right after the lock and after every push. */
  function LoopTest(batch: seq<Node>, i: nat): WorkerPc {
    if i < |batch| then DoDBSql else UnlockFinish
  }

  function WorkerStep(s: State): State
    requires Enabled(s, Work)
  {
    match s.pc
    case LockWrite => s.(writeLock := Worker, pc := CopyWrite)
    case CopyWrite => s.(batch := s.write, pc := ClearWrite)
    case ClearWrite => s.(write := [], taken := s.taken + [s.batch], pc := UnlockWrite)
    case UnlockWrite => s.(writeLock := Free, pc := LockFinish)
    case LockFinish => s.(finishLock := Worker, i := 0, pc := LoopTest(s.batch, 0))
    case DoDBSql => s.(executed := s.executed + [s.batch[s.i]], pc := PushFinish)
    case PushFinish =>
      s.(finish := s.finish + [s.batch[s.i]], i := s.i + 1, pc := LoopTest(s.batch, s.i + 1))
    case UnlockFinish => s.(finishLock := Free, pushed := s.pushed + 1, pc := Sleep)
    case Sleep => s.(pc := LockWrite)
  }

  function ClientStep(s: State, c: ClientId): State
    requires Enabled(s, Go(c))
  {
    match s.clients[c]
    case AddLock(n) => s.(writeLock := Client(c), clients := s.clients[c := AddPush(n)])
    case AddPush(n) =>
      s.(write := s.write + [n], submitted := s.submitted + [n], submitters := s.submitters + [c],
         clients := s.clients[c := AddUnlock])
    case AddUnlock => s.(writeLock := Free, clients := s.clients[c := Idle])
    case GetLock => s.(finishLock := Client(c), clients := s.clients[c := GetCopy])
    case GetCopy => s.(clients := s.clients[c := GetClear(s.finish)])
    case GetClear(tmp) => s.(finish := [], clients := s.clients[c := GetUnlock(tmp)])
    case GetUnlock(tmp) =>
      s.(finishLock := Free, clients := s.clients[c := Idle],
         delivered := s.delivered + [Delivery(c, tmp, s.pushed)])
  }

  function Step(s: State, a: Action): State
    requires Enabled(s, a)
  {
    match a
    case Work => WorkerStep(s)
    case CallAdd(c, n) => s.(clients := s.clients[c := AddLock(n)])
    case CallGet(c) => s.(clients := s.clients[c := GetLock])
    case Go(c) => ClientStep(s, c)
  }

  /** A schedule is possible from `s` when each action is enabled where it is taken. */
  predicate Possible(s: State, acts: seq<Action>)
    decreases |acts|
  {
    acts == [] || (Enabled(s, acts[0]) && Possible(Step(s, acts[0]), acts[1..]))
  }

  function Run(s: State, acts: seq<Action>): State
    requires Possible(s, acts)
    decreases |acts|
  {
    if acts == [] then s else Run(Step(s, acts[0]), acts[1..])
  }

  // ----- Sequences of vectors -----

  function Flatten(vs: seq<seq<Node>>): seq<Node> {
    if vs == [] then [] else Flatten(vs[..|vs| - 1]) + vs[|vs| - 1]
  }

  function NodesOf(ds: seq<Delivery>): seq<Node> {
    if ds == [] then [] else NodesOf(ds[..|ds| - 1]) + ds[|ds| - 1].nodes
  }

  lemma FlattenSnoc(a: seq<seq<Node>>, v: seq<Node>)
    ensures Flatten(a + [v]) == Flatten(a) + v
  {
    assert (a + [v])[..|a|] == a;
  }

  lemma NodesOfSnoc(ds: seq<Delivery>, d: Delivery)
    ensures NodesOf(ds + [d]) == NodesOf(ds) + d.nodes
  {
    assert (ds + [d])[..|ds|] == ds;
  }

  lemma Assoc(a: seq<Node>, b: seq<Node>, c: seq<Node>)
    ensures a + (b + c) == a + b + c
  {
  }

  lemma NothingAdded(a: seq<Node>)
    ensures a + [] == a
  {
  }

  // ----- Where every submitted node is -----

  function Delivered(s: State): seq<Node> {
    NodesOf(s.delivered)
  }

  /** Taken off the finish vector by the client that still holds its lock. */
  function Outbox(s: State): seq<Node> {
    if s.finishLock.Client? && s.finishLock.id in s.clients && s.clients[s.finishLock.id].GetUnlock?
    then s.clients[s.finishLock.id].tmp else []
  }

  /** The part of the worker's batch that it has not yet pushed. */
  function Unpushed(s: State): seq<Node> {
    match s.pc
    case UnlockWrite => s.batch
    case LockFinish => s.batch
    case DoDBSql => if s.i <= |s.batch| then s.batch[s.i..] else []
    case PushFinish => if s.i <= |s.batch| then s.batch[s.i..] else []
    case _ => []
  }

  /** Executed by the worker but not yet pushed: at most the node it is about to push. */
  function JustExecuted(s: State): seq<Node> {
    if s.pc.PushFinish? && s.i < |s.batch| then [s.batch[s.i]] else []
  }

  function Done(s: State): seq<Node> {
    Delivered(s) + Outbox(s) + s.finish
  }

  predicate WorkerHoldsWrite(pc: WorkerPc) {
    pc.CopyWrite? || pc.ClearWrite? || pc.UnlockWrite?
  }

  predicate WorkerHoldsFinish(pc: WorkerPc) {
    pc.DoDBSql? || pc.PushFinish? || pc.UnlockFinish?
  }

  predicate ClientHoldsWrite(pc: ClientPc) {
    pc.AddPush? || pc.AddUnlock?
  }

  predicate ClientHoldsFinish(pc: ClientPc) {
    pc.GetCopy? || pc.GetClear? || pc.GetUnlock?
  }

  predicate ClientAgrees(c: ClientId, pc: ClientPc, writeLock: Owner, finishLock: Owner) {
    && (writeLock == Client(c) <==> ClientHoldsWrite(pc))
    && (finishLock == Client(c) <==> ClientHoldsFinish(pc))
  }

  ghost predicate LocksAgree(s: State) {
    && (s.writeLock == Worker <==> WorkerHoldsWrite(s.pc))
    && (s.finishLock == Worker <==> WorkerHoldsFinish(s.pc))
    && (s.writeLock.Client? ==> s.writeLock.id in s.clients)
    && (s.finishLock.Client? ==> s.finishLock.id in s.clients)
    && (forall c :: c in s.clients ==> ClientAgrees(c, s.clients[c], s.writeLock, s.finishLock))
  }

  ghost predicate LocalsAgree(s: State) {
    && (s.pc.ClearWrite? ==> s.batch == s.write)
    && (s.pc.DoDBSql? || s.pc.PushFinish? ==> s.i < |s.batch|)
    && (forall c :: c in s.clients && s.clients[c].GetClear? ==> s.clients[c].tmp == s.finish)
    && (forall c :: c in s.clients && s.clients[c].GetUnlock? ==> s.finish == [])
  }

  /** Nothing is lost, duplicated or reordered between submission, execution and delivery. */
  ghost predicate Conserved(s: State) {
    Balanced(s.submitted, s.executed, Done(s), Unpushed(s), JustExecuted(s), Flatten(s.taken), s.write)
  }

  ghost predicate Balanced(submitted: seq<Node>, executed: seq<Node>, done: seq<Node>, unpushed: seq<Node>,
                           just: seq<Node>, left: seq<Node>, write: seq<Node>) {
    && submitted == done + unpushed + write
    && executed == done + just
    && submitted == left + write
  }

  /** The worker holds a batch that is off the write vector and not yet completely pushed. */
  predicate InHand(pc: WorkerPc) {
    pc.UnlockWrite? || pc.LockFinish? || WorkerHoldsFinish(pc)
  }

  function PushedPart(s: State): seq<Node> {
    if WorkerHoldsFinish(s.pc) && s.i <= |s.batch| then s.batch[..s.i] else []
  }

  function Cleared(ds: seq<Delivery>): nat {
    if ds == [] then 0 else ds[|ds| - 1].upTo
  }

  /** The returned vectors cut the sequence of batches into consecutive runs of whole batches. */
  ghost predicate WholeBatches(ds: seq<Delivery>, taken: seq<seq<Node>>) {
    forall m :: 0 <= m < |ds| ==>
      && Cleared(ds[..m]) <= ds[m].upTo <= |taken|
      && ds[m].nodes == Flatten(taken[Cleared(ds[..m])..ds[m].upTo])
  }

  /** The worker's batch is the last one taken, and only then are not all taken batches pushed. */
  ghost predicate BatchInHand(s: State) {
    && s.pushed + (if InHand(s.pc) then 1 else 0) == |s.taken|
    && (InHand(s.pc) ==> s.taken[s.pushed] == s.batch)
    && (s.pc.UnlockFinish? ==> s.i == |s.batch|)
  }

  /** What is ready to be returned is a run of whole batches, plus the part of the current batch
      pushed so far while the worker still holds the finish lock. */
  ghost predicate ReadyAgrees(s: State) {
    Ready(Outbox(s) + s.finish, s.taken, Cleared(s.delivered), s.pushed, PushedPart(s))
  }

  ghost predicate Ready(nodes: seq<Node>, taken: seq<seq<Node>>, from: nat, to: nat, part: seq<Node>) {
    from <= to <= |taken| && nodes == Flatten(taken[from..to]) + part
  }

  ghost predicate BatchesAgree(s: State) {
    BatchInHand(s) && ReadyAgrees(s) && WholeBatches(s.delivered, s.taken)
  }

  ghost predicate Inv(s: State) {
    LocksAgree(s) && LocalsAgree(s) && Conserved(s) && BatchesAgree(s)
  }

  lemma InitInv(ids: set<ClientId>)
    ensures Inv(Init(ids))
  {
  }

  lemma WorkerKeepsLocks(s: State)
    requires LocksAgree(s) && LocalsAgree(s) && Enabled(s, Work)
    ensures LocksAgree(WorkerStep(s)) && LocalsAgree(WorkerStep(s))
  {
    var s' := WorkerStep(s);
    assert s'.clients == s.clients;
  }

  lemma ClientKeepsLocks(s: State, c: ClientId)
    requires LocksAgree(s) && Enabled(s, Go(c))
    ensures LocksAgree(ClientStep(s, c))
  {
    var s' := ClientStep(s, c);
    assert ClientAgrees(c, s.clients[c], s.writeLock, s.finishLock);
    forall d | d in s'.clients ensures ClientAgrees(d, s'.clients[d], s'.writeLock, s'.finishLock) {
      assert ClientAgrees(d, s.clients[d], s.writeLock, s.finishLock);
    }
  }

  lemma ClientKeepsLocals(s: State, c: ClientId)
    requires LocksAgree(s) && LocalsAgree(s) && Enabled(s, Go(c))
    ensures LocalsAgree(ClientStep(s, c))
  {
    var s' := ClientStep(s, c);
    assert s'.pc == s.pc && s'.batch == s.batch && s'.i == s.i;
    assert forall d :: d in s.clients && d != c ==> s'.clients[d] == s.clients[d];
  }

  // ----- How the parts move; the arguments are those of Balanced -----

  lemma SubmitKeepsBalance(sub: seq<Node>, ex: seq<Node>, d: seq<Node>, u: seq<Node>, j: seq<Node>, left: seq<Node>,
                           w: seq<Node>, n: Node)
    requires Balanced(sub, ex, d, u, j, left, w)
    ensures Balanced(sub + [n], ex, d, u, j, left, w + [n])
  {
    Assoc(d + u, w, [n]);
    Assoc(left, w, [n]);
  }

  lemma TakeKeepsBalance(sub: seq<Node>, ex: seq<Node>, d: seq<Node>, left: seq<Node>, w: seq<Node>)
    requires Balanced(sub, ex, d, [], [], left, w)
    ensures Balanced(sub, ex, d, w, [], left + w, [])
  {
    NothingAdded(d);
    NothingAdded(d + w);
    NothingAdded(left + w);
  }

  lemma ExecuteKeepsBalance(sub: seq<Node>, ex: seq<Node>, d: seq<Node>, u: seq<Node>, left: seq<Node>, w: seq<Node>,
                            n: Node)
    requires Balanced(sub, ex, d, u, [], left, w)
    ensures Balanced(sub, ex + [n], d, u, [n], left, w)
  {
    NothingAdded(d);
  }

  lemma PushKeepsBalance(sub: seq<Node>, ex: seq<Node>, d: seq<Node>, n: Node, rest: seq<Node>, left: seq<Node>,
                         w: seq<Node>)
    requires Balanced(sub, ex, d, [n] + rest, [n], left, w)
    ensures Balanced(sub, ex, d + [n], rest, [], left, w)
  {
    Assoc(d, [n], rest);
    NothingAdded(d + [n]);
  }

  lemma OutboxOf(s: State, s': State)
    requires s'.finishLock == s.finishLock && s'.clients == s.clients
    ensures Outbox(s') == Outbox(s)
  {
  }

  lemma WorkerClears(s: State, s': State)
    requires LocalsAgree(s) && Conserved(s) && s.pc.ClearWrite?
    requires s' == s.(write := [], taken := s.taken + [s.batch], pc := UnlockWrite)
    ensures Conserved(s')
  {
    FlattenSnoc(s.taken, s.batch);
    OutboxOf(s, s');
    TakeKeepsBalance(s.submitted, s.executed, Done(s), Flatten(s.taken), s.write);
  }

  lemma WorkerExecutes(s: State, s': State)
    requires LocalsAgree(s) && Conserved(s) && s.pc.DoDBSql?
    requires s' == s.(executed := s.executed + [s.batch[s.i]], pc := PushFinish)
    ensures Conserved(s')
  {
    OutboxOf(s, s');
    ExecuteKeepsBalance(s.submitted, s.executed, Done(s), Unpushed(s), Flatten(s.taken), s.write, s.batch[s.i]);
  }

  lemma PushMovesOne(s: State, s': State)
    requires LocksAgree(s) && LocalsAgree(s) && s.pc.PushFinish?
    requires s' == s.(finish := s.finish + [s.batch[s.i]], i := s.i + 1, pc := LoopTest(s.batch, s.i + 1))
    ensures Unpushed(s) == [s.batch[s.i]] + Unpushed(s')
    ensures Done(s') == Done(s) + [s.batch[s.i]]
    ensures JustExecuted(s) == [s.batch[s.i]] && JustExecuted(s') == []
  {
    assert Outbox(s) == [] && Outbox(s') == [];
    Assoc(Delivered(s) + [], s.finish, [s.batch[s.i]]);
  }

  lemma WorkerPushes(s: State, s': State)
    requires LocksAgree(s) && LocalsAgree(s) && Conserved(s) && s.pc.PushFinish?
    requires s' == s.(finish := s.finish + [s.batch[s.i]], i := s.i + 1, pc := LoopTest(s.batch, s.i + 1))
    ensures Conserved(s')
  {
    PushMovesOne(s, s');
    PushKeepsBalance(s.submitted, s.executed, Done(s), s.batch[s.i], Unpushed(s'), Flatten(s.taken), s.write);
  }

  lemma WorkerMovesNothing(s: State)
    requires LocksAgree(s) && LocalsAgree(s) && Enabled(s, Work)
    requires !s.pc.ClearWrite? && !s.pc.DoDBSql? && !s.pc.PushFinish?
    ensures var s' := WorkerStep(s);
      Done(s') == Done(s) && Unpushed(s') == Unpushed(s) && JustExecuted(s') == JustExecuted(s)
  {
    if s.pc.LockFinish? || s.pc.UnlockFinish? {
      assert Outbox(s) == [] && Outbox(WorkerStep(s)) == [];
    } else {
      OutboxOf(s, WorkerStep(s));
    }
  }

  lemma WorkerKeepsConserved(s: State)
    requires LocksAgree(s) && LocalsAgree(s) && Conserved(s) && Enabled(s, Work)
    ensures Conserved(WorkerStep(s))
  {
    if s.pc.ClearWrite? {
      WorkerClears(s, WorkerStep(s));
    } else if s.pc.DoDBSql? {
      WorkerExecutes(s, WorkerStep(s));
    } else if s.pc.PushFinish? {
      WorkerPushes(s, WorkerStep(s));
    } else {
      WorkerMovesNothing(s);
    }
  }

  lemma SameWorkerSameParts(s: State, s': State)
    requires s'.pc == s.pc && s'.batch == s.batch && s'.i == s.i
    ensures Unpushed(s') == Unpushed(s) && JustExecuted(s') == JustExecuted(s) && PushedPart(s') == PushedPart(s)
  {
  }

  /** A client that neither takes nor gives back the finish vector leaves the outbox as it is. */
  lemma ClientKeepsOutbox(s: State, c: ClientId)
    requires LocksAgree(s) && Enabled(s, Go(c)) && !s.clients[c].GetClear? && !s.clients[c].GetUnlock?
    ensures Outbox(ClientStep(s, c)) == Outbox(s)
  {
    assert ClientAgrees(c, s.clients[c], s.writeLock, s.finishLock);
  }

  lemma ClientClears(s: State, c: ClientId)
    requires LocksAgree(s) && LocalsAgree(s) && Enabled(s, Go(c)) && s.clients[c].GetClear?
    ensures Outbox(s) == [] && Outbox(ClientStep(s, c)) == s.finish && ClientStep(s, c).finish == []
  {
    assert ClientAgrees(c, s.clients[c], s.writeLock, s.finishLock);
  }

  lemma ClientReturns(s: State, c: ClientId)
    requires LocksAgree(s) && LocalsAgree(s) && Enabled(s, Go(c)) && s.clients[c].GetUnlock?
    ensures Outbox(s) == s.clients[c].tmp && s.finish == []
    ensures Outbox(ClientStep(s, c)) == [] && Delivered(ClientStep(s, c)) == Delivered(s) + Outbox(s)
  {
    assert ClientAgrees(c, s.clients[c], s.writeLock, s.finishLock);
    NodesOfSnoc(s.delivered, Delivery(c, s.clients[c].tmp, s.pushed));
  }

  lemma ClientKeepsDone(s: State, c: ClientId)
    requires LocksAgree(s) && LocalsAgree(s) && Enabled(s, Go(c))
    ensures Done(ClientStep(s, c)) == Done(s)
  {
    if s.clients[c].GetClear? {
      ClientClears(s, c);
      NothingAdded(Delivered(s));
      NothingAdded(Delivered(s) + s.finish);
    } else if s.clients[c].GetUnlock? {
      ClientReturns(s, c);
      NothingAdded(Delivered(s) + Outbox(s));
    } else {
      ClientKeepsOutbox(s, c);
    }
  }

  lemma ClientKeepsConserved(s: State, c: ClientId)
    requires LocksAgree(s) && LocalsAgree(s) && Conserved(s) && Enabled(s, Go(c))
    ensures Conserved(ClientStep(s, c))
  {
    ClientKeepsDone(s, c);
    SameWorkerSameParts(s, ClientStep(s, c));
    if s.clients[c].AddPush? {
      SubmitKeepsBalance(s.submitted, s.executed, Done(s), Unpushed(s), JustExecuted(s), Flatten(s.taken), s.write,
                         s.clients[c].node);
    }
  }

  lemma WholeBatchesExtend(ds: seq<Delivery>, taken: seq<seq<Node>>, batch: seq<Node>)
    requires WholeBatches(ds, taken)
    ensures WholeBatches(ds, taken + [batch])
  {
    forall m | 0 <= m < |ds|
      ensures (taken + [batch])[Cleared(ds[..m])..ds[m].upTo] == taken[Cleared(ds[..m])..ds[m].upTo]
    {
    }
  }

  lemma WorkerKeepsBatches(s: State)
    requires LocksAgree(s) && LocalsAgree(s) && Enabled(s, Work)
    requires BatchInHand(s) && WholeBatches(s.delivered, s.taken)
    ensures BatchInHand(WorkerStep(s)) && WholeBatches(s.delivered, WorkerStep(s).taken)
  {
    if s.pc.ClearWrite? {
      WholeBatchesExtend(s.delivered, s.taken, s.batch);
    }
  }

  lemma PushKeepsReady(s: State, s': State)
    requires LocksAgree(s) && LocalsAgree(s) && ReadyAgrees(s) && s.pc.PushFinish?
    requires s' == s.(finish := s.finish + [s.batch[s.i]], i := s.i + 1, pc := LoopTest(s.batch, s.i + 1))
    ensures ReadyAgrees(s')
  {
    var whole, n := Flatten(s.taken[Cleared(s.delivered)..s.pushed]), s.batch[s.i];
    assert Outbox(s) == [] && Outbox(s') == [];
    assert PushedPart(s') == PushedPart(s) + [n];
    Assoc(whole, PushedPart(s), [n]);
    Assoc([], s.finish, [n]);
  }

  lemma UnlockKeepsReady(s: State, s': State)
    requires LocksAgree(s) && BatchInHand(s) && ReadyAgrees(s) && s.pc.UnlockFinish?
    requires s' == s.(finishLock := Free, pushed := s.pushed + 1, pc := Sleep)
    ensures ReadyAgrees(s')
  {
    assert Outbox(s) == [] && Outbox(s') == [];
    assert PushedPart(s) == s.batch && PushedPart(s') == [];
    OneMoreBatch(Outbox(s) + s.finish, s.taken, Cleared(s.delivered), s.pushed);
  }

  lemma OneMoreBatch(nodes: seq<Node>, taken: seq<seq<Node>>, from: nat, to: nat)
    requires to < |taken| && Ready(nodes, taken, from, to, taken[to])
    ensures Ready(nodes, taken, from, to + 1, [])
  {
    assert taken[from..to + 1] == taken[from..to] + [taken[to]];
    FlattenSnoc(taken[from..to], taken[to]);
    NothingAdded(nodes);
  }

  lemma ReadyStays(s: State, s': State)
    requires ReadyAgrees(s) && PushedPart(s') == PushedPart(s) && Outbox(s') + s'.finish == Outbox(s) + s.finish
    requires s'.delivered == s.delivered && s'.pushed == s.pushed && s.taken <= s'.taken
    ensures ReadyAgrees(s')
  {
    assert s'.taken[..|s.taken|] == s.taken;
    assert s'.taken[Cleared(s.delivered)..s.pushed] == s.taken[Cleared(s.delivered)..s.pushed];
  }

  lemma WorkerReadiesNothing(s: State)
    requires LocksAgree(s) && LocalsAgree(s) && Enabled(s, Work) && !s.pc.PushFinish? && !s.pc.UnlockFinish?
    ensures var s' := WorkerStep(s);
      && PushedPart(s') == PushedPart(s) && Outbox(s') == Outbox(s) && s'.finish == s.finish
      && s'.delivered == s.delivered && s'.pushed == s.pushed && s.taken <= s'.taken
  {
  }

  lemma WorkerKeepsReady(s: State)
    requires LocksAgree(s) && LocalsAgree(s) && BatchInHand(s) && ReadyAgrees(s) && Enabled(s, Work)
    ensures ReadyAgrees(WorkerStep(s))
  {
    if s.pc.PushFinish? {
      PushKeepsReady(s, WorkerStep(s));
    } else if s.pc.UnlockFinish? {
      UnlockKeepsReady(s, WorkerStep(s));
    } else {
      WorkerReadiesNothing(s);
      ReadyStays(s, WorkerStep(s));
    }
  }

  lemma ReturnKeepsReady(s: State, c: ClientId)
    requires LocksAgree(s) && LocalsAgree(s) && ReadyAgrees(s) && Enabled(s, Go(c)) && s.clients[c].GetUnlock?
    ensures ReadyAgrees(ClientStep(s, c))
  {
    var s' := ClientStep(s, c);
    ClientReturns(s, c);
    SameWorkerSameParts(s, s');
    FinishHolderHasNoPart(s, c);
    assert Cleared(s'.delivered) == s.pushed && s.taken[s.pushed..s.pushed] == [];
  }

  lemma FinishHolderHasNoPart(s: State, c: ClientId)
    requires LocksAgree(s) && c in s.clients && ClientHoldsFinish(s.clients[c])
    ensures PushedPart(s) == []
  {
    assert ClientAgrees(c, s.clients[c], s.writeLock, s.finishLock);
  }

  lemma ClientReadiesNothing(s: State, c: ClientId)
    requires LocksAgree(s) && LocalsAgree(s) && Enabled(s, Go(c)) && !s.clients[c].GetUnlock?
    ensures var s' := ClientStep(s, c);
      && Outbox(s') + s'.finish == Outbox(s) + s.finish && PushedPart(s') == PushedPart(s)
      && s'.delivered == s.delivered && s'.pushed == s.pushed && s'.taken == s.taken
  {
    SameWorkerSameParts(s, ClientStep(s, c));
    if s.clients[c].GetClear? {
      ClientClears(s, c);
      NothingAdded(s.finish);
    } else {
      ClientKeepsOutbox(s, c);
    }
  }

  lemma ClientKeepsReady(s: State, c: ClientId)
    requires LocksAgree(s) && LocalsAgree(s) && ReadyAgrees(s) && Enabled(s, Go(c))
    ensures ReadyAgrees(ClientStep(s, c))
  {
    if s.clients[c].GetUnlock? {
      ReturnKeepsReady(s, c);
    } else {
      ClientReadiesNothing(s, c);
      ReadyStays(s, ClientStep(s, c));
    }
  }

  lemma WholeBatchesSnoc(ds: seq<Delivery>, taken: seq<seq<Node>>, d: Delivery)
    requires WholeBatches(ds, taken) && Cleared(ds) <= d.upTo <= |taken|
    requires d.nodes == Flatten(taken[Cleared(ds)..d.upTo])
    ensures WholeBatches(ds + [d], taken)
  {
    forall m | 0 <= m <= |ds| ensures (ds + [d])[..m] == ds[..m] {
    }
    assert ds[..|ds|] == ds;
  }

  lemma ReturnedVectorIsWholeBatches(s: State, c: ClientId)
    requires LocksAgree(s) && LocalsAgree(s) && ReadyAgrees(s) && Enabled(s, Go(c)) && s.clients[c].GetUnlock?
    ensures s.clients[c].tmp == Flatten(s.taken[Cleared(s.delivered)..s.pushed])
  {
    ClientReturns(s, c);
    FinishHolderHasNoPart(s, c);
    NothingAdded(s.clients[c].tmp);
    NothingAdded(Flatten(s.taken[Cleared(s.delivered)..s.pushed]));
  }

  lemma ClientKeepsWholeBatches(s: State, c: ClientId)
    requires LocksAgree(s) && LocalsAgree(s) && ReadyAgrees(s) && WholeBatches(s.delivered, s.taken)
    requires Enabled(s, Go(c))
    ensures WholeBatches(ClientStep(s, c).delivered, s.taken)
  {
    if s.clients[c].GetUnlock? {
      ReturnedVectorIsWholeBatches(s, c);
      WholeBatchesSnoc(s.delivered, s.taken, Delivery(c, s.clients[c].tmp, s.pushed));
    }
  }

  lemma CallKeepsLocks(s: State, a: Action)
    requires LocksAgree(s) && LocalsAgree(s) && Enabled(s, a) && (a.CallAdd? || a.CallGet?)
    ensures LocksAgree(Step(s, a)) && LocalsAgree(Step(s, a)) && Outbox(Step(s, a)) == Outbox(s)
  {
    var s' := Step(s, a);
    forall c | c in s'.clients ensures ClientAgrees(c, s'.clients[c], s'.writeLock, s'.finishLock) {
      assert ClientAgrees(c, s.clients[c], s.writeLock, s.finishLock);
    }
  }

  lemma SameBatchInHand(s: State, s': State)
    requires BatchInHand(s) && s'.pc == s.pc && s'.batch == s.batch && s'.i == s.i
    requires s'.pushed == s.pushed && s'.taken == s.taken
    ensures BatchInHand(s')
  {
  }

  lemma CallKeepsInv(s: State, a: Action)
    requires Inv(s) && Enabled(s, a) && (a.CallAdd? || a.CallGet?)
    ensures Inv(Step(s, a))
  {
    var s' := Step(s, a);
    CallKeepsLocks(s, a);
    SameWorkerSameParts(s, s');
    SameBatchInHand(s, s');
    ReadyStays(s, s');
  }

  lemma WorkKeepsInv(s: State)
    requires Inv(s) && Enabled(s, Work)
    ensures Inv(WorkerStep(s))
  {
    WorkerKeepsLocks(s);
    WorkerKeepsConserved(s);
    WorkerKeepsBatches(s);
    WorkerKeepsReady(s);
  }

  lemma ClientKeepsBatchInHand(s: State, c: ClientId)
    requires BatchInHand(s) && Enabled(s, Go(c))
    ensures BatchInHand(ClientStep(s, c)) && ClientStep(s, c).taken == s.taken
  {
    SameBatchInHand(s, ClientStep(s, c));
  }

  lemma ClientKeepsBatches(s: State, c: ClientId)
    requires LocksAgree(s) && LocalsAgree(s) && BatchesAgree(s) && Enabled(s, Go(c))
    ensures BatchesAgree(ClientStep(s, c))
  {
    ClientKeepsReady(s, c);
    ClientKeepsBatchInHand(s, c);
    ClientKeepsWholeBatches(s, c);
  }

  lemma GoKeepsInv(s: State, c: ClientId)
    requires Inv(s) && Enabled(s, Go(c))
    ensures Inv(ClientStep(s, c))
  {
    ClientKeepsLocks(s, c);
    ClientKeepsLocals(s, c);
    ClientKeepsConserved(s, c);
    ClientKeepsBatches(s, c);
  }

  lemma StepKeepsInv(s: State, a: Action)
    requires Inv(s) && Enabled(s, a)
    ensures Inv(Step(s, a))
  {
    match a {
      case Work => WorkKeepsInv(s);
      case Go(c) => GoKeepsInv(s, c);
      case _ => CallKeepsInv(s, a);
    }
  }

  lemma {:induction false} RunKeepsInv(s: State, acts: seq<Action>)
    requires Inv(s) && Possible(s, acts)
    ensures Inv(Run(s, acts))
    decreases |acts|
  {
    if acts != [] {
      StepKeepsInv(s, acts[0]);
      RunKeepsInv(Step(s, acts[0]), acts[1..]);
    }
  }

  // ----- What holds in every run -----

  /** The schedule `acts` is possible from the start and leads to `s`. */
  ghost predicate Leads(ids: set<ClientId>, acts: seq<Action>, s: State) {
    Possible(Init(ids), acts) && s == Run(Init(ids), acts)
  }

  ghost predicate Reachable(ids: set<ClientId>, s: State) {
    exists acts :: Leads(ids, acts, s)
  }

  lemma {:induction false} LeadsToInv(ids: set<ClientId>, acts: seq<Action>, s: State)
    requires Leads(ids, acts, s)
    ensures Inv(s)
  {
    InitInv(ids);
    RunKeepsInv(Init(ids), acts);
  }

  lemma ReachableInv(ids: set<ClientId>, s: State)
    requires Reachable(ids, s)
    ensures Inv(s)
  {
    var acts :| Leads(ids, acts, s);
    LeadsToInv(ids, acts, s);
  }

  lemma BalancedMeansPrefixes(sub: seq<Node>, ex: seq<Node>, d: seq<Node>, u: seq<Node>, j: seq<Node>,
                              left: seq<Node>, w: seq<Node>)
    requires Balanced(sub, ex, d, u, j, left, w) && j <= u
    ensures d <= ex <= sub
  {
    Assoc(d, u, w);
    assert j <= u + w;
    assert sub[..|d|] == d && sub[|d|..] == u + w;
  }

  lemma ConservedMeansFifo(s: State)
    requires LocalsAgree(s) && Conserved(s)
    ensures Delivered(s) <= s.executed <= s.submitted
  {
    assert JustExecuted(s) <= Unpushed(s);
    BalancedMeansPrefixes(s.submitted, s.executed, Done(s), Unpushed(s), JustExecuted(s), Flatten(s.taken), s.write);
    Assoc(Delivered(s), Outbox(s), s.finish);
  }

  /** Each returned vector is a concatenation of whole worker batches, the vectors take the batches in
      order and without gaps, and the batches are what left the write vector, in submission order. */
  lemma EveryReturnIsWholeBatches(ids: set<ClientId>, s: State)
    requires Reachable(ids, s)
    ensures WholeBatches(s.delivered, s.taken) && s.submitted == Flatten(s.taken) + s.write
  {
    ReachableInv(ids, s);
  }

  // ----- What became of each call -----

  /** The nodes that one client gave to AddWaitNode, and its calls of GetFinishDBWait, in a schedule. */
  function AddsOf(acts: seq<Action>, c: ClientId): seq<Node> {
    if acts == [] then []
    else
      var adds, a := AddsOf(acts[..|acts| - 1], c), acts[|acts| - 1];
      if a.CallAdd? && a.id == c then adds + [a.node] else adds
  }

  function GetsOf(acts: seq<Action>, c: ClientId): nat {
    if acts == [] then 0
    else GetsOf(acts[..|acts| - 1], c) + (if acts[|acts| - 1] == CallGet(c) then 1 else 0)
  }

  /** The nodes that one client pushed, in order. */
  function PushedBy(nodes: seq<Node>, who: seq<ClientId>, c: ClientId): seq<Node>
    requires |nodes| == |who|
  {
    if nodes == [] then []
    else
      var last := |nodes| - 1;
      var earlier := PushedBy(nodes[..last], who[..last], c);
      if who[last] == c then earlier + [nodes[last]] else earlier
  }

  function DeliveriesTo(ds: seq<Delivery>, c: ClientId): nat {
    if ds == [] then 0
    else DeliveriesTo(ds[..|ds| - 1], c) + (if ds[|ds| - 1].client == c then 1 else 0)
  }

  /** The node of a call that has not yet pushed it. */
  function Waiting(pc: ClientPc): seq<Node> {
    match pc
    case AddLock(n) => [n]
    case AddPush(n) => [n]
    case _ => []
  }

  predicate InGet(pc: ClientPc) {
    pc.GetLock? || pc.GetCopy? || pc.GetClear? || pc.GetUnlock?
  }

  function PlaceOf(s: State, c: ClientId): ClientPc {
    if c in s.clients then s.clients[c] else Idle
  }

  /** A client's calls are its pushes and returned vectors, but for the call it is in. */
  predicate Accounted(adds: seq<Node>, gets: nat, pushed: seq<Node>, returned: nat, pc: ClientPc) {
    && adds == pushed + Waiting(pc)
    && gets == returned + (if InGet(pc) then 1 else 0)
  }

  ghost predicate CallsOfAgree(s: State, acts: seq<Action>, c: ClientId)
    requires |s.submitted| == |s.submitters|
  {
    Accounted(AddsOf(acts, c), GetsOf(acts, c), PushedBy(s.submitted, s.submitters, c), DeliveriesTo(s.delivered, c),
              PlaceOf(s, c))
  }

  ghost predicate CallsAgree(s: State, acts: seq<Action>) {
    |s.submitted| == |s.submitters| && forall c :: CallsOfAgree(s, acts, c)
  }

  lemma CallsSnoc(acts: seq<Action>, a: Action, c: ClientId)
    ensures AddsOf(acts + [a], c) == if a.CallAdd? && a.id == c then AddsOf(acts, c) + [a.node] else AddsOf(acts, c)
    ensures GetsOf(acts + [a], c) == GetsOf(acts, c) + (if a == CallGet(c) then 1 else 0)
  {
    assert (acts + [a])[..|acts|] == acts;
  }

  lemma PushedBySnoc(nodes: seq<Node>, who: seq<ClientId>, n: Node, d: ClientId, c: ClientId)
    requires |nodes| == |who|
    ensures PushedBy(nodes + [n], who + [d], c)
      == if d == c then PushedBy(nodes, who, c) + [n] else PushedBy(nodes, who, c)
  {
    assert (nodes + [n])[..|nodes|] == nodes && (who + [d])[..|who|] == who;
  }

  lemma DeliveriesToSnoc(ds: seq<Delivery>, d: Delivery, c: ClientId)
    ensures DeliveriesTo(ds + [d], c) == DeliveriesTo(ds, c) + (if d.client == c then 1 else 0)
  {
    assert (ds + [d])[..|ds|] == ds;
  }

  /** The calls of `c` are where they were when neither its place nor its history changed. */
  lemma SameCalls(s: State, s': State, acts: seq<Action>, a: Action, c: ClientId)
    requires |s.submitted| == |s.submitters| && CallsOfAgree(s, acts, c) && !a.CallAdd? && !a.CallGet?
    requires s'.clients == s.clients && s'.submitted == s.submitted && s'.submitters == s.submitters
    requires s'.delivered == s.delivered
    ensures CallsOfAgree(s', acts + [a], c)
  {
    CallsSnoc(acts, a, c);
  }

  lemma StartAccounted(adds: seq<Node>, gets: nat, pushed: seq<Node>, returned: nat, n: Node)
    requires Accounted(adds, gets, pushed, returned, Idle)
    ensures Accounted(adds + [n], gets, pushed, returned, AddLock(n))
    ensures Accounted(adds, gets + 1, pushed, returned, GetLock)
  {
    NothingAdded(pushed);
  }

  lemma PushAccounted(adds: seq<Node>, gets: nat, pushed: seq<Node>, returned: nat, n: Node)
    requires Accounted(adds, gets, pushed, returned, AddPush(n))
    ensures Accounted(adds, gets, pushed + [n], returned, AddUnlock)
  {
    NothingAdded(pushed + [n]);
  }

  lemma ReturnAccounted(adds: seq<Node>, gets: nat, pushed: seq<Node>, returned: nat, pc: ClientPc)
    requires Accounted(adds, gets, pushed, returned, pc) && pc.GetUnlock?
    ensures Accounted(adds, gets, pushed, returned + 1, Idle)
  {
  }

  lemma CallKeepsCalls(s: State, s': State, a: Action, acts: seq<Action>, c: ClientId)
    requires |s.submitted| == |s.submitters| && CallsOfAgree(s, acts, c)
    requires (a.CallAdd? || a.CallGet?) && PlaceOf(s, a.id) == Idle
    requires s' == s.(clients := s.clients[a.id := if a.CallAdd? then AddLock(a.node) else GetLock])
    ensures CallsOfAgree(s', acts + [a], c)
  {
    CallsSnoc(acts, a, c);
    if a.id == c {
      StartAccounted(AddsOf(acts, c), GetsOf(acts, c), PushedBy(s.submitted, s.submitters, c),
                     DeliveriesTo(s.delivered, c), if a.CallAdd? then a.node else 0);
    }
  }

  lemma MoveKeepsCalls(s: State, s': State, d: ClientId, acts: seq<Action>, c: ClientId)
    requires |s.submitted| == |s.submitters| && CallsOfAgree(s, acts, c) && d in s.clients && d in s'.clients
    requires s'.clients == s.clients[d := s'.clients[d]]
    requires Waiting(s'.clients[d]) == Waiting(s.clients[d]) && InGet(s'.clients[d]) == InGet(s.clients[d])
    requires s'.submitted == s.submitted && s'.submitters == s.submitters && s'.delivered == s.delivered
    ensures CallsOfAgree(s', acts + [Go(d)], c)
  {
    CallsSnoc(acts, Go(d), c);
  }

  lemma PushKeepsCalls(s: State, s': State, d: ClientId, n: Node, acts: seq<Action>, c: ClientId)
    requires |s.submitted| == |s.submitters| && CallsOfAgree(s, acts, c) && PlaceOf(s, d) == AddPush(n)
    requires s'.clients == s.clients[d := AddUnlock] && s'.delivered == s.delivered
    requires s'.submitted == s.submitted + [n] && s'.submitters == s.submitters + [d]
    ensures CallsOfAgree(s', acts + [Go(d)], c)
  {
    CallsSnoc(acts, Go(d), c);
    PushedBySnoc(s.submitted, s.submitters, n, d, c);
    if c == d {
      PushAccounted(AddsOf(acts, c), GetsOf(acts, c), PushedBy(s.submitted, s.submitters, c),
                    DeliveriesTo(s.delivered, c), n);
    }
  }

  lemma ReturnKeepsCalls(s: State, s': State, d: ClientId, v: Delivery, acts: seq<Action>, c: ClientId)
    requires |s.submitted| == |s.submitters| && CallsOfAgree(s, acts, c) && PlaceOf(s, d).GetUnlock?
    requires s'.clients == s.clients[d := Idle] && s'.delivered == s.delivered + [v] && v.client == d
    requires s'.submitted == s.submitted && s'.submitters == s.submitters
    ensures CallsOfAgree(s', acts + [Go(d)], c)
  {
    CallsSnoc(acts, Go(d), c);
    DeliveriesToSnoc(s.delivered, v, c);
    if c == d {
      ReturnAccounted(AddsOf(acts, c), GetsOf(acts, c), PushedBy(s.submitted, s.submitters, c),
                      DeliveriesTo(s.delivered, c), PlaceOf(s, c));
    }
  }

  lemma GoKeepsCalls(s: State, d: ClientId, acts: seq<Action>, c: ClientId)
    requires |s.submitted| == |s.submitters| && CallsOfAgree(s, acts, c) && Enabled(s, Go(d))
    ensures |ClientStep(s, d).submitted| == |ClientStep(s, d).submitters|
    ensures CallsOfAgree(ClientStep(s, d), acts + [Go(d)], c)
  {
    var s', pc := ClientStep(s, d), s.clients[d];
    if pc.AddPush? {
      PushKeepsCalls(s, s', d, pc.node, acts, c);
    } else if pc.GetUnlock? {
      ReturnKeepsCalls(s, s', d, Delivery(d, pc.tmp, s.pushed), acts, c);
    } else {
      MoveKeepsCalls(s, s', d, acts, c);
    }
  }

  lemma StepKeepsCallsOf(s: State, a: Action, acts: seq<Action>, c: ClientId)
    requires |s.submitted| == |s.submitters| && CallsOfAgree(s, acts, c) && Enabled(s, a)
    ensures |Step(s, a).submitted| == |Step(s, a).submitters| && CallsOfAgree(Step(s, a), acts + [a], c)
  {
    match a {
      case Work => SameCalls(s, WorkerStep(s), acts, a, c);
      case Go(d) => GoKeepsCalls(s, d, acts, c);
      case _ => CallKeepsCalls(s, Step(s, a), a, acts, c);
    }
  }

  lemma StepKeepsCalls(s: State, a: Action, acts: seq<Action>)
    requires CallsAgree(s, acts) && Enabled(s, a)
    ensures CallsAgree(Step(s, a), acts + [a])
  {
    forall c ensures |Step(s, a).submitted| == |Step(s, a).submitters| && CallsOfAgree(Step(s, a), acts + [a], c) {
      assert CallsOfAgree(s, acts, c);
      StepKeepsCallsOf(s, a, acts, c);
    }
  }

  lemma {:induction false} RunKeepsCalls(s: State, acts: seq<Action>, done: seq<Action>)
    requires CallsAgree(s, done) && Possible(s, acts)
    ensures CallsAgree(Run(s, acts), done + acts)
    decreases |acts|
  {
    if acts == [] {
      assert done + acts == done;
    } else {
      StepKeepsCalls(s, acts[0], done);
      RunKeepsCalls(Step(s, acts[0]), acts[1..], done + [acts[0]]);
      assert done + [acts[0]] + acts[1..] == done + acts;
    }
  }

  lemma InitCalls(ids: set<ClientId>)
    ensures CallsAgree(Init(ids), [])
  {
  }

  lemma {:induction false} LeadsToCalls(ids: set<ClientId>, acts: seq<Action>, s: State)
    requires Leads(ids, acts, s)
    ensures CallsAgree(s, acts)
  {
    InitCalls(ids);
    RunKeepsCalls(Init(ids), acts, []);
    assert [] + acts == acts;
  }

  /** In every run, each client's pushes are the nodes it gave to AddWaitNode, in its call order, but for
      the node of a call that has not come to its push; and it got one returned vector for each call of
      GetFinishDBWait, but for a call still under way. */
  lemma EveryCallCounts(ids: set<ClientId>, acts: seq<Action>, s: State, c: ClientId)
    requires Leads(ids, acts, s)
    ensures |s.submitted| == |s.submitters|
    ensures AddsOf(acts, c) == PushedBy(s.submitted, s.submitters, c)
      + (if c in s.clients && (s.clients[c].AddLock? || s.clients[c].AddPush?) then [s.clients[c].node] else [])
    ensures GetsOf(acts, c) == DeliveriesTo(s.delivered, c)
      + (if c in s.clients && !s.clients[c].Idle? && !s.clients[c].AddLock? && !s.clients[c].AddPush?
            && !s.clients[c].AddUnlock? then 1 else 0)
  {
    LeadsToCalls(ids, acts, s);
    assert CallsOfAgree(s, acts, c);
  }

  /** First in, first out, with no loss and no duplicate, from the calls of AddWaitNode on, and nothing
      delivered before it is executed: when no client is inside AddWaitNode, each client's calls are its
      pushes; executions follow the push order, deliveries follow the execution order. */
  lemma EveryRunIsFifo(ids: set<ClientId>, acts: seq<Action>, s: State)
    requires Leads(ids, acts, s)
    ensures s.submitted == Delivered(s) + Outbox(s) + s.finish + Unpushed(s) + s.write
    ensures s.executed == Delivered(s) + Outbox(s) + s.finish + JustExecuted(s)
    ensures Delivered(s) <= s.executed <= s.submitted
    ensures |s.submitted| == |s.submitters|
    ensures forall c :: c in s.clients && s.clients[c].Idle? ==>
      AddsOf(acts, c) == PushedBy(s.submitted, s.submitters, c)
  {
    LeadsToInv(ids, acts, s);
    ConservedMeansFifo(s);
    IdleMeansPushed(ids, acts, s);
  }

  lemma IdleMeansPushed(ids: set<ClientId>, acts: seq<Action>, s: State)
    requires Leads(ids, acts, s)
    ensures |s.submitted| == |s.submitters|
    ensures forall c :: c in s.clients && s.clients[c].Idle? ==>
      AddsOf(acts, c) == PushedBy(s.submitted, s.submitters, c)
  {
    LeadsToCalls(ids, acts, s);
    forall c | c in s.clients && s.clients[c].Idle? ensures AddsOf(acts, c) == PushedBy(s.submitted, s.submitters, c) {
      assert CallsOfAgree(s, acts, c);
    }
  }

  /** Histories only grow: what is submitted, executed or delivered at some point stays in front. */
  lemma {:induction false} HistoriesGrow(s: State, acts: seq<Action>)
    requires Possible(s, acts)
    ensures var t := Run(s, acts);
      && s.submitted <= t.submitted && s.submitters <= t.submitters
      && s.executed <= t.executed && s.delivered <= t.delivered
    decreases |acts|
  {
    if acts != [] {
      StepGrows(s, acts[0]);
      HistoriesGrow(Step(s, acts[0]), acts[1..]);
    }
  }

  lemma StepGrows(s: State, a: Action)
    requires Enabled(s, a)
    ensures var t := Step(s, a);
      && s.submitted <= t.submitted && s.submitters <= t.submitters
      && s.executed <= t.executed && s.delivered <= t.delivered
  {
  }

  // ----- Locks -----

  datatype Lock = WriteLock | FinishLock

  function OwnerOf(s: State, l: Lock): Owner {
    if l.WriteLock? then s.writeLock else s.finishLock
  }

  function NextOf(o: Owner): Action
    requires !o.Free?
  {
    if o.Worker? then Work else Go(o.id)
  }

  /** Steps its owner still has to take before it unlocks `l`. */
  function StepsToUnlock(s: State, l: Lock): nat {
    match OwnerOf(s, l)
    case Free => 0
    case Worker =>
      if l.WriteLock? then
        if s.pc.CopyWrite? then 3 else if s.pc.ClearWrite? then 2 else 1
      else if s.i < |s.batch| then
        2 * (|s.batch| - s.i) + (if s.pc.DoDBSql? then 1 else 0)
      else 1
    case Client(c) =>
      if c !in s.clients then 1
      else if l.WriteLock? then
        if s.clients[c].AddPush? then 2 else 1
      else
        if s.clients[c].GetCopy? then 3 else if s.clients[c].GetClear? then 2 else 1
  }

  /** The lock that the next step of `self` takes, if that step takes one. */
  function Wanted(s: State, self: Owner): Lock {
    match self
    case Free => WriteLock
    case Worker => if s.pc.LockWrite? then WriteLock else FinishLock
    case Client(c) => if c in s.clients && s.clients[c].AddLock? then WriteLock else FinishLock
  }

  lemma OwnerCanGo(s: State, l: Lock)
    requires LocksAgree(s) && LocalsAgree(s) && !OwnerOf(s, l).Free?
    ensures Enabled(s, NextOf(OwnerOf(s, l)))
  {
  }

  lemma BlockedByOther(s: State, self: Owner)
    requires LocksAgree(s) && LocalsAgree(s) && !self.Free? && !Enabled(s, NextOf(self))
    requires self.Client? ==> self.id in s.clients && !s.clients[self.id].Idle?
    ensures var owner := OwnerOf(s, Wanted(s, self));
      !owner.Free? && owner != self && Enabled(s, NextOf(owner))
  {
    OwnerCanGo(s, Wanted(s, self));
    if self.Client? {
      assert ClientAgrees(self.id, s.clients[self.id], s.writeLock, s.finishLock);
    }
  }

  lemma NobodyHoldsBoth(s: State)
    requires LocksAgree(s)
    ensures s.writeLock.Free? || s.writeLock != s.finishLock
    ensures s.pc.DoDBSql? ==> s.writeLock != Worker
  {
    if s.writeLock.Client? {
      var c := s.writeLock.id;
      assert ClientAgrees(c, s.clients[c], s.writeLock, s.finishLock);
    }
  }

  /** In every reachable state, the lock that a blocked thread wants is held by another thread, which can
      take its next step; no thread holds both locks; and the worker does not hold AddWaitNode's lock
      while SQL runs. */
  lemma NoDeadlock(ids: set<ClientId>, s: State, self: Owner)
    requires Reachable(ids, s) && !self.Free?
    requires self.Client? ==> self.id in s.clients && !s.clients[self.id].Idle?
    ensures var owner := OwnerOf(s, Wanted(s, self));
      !Enabled(s, NextOf(self)) ==> !owner.Free? && owner != self && Enabled(s, NextOf(owner))
    ensures s.writeLock.Free? || s.writeLock != s.finishLock
    ensures s.pc.DoDBSql? ==> s.writeLock != Worker
  {
    ReachableInv(ids, s);
    NobodyHoldsBoth(s);
    if !Enabled(s, NextOf(self)) {
      BlockedByOther(s, self);
    }
  }

  /** In every reachable state a thread is stopped only in front of a lock that is taken, and an idle client
      can make any call. */
  lemma StoppedOnlyByLocks(ids: set<ClientId>, s: State)
    requires Reachable(ids, s)
    ensures !Enabled(s, Work) <==>
      (s.pc.LockWrite? && !s.writeLock.Free?) || (s.pc.LockFinish? && !s.finishLock.Free?)
    ensures forall c :: c in s.clients && !s.clients[c].Idle? ==>
      (!Enabled(s, Go(c)) <==>
        (s.clients[c].AddLock? && !s.writeLock.Free?) || (s.clients[c].GetLock? && !s.finishLock.Free?))
    ensures forall c: ClientId, n: Node :: c in s.clients && s.clients[c].Idle? ==> Enabled(s, CallAdd(c, n))
    ensures forall c: ClientId :: c in s.clients && s.clients[c].Idle? ==> Enabled(s, CallGet(c))
  {
    ReachableInv(ids, s);
  }

  lemma WorkerAdvances(s: State, l: Lock)
    requires LocksAgree(s) && LocalsAgree(s) && Enabled(s, Work) && OwnerOf(s, l).Worker?
    requires s.pc.UnlockFinish? ==> s.i == |s.batch|
    ensures StepsToUnlock(WorkerStep(s), l) == StepsToUnlock(s, l) - 1
    ensures OwnerOf(WorkerStep(s), l) == if StepsToUnlock(s, l) == 1 then Free else Worker
  {
  }

  lemma ClientAdvances(s: State, c: ClientId, l: Lock)
    requires LocksAgree(s) && Enabled(s, Go(c)) && OwnerOf(s, l) == Client(c)
    ensures StepsToUnlock(ClientStep(s, c), l) == StepsToUnlock(s, l) - 1
    ensures OwnerOf(ClientStep(s, c), l) == if StepsToUnlock(s, l) == 1 then Free else Client(c)
  {
  }

  lemma OthersDoNotAdvance(s: State, a: Action, l: Lock)
    requires LocksAgree(s) && Enabled(s, a) && !OwnerOf(s, l).Free? && a != NextOf(OwnerOf(s, l))
    ensures StepsToUnlock(Step(s, a), l) == StepsToUnlock(s, l)
    ensures OwnerOf(Step(s, a), l) == OwnerOf(s, l)
  {
    match a {
      case Work => assert WorkerStep(s).clients == s.clients;
      case CallAdd(c, _) => assert OwnerOf(s, l) != Client(c);
      case CallGet(c) => assert OwnerOf(s, l) != Client(c);
      case Go(c) => OtherClientDoesNotAdvance(s, c, l);
    }
  }

  lemma OtherClientDoesNotAdvance(s: State, c: ClientId, l: Lock)
    requires LocksAgree(s) && Enabled(s, Go(c)) && !OwnerOf(s, l).Free? && OwnerOf(s, l) != Client(c)
    ensures StepsToUnlock(ClientStep(s, c), l) == StepsToUnlock(s, l)
    ensures OwnerOf(ClientStep(s, c), l) == OwnerOf(s, l)
  {
  }

  /** Only the owner's own steps count down to the unlock; no other thread can take over or delay it. */
  lemma OnlyOwnerAdvances(s: State, a: Action, l: Lock)
    requires Inv(s) && Enabled(s, a) && !OwnerOf(s, l).Free?
    ensures var o := OwnerOf(s, l);
      if a == NextOf(o) then
        && StepsToUnlock(Step(s, a), l) == StepsToUnlock(s, l) - 1
        && OwnerOf(Step(s, a), l) == if StepsToUnlock(s, l) == 1 then Free else o
      else
        StepsToUnlock(Step(s, a), l) == StepsToUnlock(s, l) && OwnerOf(Step(s, a), l) == o
  {
    var o := OwnerOf(s, l);
    if a != NextOf(o) {
      OthersDoNotAdvance(s, a, l);
    } else if o.Worker? {
      WorkerAdvances(s, l);
    } else {
      ClientAdvances(s, o.id, l);
    }
  }

  function Turns(acts: seq<Action>, a: Action): nat {
    if acts == [] then 0 else (if acts[0] == a then 1 else 0) + Turns(acts[1..], a)
  }

  /** The lock is free at some point of the run of `acts` from `s`. */
  ghost predicate FreeDuring(s: State, acts: seq<Action>, l: Lock) {
    exists k :: 0 <= k <= |acts| && Possible(s, acts[..k]) && OwnerOf(Run(s, acts[..k]), l).Free?
  }

  lemma {:induction false} LockIsReleasedFrom(s: State, acts: seq<Action>, l: Lock)
    requires Inv(s) && Possible(s, acts) && !OwnerOf(s, l).Free?
    requires Turns(acts, NextOf(OwnerOf(s, l))) >= StepsToUnlock(s, l)
    ensures FreeDuring(s, acts, l)
    decreases |acts|
  {
    OnlyOwnerAdvances(s, acts[0], l);
    StepKeepsInv(s, acts[0]);
    var s1, rest := Step(s, acts[0]), acts[1..];
    var k := 0;
    if !OwnerOf(s1, l).Free? {
      LockIsReleasedFrom(s1, rest, l);
      k :| 0 <= k <= |rest| && Possible(s1, rest[..k]) && OwnerOf(Run(s1, rest[..k]), l).Free?;
    }
    RunsOneMore(s, acts, k);
  }

  lemma RunsOneMore(s: State, acts: seq<Action>, k: nat)
    requires acts != [] && k < |acts| && Enabled(s, acts[0]) && Possible(Step(s, acts[0]), acts[1..][..k])
    ensures Possible(s, acts[..k + 1])
    ensures Run(s, acts[..k + 1]) == Run(Step(s, acts[0]), acts[1..][..k])
  {
    assert acts[..k + 1][1..] == acts[1..][..k];
  }

  /** In every run, a lock held at some point is free again once its owner has taken its remaining
      steps, however the other threads interleave. */
  lemma {:induction false} LockIsReleased(ids: set<ClientId>, s: State, acts: seq<Action>, l: Lock)
    requires Reachable(ids, s) && Possible(s, acts) && !OwnerOf(s, l).Free?
    requires Turns(acts, NextOf(OwnerOf(s, l))) >= StepsToUnlock(s, l)
    ensures FreeDuring(s, acts, l)
  {
    ReachableInv(ids, s);
    LockIsReleasedFrom(s, acts, l);
  }

  // ----- A whole iteration of the worker -----

  /** Everything of `early` has left the write vector, or the worker has yet to take its next batch. */
  ghost predicate Covers(s: State, early: seq<Node>) {
    && early <= s.submitted
    && (BeforeClear(s.pc) || |early| <= |Flatten(s.taken)|)
  }

  lemma StepKeepsCovers(s: State, a: Action, early: seq<Node>)
    requires LocalsAgree(s) && Conserved(s) && Enabled(s, a) && Covers(s, early)
    ensures Covers(Step(s, a), early)
  {
    if a.Work? && s.pc.ClearWrite? {
      ClearKeepsCovers(s, WorkerStep(s), early);
    } else {
      SubmissionsGrow(s, a);
      CoversStays(s, Step(s, a), early);
    }
  }

  predicate BeforeClear(pc: WorkerPc) {
    pc.LockWrite? || pc.CopyWrite? || pc.ClearWrite?
  }

  lemma SubmissionsGrow(s: State, a: Action)
    requires Enabled(s, a) && !(a.Work? && s.pc.ClearWrite?)
    ensures Step(s, a).taken == s.taken && s.submitted <= Step(s, a).submitted
    ensures BeforeClear(s.pc) ==> BeforeClear(Step(s, a).pc)
  {
  }

  lemma CoversStays(s: State, s': State, early: seq<Node>)
    requires Covers(s, early) && s'.taken == s.taken && s.submitted <= s'.submitted
    requires BeforeClear(s.pc) ==> BeforeClear(s'.pc)
    ensures Covers(s', early)
  {
  }

  lemma ClearKeepsCovers(s: State, s': State, early: seq<Node>)
    requires LocalsAgree(s) && Conserved(s) && Covers(s, early) && s.pc.ClearWrite?
    requires s' == s.(write := [], taken := s.taken + [s.batch], pc := UnlockWrite)
    ensures Covers(s', early)
  {
    FlattenSnoc(s.taken, s.batch);
  }

  lemma {:induction false} RunKeepsCovers(s: State, acts: seq<Action>, early: seq<Node>)
    requires Inv(s) && Possible(s, acts) && Covers(s, early)
    ensures Covers(Run(s, acts), early)
    decreases |acts|
  {
    if acts != [] {
      StepKeepsInv(s, acts[0]);
      StepKeepsCovers(s, acts[0], early);
      RunKeepsCovers(Step(s, acts[0]), acts[1..], early);
    }
  }

  /** A node submitted before the worker starts an iteration is delivered, or waits in the finish
      vector, when that iteration ends, whatever the clients do meanwhile. */
  lemma {:induction false} IterationFinishesEarlierNodes(ids: set<ClientId>, s: State, during: seq<Action>)
    requires Reachable(ids, s) && s.pc.LockWrite?
    requires Possible(s, during) && Run(s, during).pc.Sleep?
    ensures s.submitted <= Done(Run(s, during))
  {
    ReachableInv(ids, s);
    RunKeepsInv(s, during);
    RunKeepsCovers(s, during, s.submitted);
    SleepHasNothingInHand(Run(s, during), s.submitted);
  }

  lemma SleepHasNothingInHand(s: State, early: seq<Node>)
    requires Conserved(s) && s.pc.Sleep? && Covers(s, early)
    ensures early <= Done(s)
  {
    assert Done(s) + [] == Done(s);
    assert |Done(s)| == |Flatten(s.taken)|;
  }

  // ----- The worker alone -----

  function Alone(n: nat): seq<Action> {
    seq(n, _ => Work)
  }

  /** `n` steps of the worker alone lead from `s` to `t`. */
  predicate AloneReaches(s: State, n: nat, t: State) {
    Possible(s, Alone(n)) && Run(s, Alone(n)) == t
  }

  lemma AloneStep(s: State, s1: State, n: nat, t: State)
    requires Enabled(s, Work) && WorkerStep(s) == s1 && AloneReaches(s1, n, t)
    ensures AloneReaches(s, n + 1, t)
  {
    assert Alone(n + 1)[1..] == Alone(n);
  }

  /** With nobody else running, one iteration moves the whole write vector behind the finish vector. */
  lemma IterationAlone(s: State)
    requires s.pc.LockWrite? && s.writeLock.Free? && s.finishLock.Free?
    ensures var n := 2 * |s.write| + 6;
      && Possible(s, Alone(n))
      && Run(s, Alone(n)).pc.Sleep?
      && (Run(s, Alone(n)).write, Run(s, Alone(n)).finish) == WaitNodes.Iterated(s.write, s.finish)
      && Run(s, Alone(n)).executed == s.executed + s.write
  {
    var n := 2 * |s.write| + 6;
    var s1 := s.(writeLock := Worker, pc := CopyWrite);
    var s2 := s1.(batch := s.write, pc := ClearWrite);
    BatchAlone(s2);
    var t := AfterLoop(AfterTake(s2));
    AloneStep(s1, s2, n - 2, t);
    AloneStep(s, s1, n - 1, t);
  }

  /** The worker at its loop, after it took the batch that it copied. */
  function AfterTake(s: State): State {
    s.(write := [], taken := s.taken + [s.batch], writeLock := Free, finishLock := Worker, i := 0,
       pc := LoopTest(s.batch, 0))
  }

  /** The rest of the worker's batch executed and pushed, and the finish vector unlocked. */
  function AfterLoop(s: State): State
    requires s.i <= |s.batch|
  {
    s.(finish := s.finish + s.batch[s.i..], executed := s.executed + s.batch[s.i..], i := |s.batch|,
       finishLock := Free, pushed := s.pushed + 1, pc := Sleep)
  }

  lemma BatchAlone(s: State)
    requires s.pc.ClearWrite? && s.finishLock.Free?
    ensures AloneReaches(s, 2 * |s.batch| + 4, AfterLoop(AfterTake(s)))
  {
    var n, t := 2 * |s.batch| + 4, AfterLoop(AfterTake(s));
    var s1 := s.(write := [], taken := s.taken + [s.batch], pc := UnlockWrite);
    var s2 := s1.(writeLock := Free, pc := LockFinish);
    LoopAlone(AfterTake(s));
    AloneStep(s2, AfterTake(s), n - 3, t);
    AloneStep(s1, s2, n - 2, t);
    AloneStep(s, s1, n - 1, t);
  }

  lemma {:induction false} LoopAlone(s: State)
    requires s.finishLock == Worker && s.i <= |s.batch| && s.pc == LoopTest(s.batch, s.i)
    ensures AloneReaches(s, 2 * (|s.batch| - s.i) + 1, AfterLoop(s))
    decreases |s.batch| - s.i
  {
    var n, t := 2 * (|s.batch| - s.i) + 1, AfterLoop(s);
    if s.i < |s.batch| {
      var s1 := s.(executed := s.executed + [s.batch[s.i]], pc := PushFinish);
      var s2 := s1.(finish := s.finish + [s.batch[s.i]], i := s.i + 1, pc := LoopTest(s.batch, s.i + 1));
      LoopAlone(s2);
      LoopTurn(s, s2);
      AloneStep(s1, s2, n - 2, t);
      AloneStep(s, s1, n - 1, t);
    } else {
      LastStep(s, t);
    }
  }

  lemma LoopTurn(s: State, s2: State)
    requires s.i < |s.batch| && s2 == s.(executed := s2.executed, finish := s2.finish, i := s.i + 1, pc := s2.pc)
    requires s2.executed == s.executed + [s.batch[s.i]] && s2.finish == s.finish + [s.batch[s.i]]
    ensures AfterLoop(s2) == AfterLoop(s)
  {
    assert s.batch[s.i..] == [s.batch[s.i]] + s.batch[s.i + 1..];
    Assoc(s.finish, [s.batch[s.i]], s.batch[s.i + 1..]);
    Assoc(s.executed, [s.batch[s.i]], s.batch[s.i + 1..]);
  }

  lemma LastStep(s: State, t: State)
    requires s.i == |s.batch| && s.pc.UnlockFinish? && t == AfterLoop(s)
    ensures AloneReaches(s, 1, t)
  {
    NothingAdded(s.finish);
    NothingAdded(s.executed);
    assert WorkerStep(s) == t;
    assert Alone(0) == [] && AloneReaches(t, 0, t);
    AloneStep(s, t, 0, t);
  }
}
