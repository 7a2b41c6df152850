/** The Windows reader/writer lock wrapper: a slim reader/writer lock that must be told which mode to
    release, and one shared flag from which unlock guesses that mode. Any number of threads interleave;
    acquiring and setting the flag, and clearing the flag and releasing, are separate steps. */
module RwLock {

  type Tid = nat

  /** The native lock counts shared holds but does not know who holds it. */
  datatype Srw = Unlocked | Shared(n: nat) | Exclusive | Misused

  /** What each thread executes next. */
  datatype Pc =
    | Out                     // outside the wrapper
    | AcquireShared | AcquireExclusive
    | SetFlag                 // acquired exclusively, flag not yet set
    | TestFlag                // in native_rw_unlock
    | ClearFlag | ReleaseExclusive | ReleaseShared

  /** `sharedBy` and `exclusiveBy` record who really holds the lock; the wrapper never reads them. */
  datatype State = State(
    srw: Srw, haveExclusive: bool,
    pcs: map<Tid, Pc>,
    sharedBy: multiset<Tid>, exclusiveBy: set<Tid>)

  datatype Action =
    | RdLock(t: Tid) | WrLock(t: Tid)
    | TryRdLock(t: Tid, ok: bool) | TryWrLock(t: Tid, ok: bool)
    | Unlock(t: Tid)
    | Go(t: Tid)

  function Init(threads: set<Tid>): State {
    State(Unlocked, false, map t | t in threads :: Out, multiset{}, {})
  }

  predicate CanShare(l: Srw) {
    l.Unlocked? || l.Shared?
  }

  predicate Holds(s: State, t: Tid) {
    t in s.sharedBy || t in s.exclusiveBy
  }

  /** A thread calls unlock only while it holds the lock; a try-lock may fail at any time. */
  predicate Enabled(s: State, a: Action) {
    && a.t in s.pcs
    && match a
       case RdLock(t) => s.pcs[t].Out?
       case WrLock(t) => s.pcs[t].Out?
       case TryRdLock(t, ok) => s.pcs[t].Out? && (ok ==> CanShare(s.srw))
       case TryWrLock(t, ok) => s.pcs[t].Out? && (ok ==> s.srw.Unlocked?)
       case Unlock(t) => s.pcs[t].Out? && Holds(s, t)
       case Go(t) =>
         && !s.pcs[t].Out?
         && (s.pcs[t].AcquireShared? ==> CanShare(s.srw))
         && (s.pcs[t].AcquireExclusive? ==> s.srw.Unlocked?)
  }

  function AcquireSharedBy(s: State, t: Tid): State {
    s.(srw := Shared(if s.srw.Shared? then s.srw.n + 1 else 1),
       sharedBy := s.sharedBy + multiset{t}, pcs := s.pcs[t := Out])
  }

  function AcquireExclusiveBy(s: State, t: Tid): State {
    s.(srw := Exclusive, exclusiveBy := s.exclusiveBy + {t}, pcs := s.pcs[t := SetFlag])
  }

  /** The native release calls: a call that does not match the lock's mode is a misuse. */
  function ReleasedShared(l: Srw): Srw {
    if l.Shared? && l.n > 0 then (if l.n == 1 then Unlocked else Shared(l.n - 1)) else Misused
  }

  function ReleasedExclusive(l: Srw): Srw {
    if l.Exclusive? then Unlocked else Misused
  }

  function Step(s: State, a: Action): State
    requires Enabled(s, a)
  {
    var t := a.t;
    match a
    case RdLock(_) => s.(pcs := s.pcs[t := AcquireShared])
    case WrLock(_) => s.(pcs := s.pcs[t := AcquireExclusive])
    case TryRdLock(_, ok) => if ok then AcquireSharedBy(s, t) else s
    case TryWrLock(_, ok) => if ok then AcquireExclusiveBy(s, t) else s
    case Unlock(_) => s.(pcs := s.pcs[t := TestFlag])
    case Go(_) =>
      match s.pcs[t]
      case Out => s
      case AcquireShared => AcquireSharedBy(s, t)
      case AcquireExclusive => AcquireExclusiveBy(s, t)
      case SetFlag => s.(haveExclusive := true, pcs := s.pcs[t := Out])
      case TestFlag => s.(pcs := s.pcs[t := if s.haveExclusive then ClearFlag else ReleaseShared])
      case ClearFlag => s.(haveExclusive := false, pcs := s.pcs[t := ReleaseExclusive])
      case ReleaseExclusive =>
        s.(srw := ReleasedExclusive(s.srw), exclusiveBy := s.exclusiveBy - {t}, pcs := s.pcs[t := Out])
      case ReleaseShared =>
        s.(srw := ReleasedShared(s.srw), sharedBy := s.sharedBy - multiset{t}, pcs := s.pcs[t := Out])
  }

  predicate Possible(s: State, acts: seq<Action>)
    decreases |acts|
  {
    acts == [] || (Enabled(s, acts[0]) && Possible(Step(s, acts[0]), acts[1..]))
  }

  function Run(s: State, acts: seq<Action>): State
    requires Possible(s, acts)
    decreases |acts|
  {
    if acts == [] then s else Run(Step(s, acts[0]), acts[1..])
  }

  // ----- The invariant -----

  /** The native lock's mode agrees with who really holds it. */
  ghost predicate ModeAgrees(s: State) {
    && !s.srw.Misused?
    && (s.srw.Unlocked? <==> s.sharedBy == multiset{} && s.exclusiveBy == {})
    && (s.srw.Shared? ==> s.srw.n == |s.sharedBy| && s.exclusiveBy == {})
    && (s.srw.Exclusive? ==> s.sharedBy == multiset{} && |s.exclusiveBy| == 1)
  }

  /** The flag is set exactly while there is an exclusive holder past setting it and before clearing it. */
  ghost predicate FlagAgrees(s: State) {
    && (s.exclusiveBy == {} ==> !s.haveExclusive)
    && (forall t :: t in s.exclusiveBy ==> t in s.pcs && s.haveExclusive == FlagIsSetAt(s.pcs[t]))
  }

  predicate FlagIsSetAt(pc: Pc) {
    !pc.SetFlag? && !pc.ReleaseExclusive?
  }

  ghost predicate PcAgrees(s: State) {
    forall t :: t in s.pcs ==> HoldAt(s, t)
  }

  /** Which hold a thread has at each point. */
  ghost predicate HoldAt(s: State, t: Tid)
    requires t in s.pcs
  {
    match s.pcs[t]
    case SetFlag => t in s.exclusiveBy
    case ClearFlag => t in s.exclusiveBy
    case ReleaseExclusive => t in s.exclusiveBy
    case ReleaseShared => t in s.sharedBy
    case TestFlag => Holds(s, t)
    case _ => true
  }

  ghost predicate Inv(s: State) {
    ModeAgrees(s) && FlagAgrees(s) && PcAgrees(s)
  }

  lemma InitInv(threads: set<Tid>)
    ensures Inv(Init(threads))
  {
  }

  lemma OnlyHolder(s: State, t: Tid)
    requires ModeAgrees(s) && t in s.exclusiveBy
    ensures s.exclusiveBy == {t} && s.srw.Exclusive? && s.sharedBy == multiset{}
  {
    assert |s.exclusiveBy - {t}| == 0;
  }

  lemma AcquireKeepsInv(s: State, t: Tid)
    requires Inv(s) && t in s.pcs && (s.pcs[t].Out? || s.pcs[t].AcquireShared? || s.pcs[t].AcquireExclusive?)
    ensures CanShare(s.srw) ==> Inv(AcquireSharedBy(s, t))
    ensures s.srw.Unlocked? ==> Inv(AcquireExclusiveBy(s, t))
  {
    if CanShare(s.srw) {
      var s' := AcquireSharedBy(s, t);
      assert forall u :: u in s'.pcs ==> HoldAt(s, u);
      assert t in s'.sharedBy;
    }
    if s.srw.Unlocked? {
      var s' := AcquireExclusiveBy(s, t);
      assert forall u :: u in s'.pcs ==> HoldAt(s, u);
      assert s'.exclusiveBy == {t};
    }
  }

  lemma ReleaseKeepsInv(s: State, t: Tid)
    requires Inv(s) && t in s.pcs && (s.pcs[t].ReleaseShared? || s.pcs[t].ReleaseExclusive?)
    ensures Inv(Step(s, Go(t)))
  {
    assert HoldAt(s, t);
    var s' := Step(s, Go(t));
    if s.pcs[t].ReleaseExclusive? {
      OnlyHolder(s, t);
      assert s'.exclusiveBy == {};
    } else {
      assert s.srw.Shared? && |s'.sharedBy| == |s.sharedBy| - 1;
      assert |s'.sharedBy| == 0 <==> s'.sharedBy == multiset{};
    }
    forall u | u in s'.pcs && u != t ensures HoldAt(s', u) {
      assert HoldAt(s, u);
    }
  }

  lemma FlagStepKeepsInv(s: State, t: Tid)
    requires Inv(s) && t in s.pcs && (s.pcs[t].SetFlag? || s.pcs[t].TestFlag? || s.pcs[t].ClearFlag?)
    ensures Inv(Step(s, Go(t)))
  {
    assert HoldAt(s, t);
    if t in s.exclusiveBy {
      OnlyHolder(s, t);
    }
    var s' := Step(s, Go(t));
    forall u | u in s'.pcs && u != t ensures HoldAt(s', u) {
      assert HoldAt(s, u);
    }
  }

  lemma StepKeepsInv(s: State, a: Action)
    requires Inv(s) && Enabled(s, a)
    ensures Inv(Step(s, a))
  {
    var t := a.t;
    assert HoldAt(s, t);
    if s.pcs[t].SetFlag? || s.pcs[t].TestFlag? || s.pcs[t].ClearFlag? {
      FlagStepKeepsInv(s, t);
    } else if s.pcs[t].ReleaseShared? || s.pcs[t].ReleaseExclusive? {
      ReleaseKeepsInv(s, t);
    } else {
      AcquireKeepsInv(s, t);
      if a.RdLock? || a.WrLock? || a.Unlock? {
        var s' := Step(s, a);
        forall u | u in s'.pcs && u != t ensures HoldAt(s', u) {
          assert HoldAt(s, u);
        }
      }
    }
  }

  lemma {:induction false} RunKeepsInv(s: State, acts: seq<Action>)
    requires Inv(s) && Possible(s, acts)
    ensures Inv(Run(s, acts))
    decreases |acts|
  {
    if acts != [] {
      StepKeepsInv(s, acts[0]);
      RunKeepsInv(Step(s, acts[0]), acts[1..]);
    }
  }

  // ----- What holds in every run -----

  /** The schedule `acts` is possible from the start and leads to `s`. */
  ghost predicate Leads(threads: set<Tid>, acts: seq<Action>, s: State) {
    Possible(Init(threads), acts) && s == Run(Init(threads), acts)
  }

  lemma LeadsToInv(threads: set<Tid>, acts: seq<Action>, s: State)
    requires Leads(threads, acts, s)
    ensures Inv(s) && s.pcs.Keys == threads
  {
    InitInv(threads);
    RunKeepsInv(Init(threads), acts);
    RunKeepsThreads(Init(threads), acts);
  }

  lemma {:induction false} RunKeepsThreads(s: State, acts: seq<Action>)
    requires Possible(s, acts)
    ensures Run(s, acts).pcs.Keys == s.pcs.Keys
    decreases |acts|
  {
    if acts != [] {
      assert Step(s, acts[0]).pcs.Keys == s.pcs.Keys;
      RunKeepsThreads(Step(s, acts[0]), acts[1..]);
    }
  }

  /** Whatever the interleaving, the release call a thread is about to make matches the mode it holds
      and the mode the native lock is in; a writer excludes everybody; and an idle lock has a clear flag. */
  lemma ReleaseAlwaysMatches(threads: set<Tid>, acts: seq<Action>, s: State, t: Tid)
    requires Leads(threads, acts, s) && t in s.pcs
    ensures !s.srw.Misused?
    ensures s.pcs[t].ReleaseExclusive? ==> s.srw.Exclusive? && s.exclusiveBy == {t}
    ensures s.pcs[t].ReleaseShared? ==> s.srw.Shared? && t in s.sharedBy
    ensures t in s.exclusiveBy ==> s.exclusiveBy == {t} && s.sharedBy == multiset{}
    ensures s.srw.Unlocked? ==> !s.haveExclusive
  {
    LeadsToInv(threads, acts, s);
    assert HoldAt(s, t);
    if t in s.exclusiveBy {
      OnlyHolder(s, t);
    }
  }

  /** In every run a thread inside the wrapper waits only for a real holder: a reader exactly while there
      is a writer, a writer exactly while there is any holder, and nobody waits at any other point. */
  lemma WaitsOnlyForHolders(threads: set<Tid>, acts: seq<Action>, s: State, t: Tid)
    requires Leads(threads, acts, s) && t in threads
    ensures t in s.pcs && (!s.pcs[t].Out? ==>
      (!Enabled(s, Go(t)) <==>
        || (s.pcs[t].AcquireShared? && s.exclusiveBy != {})
        || (s.pcs[t].AcquireExclusive? && (s.exclusiveBy != {} || s.sharedBy != multiset{}))))
  {
    LeadsToInv(threads, acts, s);
  }

  // ----- What each call does -----

  /** What one thread holds. */
  datatype Hold = Hold(shared: nat, exclusive: bool)

  function HoldOf(s: State, t: Tid): Hold {
    Hold(s.sharedBy[t], t in s.exclusiveBy)
  }

  /** What a caller holds when the call has returned; only the caller's own calls decide it. */
  function AfterCall(h: Hold, call: Action): Hold {
    match call
    case RdLock(_) => h.(shared := h.shared + 1)
    case TryRdLock(_, ok) => if ok then h.(shared := h.shared + 1) else h
    case WrLock(_) => h.(exclusive := true)
    case TryWrLock(_, ok) => if ok then h.(exclusive := true) else h
    case Unlock(_) =>
      if h.exclusive then h.(exclusive := false)
      else if h.shared > 0 then h.(shared := h.shared - 1)
      else h
    case Go(_) => h
  }

  /** Where a thread is inside `call`, which it made while it held `h`. */
  ghost predicate Inside(s: State, t: Tid, call: Action, h: Hold)
    requires t in s.pcs
  {
    match s.pcs[t]
    case Out => HoldOf(s, t) == AfterCall(h, call)
    case AcquireShared => call.RdLock? && HoldOf(s, t) == h
    case AcquireExclusive => call.WrLock? && HoldOf(s, t) == h
    case SetFlag => (call.WrLock? || call.TryWrLock?) && HoldOf(s, t) == AfterCall(h, call)
    case _ => call.Unlock? && HoldOf(s, t) == h
  }

  lemma CallBegins(s: State, call: Action)
    requires Inv(s) && Enabled(s, call) && !call.Go?
    ensures Inside(Step(s, call), call.t, call, HoldOf(s, call.t))
  {
  }

  lemma ReleaseEnds(s: State, t: Tid, call: Action, h: Hold)
    requires Inv(s) && t in s.pcs && Inside(s, t, call, h)
    requires s.pcs[t].ReleaseShared? || s.pcs[t].ReleaseExclusive?
    ensures Inside(Step(s, Go(t)), t, call, h)
  {
    assert HoldAt(s, t);
    if t in s.exclusiveBy {
      OnlyHolder(s, t);
    }
  }

  lemma StaysInside(s: State, a: Action, t: Tid, call: Action, h: Hold)
    requires Inv(s) && Enabled(s, a) && t in s.pcs && Inside(s, t, call, h)
    requires a.t == t ==> a.Go?
    ensures t in Step(s, a).pcs && Inside(Step(s, a), t, call, h)
  {
    if a.t != t {
      OthersKeepPlace(s, a, t);
    } else if s.pcs[t].ReleaseShared? || s.pcs[t].ReleaseExclusive? {
      ReleaseEnds(s, t, call, h);
    } else {
      GoStaysInside(s, t, call, h);
    }
  }

  lemma OthersKeepPlace(s: State, a: Action, t: Tid)
    requires Enabled(s, a) && t in s.pcs && a.t != t
    ensures var s' := Step(s, a);
      t in s'.pcs && s'.pcs[t] == s.pcs[t] && HoldOf(s', t) == HoldOf(s, t)
  {
  }

  lemma GoStaysInside(s: State, t: Tid, call: Action, h: Hold)
    requires Enabled(s, Go(t)) && Inside(s, t, call, h)
    requires !s.pcs[t].ReleaseShared? && !s.pcs[t].ReleaseExclusive?
    ensures Inside(Step(s, Go(t)), t, call, h)
  {
  }

  lemma {:induction false} RunStaysInside(s: State, acts: seq<Action>, t: Tid, call: Action, h: Hold)
    requires Inv(s) && Possible(s, acts) && t in s.pcs && Inside(s, t, call, h)
    requires forall a :: a in acts && a.t == t ==> a.Go?
    ensures t in Run(s, acts).pcs && Inside(Run(s, acts), t, call, h)
    decreases |acts|
  {
    if acts != [] {
      StepKeepsInv(s, acts[0]);
      StaysInside(s, acts[0], t, call, h);
      RunStaysInside(Step(s, acts[0]), acts[1..], t, call, h);
    }
  }

  /** In every run, when a call has returned, whatever the others did meanwhile: a read lock gave one more
      shared hold, a write lock left its caller alone in the lock, an unlock ended one hold of the mode it
      had, and a failed try changed nothing. */
  lemma {:induction false} CallHasItsEffect(threads: set<Tid>, before: seq<Action>, s: State, call: Action,
                                            during: seq<Action>, s': State)
    requires Leads(threads, before, s) && Enabled(s, call) && !call.Go?
    requires Possible(Step(s, call), during) && s' == Run(Step(s, call), during)
    requires forall a :: a in during && a.t == call.t ==> a.Go?
    requires call.t in s'.pcs && s'.pcs[call.t].Out?
    ensures var t := call.t;
      match call
      case RdLock(_) =>
        s'.sharedBy[t] == s.sharedBy[t] + 1 && s'.exclusiveBy == {} && s'.srw.Shared?
      case TryRdLock(_, ok) =>
        if ok then s'.sharedBy[t] == s.sharedBy[t] + 1 && s'.exclusiveBy == {} && s'.srw.Shared?
        else s'.sharedBy[t] == s.sharedBy[t] && (t in s'.exclusiveBy <==> t in s.exclusiveBy)
      case WrLock(_) =>
        s'.exclusiveBy == {t} && s'.sharedBy == multiset{} && s'.srw.Exclusive?
      case TryWrLock(_, ok) =>
        if ok then s'.exclusiveBy == {t} && s'.sharedBy == multiset{} && s'.srw.Exclusive?
        else s'.sharedBy[t] == s.sharedBy[t] && (t in s'.exclusiveBy <==> t in s.exclusiveBy)
      case Unlock(_) =>
        && t !in s'.exclusiveBy
        && s'.sharedBy[t] == if t in s.exclusiveBy then 0 else s.sharedBy[t] - 1
  {
    LeadsToInv(threads, before, s);
    StepKeepsInv(s, call);
    CallBegins(s, call);
    RunStaysInside(Step(s, call), during, call.t, call, HoldOf(s, call.t));
    RunKeepsInv(Step(s, call), during);
    HolderIsMode(s', call.t);
    HolderIsMode(s, call.t);
  }

  lemma HolderIsMode(s: State, t: Tid)
    requires Inv(s)
    ensures t in s.exclusiveBy ==> s.exclusiveBy == {t} && s.sharedBy == multiset{} && s.srw.Exclusive?
    ensures t in s.sharedBy ==> s.exclusiveBy == {} && s.srw.Shared?
  {
    if t in s.exclusiveBy {
      OnlyHolder(s, t);
    }
  }

  /** The calls of one thread in a schedule, in order. */
  function CallsOf(acts: seq<Action>, t: Tid): seq<Action> {
    if acts == [] then []
    else
      var calls, a := CallsOf(acts[..|acts| - 1], t), acts[|acts| - 1];
      if a.t == t && !a.Go? then calls + [a] else calls
  }

  /** What a thread holds after calls that all returned. */
  function HeldAfter(calls: seq<Action>): Hold {
    if calls == [] then Hold(0, false) else AfterCall(HeldAfter(calls[..|calls| - 1]), calls[|calls| - 1])
  }

  ghost predicate CallsAgree(s: State, t: Tid, calls: seq<Action>)
    requires t in s.pcs
  {
    if calls == [] then s.pcs[t].Out? && HoldOf(s, t) == Hold(0, false)
    else Inside(s, t, calls[|calls| - 1], HeldAfter(calls[..|calls| - 1]))
  }

  lemma CallsOfSnoc(done: seq<Action>, a: Action, t: Tid)
    ensures CallsOf(done + [a], t) == if a.t == t && !a.Go? then CallsOf(done, t) + [a] else CallsOf(done, t)
  {
    assert (done + [a])[..|done|] == done;
  }

  lemma NextCall(s: State, a: Action, calls: seq<Action>)
    requires Inv(s) && Enabled(s, a) && !a.Go? && CallsAgree(s, a.t, calls)
    ensures CallsAgree(Step(s, a), a.t, calls + [a])
  {
    assert (calls + [a])[..|calls|] == calls;
    CallBegins(s, a);
  }

  lemma SameCalls(s: State, a: Action, t: Tid, calls: seq<Action>)
    requires Inv(s) && Enabled(s, a) && t in s.pcs && (a.t == t ==> a.Go?) && CallsAgree(s, t, calls)
    ensures t in Step(s, a).pcs && CallsAgree(Step(s, a), t, calls)
  {
    if calls != [] {
      StaysInside(s, a, t, calls[|calls| - 1], HeldAfter(calls[..|calls| - 1]));
    } else {
      OthersKeepPlace(s, a, t);
    }
  }

  lemma StepKeepsCalls(s: State, a: Action, t: Tid, done: seq<Action>)
    requires Inv(s) && Enabled(s, a) && t in s.pcs && CallsAgree(s, t, CallsOf(done, t))
    ensures t in Step(s, a).pcs && CallsAgree(Step(s, a), t, CallsOf(done + [a], t))
  {
    CallsOfSnoc(done, a, t);
    if a.t == t && !a.Go? {
      NextCall(s, a, CallsOf(done, t));
    } else {
      SameCalls(s, a, t, CallsOf(done, t));
    }
  }

  lemma {:induction false} RunKeepsCalls(s: State, acts: seq<Action>, t: Tid, done: seq<Action>)
    requires Inv(s) && Possible(s, acts) && t in s.pcs && CallsAgree(s, t, CallsOf(done, t))
    ensures t in Run(s, acts).pcs && CallsAgree(Run(s, acts), t, CallsOf(done + acts, t))
    decreases |acts|
  {
    if acts == [] {
      assert done + acts == done;
    } else {
      StepKeepsInv(s, acts[0]);
      StepKeepsCalls(s, acts[0], t, done);
      RunKeepsCalls(Step(s, acts[0]), acts[1..], t, done + [acts[0]]);
      assert done + [acts[0]] + acts[1..] == done + acts;
    }
  }

  lemma LeadsToCalls(threads: set<Tid>, acts: seq<Action>, s: State, t: Tid)
    requires Leads(threads, acts, s) && t in threads
    ensures t in s.pcs && CallsAgree(s, t, CallsOf(acts, t))
  {
    InitInv(threads);
    RunKeepsCalls(Init(threads), acts, t, []);
    assert [] + acts == acts;
  }

  /** In every run, what a thread outside the wrapper holds is decided by its own calls alone, acquires
      minus releases of each mode. */
  lemma HoldsAreCalls(threads: set<Tid>, acts: seq<Action>, s: State, t: Tid)
    requires Leads(threads, acts, s) && t in threads
    ensures t in s.pcs
    ensures s.pcs[t].Out? ==> HoldOf(s, t) == HeldAfter(CallsOf(acts, t))
  {
    LeadsToCalls(threads, acts, s, t);
  }

  // ----- The lock it implements -----

  /** A reader/writer lock whose unlock is told its mode: only the real holds, no flag. */
  datatype Ideal = Ideal(sharedBy: multiset<Tid>, exclusiveBy: set<Tid>)

  function Abstract(s: State): Ideal {
    Ideal(s.sharedBy, s.exclusiveBy)
  }

  /** What the ideal lock does for a call of thread `t`. */
  predicate IdealStep(l: Ideal, l': Ideal, t: Tid, call: Action) {
    match call
    case RdLock(_) => l.exclusiveBy == {} && l' == l.(sharedBy := l.sharedBy + multiset{t})
    case TryRdLock(_, ok) => ok && l.exclusiveBy == {} && l' == l.(sharedBy := l.sharedBy + multiset{t})
    case WrLock(_) => l.exclusiveBy == {} && l.sharedBy == multiset{} && l' == l.(exclusiveBy := {t})
    case TryWrLock(_, ok) => ok && l.exclusiveBy == {} && l.sharedBy == multiset{} && l' == l.(exclusiveBy := {t})
    case Unlock(_) =>
      || (t in l.sharedBy && l' == l.(sharedBy := l.sharedBy - multiset{t}))
      || (t in l.exclusiveBy && l' == l.(exclusiveBy := l.exclusiveBy - {t}))
    case Go(_) => false
  }

  lemma ReleaseRefinesIdeal(s: State, t: Tid, call: Action)
    requires Inv(s) && Enabled(s, Go(t)) && Releases(s, Go(t)) && call.Unlock?
    ensures var s' := Step(s, Go(t));
      && Abstract(s') != Abstract(s) && IdealStep(Abstract(s), Abstract(s'), t, call)
      && s'.srw == if |s.sharedBy| > 1 then Shared(|s.sharedBy| - 1) else Unlocked
  {
    assert HoldAt(s, t);
    if t in s.exclusiveBy {
      OnlyHolder(s, t);
    } else {
      assert (s.sharedBy - multiset{t})[t] < s.sharedBy[t];
    }
  }

  lemma GoRefinesIdeal(s: State, t: Tid, call: Action, h: Hold)
    requires Inv(s) && Enabled(s, Go(t)) && !Releases(s, Go(t)) && Inside(s, t, call, h)
    ensures var s' := Step(s, Go(t));
      Abstract(s') == Abstract(s) || IdealStep(Abstract(s), Abstract(s'), t, call)
  {
  }

  lemma CallRefinesIdeal(s: State, call: Action)
    requires Inv(s) && Enabled(s, call) && !call.Go?
    ensures var s' := Step(s, call);
      Abstract(s') == Abstract(s) || IdealStep(Abstract(s), Abstract(s'), call.t, call)
  {
  }

  predicate Releases(s: State, a: Action) {
    a.Go? && a.t in s.pcs && (s.pcs[a.t].ReleaseShared? || s.pcs[a.t].ReleaseExclusive?)
  }

  /** The call that the thread of the last action is in, or makes by it. */
  function CurrentCall(acts: seq<Action>, a: Action): Action {
    var calls := CallsOf(acts + [a], a.t);
    if calls == [] then a else calls[|calls| - 1]
  }

  /** The flag-based wrapper refines that lock: in every run, each step of a thread leaves the real holds
      alone or is what the ideal lock does for the call that the thread is in, and each release call
      really ends one hold, leaving the native lock to the other readers or free. */
  lemma WrapperRefinesIdeal(threads: set<Tid>, acts: seq<Action>, s: State, a: Action)
    requires Leads(threads, acts, s) && Enabled(s, a)
    ensures Abstract(Step(s, a)) == Abstract(s)
         || IdealStep(Abstract(s), Abstract(Step(s, a)), a.t, CurrentCall(acts, a))
    ensures Releases(s, a) ==>
      && Abstract(Step(s, a)) != Abstract(s)
      && Step(s, a).srw == if |s.sharedBy| > 1 then Shared(|s.sharedBy| - 1) else Unlocked
  {
    LeadsToInv(threads, acts, s);
    LeadsToCalls(threads, acts, s, a.t);
    var calls := CallsOf(acts, a.t);
    assert (acts + [a])[..|acts|] == acts;
    if !a.Go? {
      CallRefinesIdeal(s, a);
    } else if Releases(s, a) {
      ReleaseRefinesIdeal(s, a.t, calls[|calls| - 1]);
    } else {
      GoRefinesIdeal(s, a.t, calls[|calls| - 1], HeldAfter(calls[..|calls| - 1]));
    }
  }
}
