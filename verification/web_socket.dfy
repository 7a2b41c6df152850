/** The receive queue of the HTML5 socket shim: each instance queues the messages that arrive and hands
    them out, one per call, into the program's memory. */
module WebSocketQueue {
  import opened Words

  type Message = seq<Byte>

  class Socket {
    var messages: seq<Message>
    // History: everything that arrived and everything that was handed out.
    var arrived: seq<Message>
    var received: seq<Message>

    constructor ()
      ensures messages == [] && arrived == [] && received == []
    {
      messages, arrived, received := [], [], [];
    }
  }

  /** What SocketRecv does besides its effect: there was nothing to take or no room for it, or the
      memory write threw, or a message was taken. */
  datatype RecvResult = Zero | RangeError | Taken

  class LibraryWebSockets {
    var webSocketInstances: seq<Socket>
    const HEAPU8: array<Byte>

    ghost predicate Valid()
      reads this, webSocketInstances
    {
      && (forall i, j :: 0 <= i < j < |webSocketInstances| ==> webSocketInstances[i] != webSocketInstances[j])
      && forall i :: 0 <= i < |webSocketInstances| ==>
           webSocketInstances[i].arrived == webSocketInstances[i].received + webSocketInstances[i].messages
    }

    constructor (heap: array<Byte>)
      ensures Valid() && webSocketInstances == [] && HEAPU8 == heap
    {
      HEAPU8 := heap;
      webSocketInstances := [];
    }

    method SocketCreate() returns (instance: nat)
      requires Valid()
      modifies this
      ensures Valid() && instance == |old(webSocketInstances)|
      ensures |webSocketInstances| == instance + 1 && webSocketInstances[..instance] == old(webSocketInstances)
      ensures var socket := webSocketInstances[instance];
        fresh(socket) && socket.messages == [] && socket.arrived == [] && socket.received == []
    {
      var socket := new Socket();
      webSocketInstances := webSocketInstances + [socket];
      instance := |webSocketInstances| - 1;
    }

    /** The handler of one socket: an ArrayBuffer, or a string as UTF-8, arrives. */
    method OnMessage(instance: nat, data: Message)
      requires Valid() && instance < |webSocketInstances|
      modifies webSocketInstances[instance]
      ensures Valid()
      ensures webSocketInstances[instance].messages == old(webSocketInstances[instance].messages) + [data]
      ensures webSocketInstances[instance].arrived == old(webSocketInstances[instance].arrived) + [data]
      ensures webSocketInstances[instance].received == old(webSocketInstances[instance].received)
    {
      var socket := webSocketInstances[instance];
      socket.messages := socket.messages + [data];
      socket.arrived := socket.arrived + [data];
    }

    method SocketRecvLength(instance: nat) returns (n: nat)
      requires instance < |webSocketInstances|
      ensures var messages := webSocketInstances[instance].messages;
        n == if messages == [] then 0 else |messages[0]|
    {
      var socket := webSocketInstances[instance];
      if |socket.messages| == 0 {
        return 0;
      }
      return |socket.messages[0]|;
    }

    /** Takes the first message if it fits the caller's buffer; an undersized buffer changes nothing,
        and neither does a write that leaves the program's memory. */
    method SocketRecv(instance: nat, ptr: nat, length: nat) returns (r: RecvResult)
      requires Valid() && instance < |webSocketInstances|
      modifies webSocketInstances[instance], HEAPU8
      ensures Valid()
      ensures var socket := webSocketInstances[instance];
        && socket.arrived == old(socket.arrived)
        && match r
           case Zero =>
             && (old(socket.messages) == [] || |old(socket.messages)[0]| > length)
             && unchanged(socket) && unchanged(HEAPU8)
           case RangeError =>
             && old(socket.messages) != [] && ptr + |old(socket.messages)[0]| > HEAPU8.Length
             && unchanged(socket) && unchanged(HEAPU8)
           case Taken =>
             var m := if old(socket.messages) == [] then [] else old(socket.messages)[0];
             && old(socket.messages) == [m] + socket.messages
             && socket.received == old(socket.received) + [m]
             && |m| <= length && ptr + |m| <= HEAPU8.Length
             && HEAPU8[..] == old(HEAPU8[..ptr]) + m + old(HEAPU8[ptr + |m|..])
    {
      var socket := webSocketInstances[instance];
      if |socket.messages| == 0 {
        return Zero;
      }
      if |socket.messages[0]| > length {
        return Zero;
      }
      var m := socket.messages[0];
      if ptr + |m| > HEAPU8.Length {
        return RangeError;
      }
      forall i | 0 <= i < |m| {
        HEAPU8[ptr + i] := m[i];
      }
      socket.messages := socket.messages[1..];
      socket.received := socket.received + [m];
      return Taken;
    }

    /** A caller's receive loop: ask for the length, take the message, until the length is 0. It hands
        out the queue in order up to its first empty message. */
    method Drain(instance: nat, ptr: nat) returns (taken: seq<Message>)
      requires Valid() && instance < |webSocketInstances|
      requires forall m :: m in webSocketInstances[instance].messages ==> ptr + |m| <= HEAPU8.Length
      modifies webSocketInstances[instance], HEAPU8
      ensures Valid()
      ensures taken == BeforeEmpty(old(webSocketInstances[instance].messages))
      ensures old(webSocketInstances[instance].messages) == taken + webSocketInstances[instance].messages
      ensures webSocketInstances[instance].messages == []
         <==> forall m :: m in old(webSocketInstances[instance].messages) ==> m != []
    {
      ghost var all := webSocketInstances[instance].messages;
      var socket := webSocketInstances[instance];
      taken := [];
      var n := SocketRecvLength(instance);
      while n != 0
        invariant Valid() && all == taken + socket.messages
        invariant n == if socket.messages == [] then 0 else |socket.messages[0]|
        invariant forall m :: m in taken ==> m != []
        decreases |socket.messages|
      {
        var m := socket.messages[0];
        assert m in all;
        var r := SocketRecv(instance, ptr, n);
        assert r.Taken?;
        taken := taken + [m];
        n := SocketRecvLength(instance);
      }
      assert socket.messages != [] ==> socket.messages[0] in all;
      BeforeEmptyIs(taken, socket.messages);
    }
  }

  /** The messages in front of the first empty one. */
  ghost function BeforeEmpty(messages: seq<Message>): seq<Message> {
    if messages == [] || messages[0] == [] then [] else [messages[0]] + BeforeEmpty(messages[1..])
  }

  lemma {:induction false} BeforeEmptyIs(front: seq<Message>, rest: seq<Message>)
    requires forall m :: m in front ==> m != []
    requires rest == [] || rest[0] == []
    ensures BeforeEmpty(front + rest) == front
  {
    if front == [] {
      assert front + rest == rest;
    } else {
      assert front[0] in front && forall m :: m in front[1..] ==> m in front;
      BeforeEmptyIs(front[1..], rest);
      assert (front + rest)[1..] == front[1..] + rest;
    }
  }

  // ----- Runs -----

  datatype Op =
    | Create
    | Arrive(instance: nat, data: Message)
    | RecvLength(instance: nat)
    | Recv(instance: nat, ptr: nat, length: nat)

  function Created(ops: seq<Op>): nat {
    if ops == [] then 0 else Created(ops[..|ops| - 1]) + (if ops[|ops| - 1].Create? then 1 else 0)
  }

  /** The messages that arrived for one instance since it was created. */
  function ArrivedFor(ops: seq<Op>, instance: nat): seq<Message> {
    if ops == [] then []
    else
      var before, op := ops[..|ops| - 1], ops[|ops| - 1];
      if op.Arrive? && op.instance == instance < Created(before) then ArrivedFor(before, instance) + [op.data]
      else ArrivedFor(before, instance)
  }

  /** How many messages one instance handed out: one for each receive whose length and memory had room for
      the first message that still waited. */
  function HandedOut(ops: seq<Op>, heapSize: nat, instance: nat): (n: nat)
    ensures n <= |ArrivedFor(ops, instance)|
  {
    if ops == [] then 0
    else
      var before, op := ops[..|ops| - 1], ops[|ops| - 1];
      var n, arrived := HandedOut(before, heapSize, instance), ArrivedFor(before, instance);
      if op.Recv? && op.instance == instance && n < |arrived|
         && |arrived[n]| <= op.length && op.ptr + |arrived[n]| <= heapSize
      then n + 1 else n
  }

  /** Any calls and arrivals on any instances: each instance handed out the messages that arrived for it,
      in order, one for each receive that had room, and what it still holds is the rest. Operations on
      instances not yet created are skipped. */
  method Exchange(ops: seq<Op>, heapSize: nat) returns (received: seq<seq<Message>>, pending: seq<seq<Message>>)
    ensures |received| == |pending| == Created(ops)
    ensures forall i :: 0 <= i < |received| ==> received[i] + pending[i] == ArrivedFor(ops, i)
    ensures forall i :: 0 <= i < |received| ==> |received[i]| == HandedOut(ops, heapSize, i)
  {
    var heap := new Byte[heapSize](_ => 0);
    var lib := new LibraryWebSockets(heap);
    for n := 0 to |ops|
      invariant lib.Valid() && fresh(lib) && fresh(lib.HEAPU8) && fresh(set x | x in lib.webSocketInstances)
      invariant lib.HEAPU8.Length == heapSize && Tracks(Histories(lib), ops[..n], heapSize)
    {
      OneMoreOp(Histories(lib), ops[..n], ops[n], heapSize);
      Advance(lib, ops[n]);
      assert ops[..n + 1] == ops[..n] + [ops[n]];
    }
    assert ops[..|ops|] == ops;
    received, pending := Collect(lib);
  }

  method Collect(lib: LibraryWebSockets) returns (received: seq<seq<Message>>, pending: seq<seq<Message>>)
    requires lib.Valid()
    ensures |received| == |pending| == |Histories(lib)|
    ensures forall i :: 0 <= i < |received| ==>
      received[i] + pending[i] == Histories(lib)[i].arrived && |received[i]| == Histories(lib)[i].taken
  {
    received, pending := [], [];
    for i := 0 to |lib.webSocketInstances|
      invariant |received| == |pending| == i
      invariant forall j :: 0 <= j < i ==>
        received[j] + pending[j] == Histories(lib)[j].arrived && |received[j]| == Histories(lib)[j].taken
    {
      received := received + [lib.webSocketInstances[i].received];
      pending := pending + [lib.webSocketInstances[i].messages];
    }
  }

  /** What arrived so far for an instance, and how many messages of it were taken. */
  datatype History = History(arrived: seq<Message>, taken: nat)

  ghost function HistoryOf(socket: Socket): History
    reads socket
  {
    History(socket.arrived, |socket.received|)
  }

  ghost function Histories(lib: LibraryWebSockets): (h: seq<History>)
    reads lib, lib.webSocketInstances
    ensures |h| == |lib.webSocketInstances|
    ensures forall i :: 0 <= i < |h| ==> h[i] == HistoryOf(lib.webSocketInstances[i])
  {
    seq(|lib.webSocketInstances|, i requires 0 <= i < |lib.webSocketInstances|
        reads lib, lib.webSocketInstances => HistoryOf(lib.webSocketInstances[i]))
  }

  function HistoryIn(ops: seq<Op>, heapSize: nat, instance: nat): History {
    History(ArrivedFor(ops, instance), HandedOut(ops, heapSize, instance))
  }

  ghost predicate Tracks(h: seq<History>, ops: seq<Op>, heapSize: nat) {
    && |h| == Created(ops)
    && (forall i: nat :: HistoryIn(ops, heapSize, i) == if i < |h| then h[i] else History([], 0))
  }

  /** The history of the instance of an operation after it. */
  function AfterOne(h: History, op: Op, heapSize: nat): History {
    match op
    case Arrive(_, data) => h.(arrived := h.arrived + [data])
    case Recv(_, ptr, length) =>
      if h.taken < |h.arrived| && |h.arrived[h.taken]| <= length && ptr + |h.arrived[h.taken]| <= heapSize
      then h.(taken := h.taken + 1) else h
    case _ => h
  }

  function AfterOp(h: seq<History>, op: Op, heapSize: nat): seq<History> {
    if op.Create? then h + [History([], 0)]
    else if op.instance < |h| then h[op.instance := AfterOne(h[op.instance], op, heapSize)]
    else h
  }

  lemma OneMoreOp(h: seq<History>, before: seq<Op>, op: Op, heapSize: nat)
    requires Tracks(h, before, heapSize)
    ensures Tracks(AfterOp(h, op, heapSize), before + [op], heapSize)
  {
    var ops, h' := before + [op], AfterOp(h, op, heapSize);
    assert ops[..|ops| - 1] == before;
    forall i: nat ensures HistoryIn(ops, heapSize, i) == if i < |h'| then h'[i] else History([], 0) {
      assert HistoryIn(before, heapSize, i) == if i < |h| then h[i] else History([], 0);
    }
  }

  method Advance(lib: LibraryWebSockets, op: Op)
    requires lib.Valid()
    modifies lib, lib.webSocketInstances, lib.HEAPU8
    ensures lib.Valid() && Histories(lib) == AfterOp(old(Histories(lib)), op, lib.HEAPU8.Length)
    ensures forall x :: x in lib.webSocketInstances ==> x in old(lib.webSocketInstances) || fresh(x)
  {
    if op.Create? {
      var instance := lib.SocketCreate();
      assert forall i :: 0 <= i < instance ==> lib.webSocketInstances[i] == old(lib.webSocketInstances)[i];
    } else if op.instance < |lib.webSocketInstances| {
      Perform(lib, op);
    }
  }

  method Perform(lib: LibraryWebSockets, op: Op)
    requires lib.Valid() && !op.Create? && op.instance < |lib.webSocketInstances|
    modifies lib.webSocketInstances[op.instance], lib.HEAPU8
    ensures lib.Valid()
    ensures HistoryOf(lib.webSocketInstances[op.instance])
         == AfterOne(old(HistoryOf(lib.webSocketInstances[op.instance])), op, lib.HEAPU8.Length)
  {
    match op {
      case Arrive(i, data) => lib.OnMessage(i, data);
      case RecvLength(i) => var length := lib.SocketRecvLength(i);
      case Recv(i, ptr, length) =>
        ghost var socket := lib.webSocketInstances[i];
        assert socket.messages != [] ==> socket.arrived[|socket.received|] == socket.messages[0];
        var r := lib.SocketRecv(i, ptr, length);
    }
  }
}
