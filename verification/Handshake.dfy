/** The connect/order/start handshake of lua/Tree.lua (lines 29-148) as a network.

    Node 0 is the node that owns the first server.  A connection to a server is a `Hello` on
    the link to it, closing a client is the length marker LEN_INVALID that src/cliser.c:131-136
    sends, here `Closed`.  The order in which a server happens to meet clients whose ids are
    all still 0 is arbitrary: it is part of the setup, and nothing is assumed about it.
 */
module Handshake {
  import opened Wrappers
  import opened Network
  import opened Topology

  /** One node's line of the broadcast table: the node to connect to and how many will connect. */
  datatype Row = Row(connect: Option<nat>, listen: nat)

  datatype Msg = Hello | AskAddress | Address(index: nat) | ClientIndex(index: nat) | Table(rows: seq<Row>)
               | AskOrder | Order(id: nat) | Closed | AskStart | Start

  /** The orders in which servers deal with clients, each independent of the others.
      `accept[p]`: in which server p accepts them; `first` and `cast`: in which node 0 asks them
      for addresses and broadcasts to them; `serve[p]`: in which server p asks for ids. */
  datatype Setup = Setup(
    n: nat, edges: seq<Edge>, accept: seq<seq<nat>>, first: seq<nat>, cast: seq<nat>, serve: seq<seq<nat>>)

  /** A connection a server holds, and the id it has given it. */
  datatype Kid = Kid(conn: nat, id: nat)

  datatype Phase =
    | Connecting | AwaitAsk | Replying | AwaitIndex | AwaitTable
    | Accepting(k: nat) | Querying(k: nat) | Learning(k: nat) | Naming(k: nat, index: nat) | Casting(k: nat)
    | Asking(k: nat) | Hearing(k: nat)
    | Leaving | Rejoining | AwaitOrder | GivingOrder
    | AwaitStart | Starting(k: nat) | Confirming(k: nat) | Reporting | Started | Failed

  /** `peer`: whom this node's client is connected to. */
  datatype Local = Local(phase: Phase, index: nat, row: Row, kids: seq<Kid>, peer: Option<nat>)

  // ----- the table -----

  /** lua/Tree.lua:54-59: the callback that collects the links. */
  function AddEdge(rows: seq<Row>, e: Edge): (r: seq<Row>)
    ensures |r| == |rows|
  {
    if 1 <= e.from <= |rows| && 1 <= e.to <= |rows| then
      var r := rows[e.from - 1 := rows[e.from - 1].(connect := Some(e.to))];
      r[e.to - 1 := r[e.to - 1].(listen := r[e.to - 1].listen + 1)]
    else rows
  }

  function Rows(n: nat, edges: seq<Edge>): (r: seq<Row>)
    ensures |r| == n
  {
    if |edges| == 0 then seq(n, _ => Row(None, 0))
    else AddEdge(Rows(n, edges[..|edges| - 1]), edges[|edges| - 1])
  }

  // ----- the clients of a server -----

  function SetId(kids: seq<Kid>, conn: nat, id: nat): seq<Kid> {
    if |kids| == 0 then []
    else [if kids[0].conn == conn then Kid(conn, id) else kids[0]] + SetId(kids[1..], conn, id)
  }

  function Drop(kids: seq<Kid>, conn: nat): seq<Kid> {
    if |kids| == 0 then []
    else (if kids[0].conn == conn then [] else [kids[0]]) + Drop(kids[1..], conn)
  }

  /** src/cliser.c:387-393 and 449-463: clients are visited in ascending order of id. */
  function Insert(k: Kid, kids: seq<Kid>): (r: seq<Kid>)
    ensures |r| == |kids| + 1
  {
    if |kids| == 0 || k.id <= kids[0].id then [k] + kids else [kids[0]] + Insert(k, kids[1..])
  }

  function ById(kids: seq<Kid>): (r: seq<Kid>)
    ensures |r| == |kids|
  {
    if |kids| == 0 then [] else Insert(kids[0], ById(kids[1..]))
  }

  // ----- the processes -----

  function AcceptOrder(s: Setup, p: nat): seq<nat> {
    if p < |s.accept| then s.accept[p] else []
  }

  function ServeOrder(s: Setup, p: nat): seq<nat> {
    if p < |s.serve| then s.serve[p] else []
  }

  function SendIn(to: seq<nat>, k: nat, m: Msg): Action<Msg> {
    if k < |to| then Send(to[k], m) else Halt
  }

  function RecvIn(from: seq<nat>, k: nat): Action<Msg> {
    if k < |from| then Recv(from[k]) else Halt
  }

  function ToPeer(l: Local, m: Msg): Action<Msg> {
    if l.peer.Some? then Send(l.peer.value, m) else Halt
  }

  function FromPeer(l: Local): Action<Msg> {
    if l.peer.Some? then Recv(l.peer.value) else Halt
  }

  function Conns(kids: seq<Kid>): seq<nat> {
    seq(|kids|, i requires 0 <= i < |kids| => kids[i].conn)
  }

  function Act(s: Setup, p: nat, l: Local): Action<Msg> {
    match l.phase
    case Connecting => Send(0, Hello)
    case AwaitAsk => Recv(0)
    case Replying => Send(0, Address(l.index))
    case AwaitIndex => Recv(0)
    case AwaitTable => Recv(0)
    case Accepting(k) => RecvIn(AcceptOrder(s, p), k)
    case Querying(k) => SendIn(s.first, k, AskAddress)
    case Learning(k) => RecvIn(s.first, k)
    case Naming(k, i) => SendIn(s.first, k, ClientIndex(i))
    case Casting(k) => SendIn(s.cast, k, Table(Rows(s.n, s.edges)))
    case Asking(k) => SendIn(ServeOrder(s, p), k, AskOrder)
    case Hearing(k) => RecvIn(ServeOrder(s, p), k)
    case Leaving => Send(0, Closed)
    case Rejoining => if l.row.connect.Some? && l.row.connect.value > 0 then Send(l.row.connect.value - 1, Hello)
      else Halt
    case AwaitOrder => FromPeer(l)
    case GivingOrder => ToPeer(l, Order(l.index))
    case AwaitStart => FromPeer(l)
    case Starting(k) => SendIn(Conns(ById(l.kids)), k, AskStart)
    case Confirming(k) => RecvIn(Conns(ById(l.kids)), k)
    case Reporting => ToPeer(l, Start)
    case Started => Halt
    case Failed => Halt
  }

  function Fail(l: Local): Local {
    l.(phase := Failed)
  }

  function Next(s: Setup, p: nat, l: Local, m: Option<Msg>): Local {
    match l.phase
    case Connecting => l.(phase := AwaitAsk, peer := Some(0))
    case AwaitAsk => if m == Some(AskAddress) then l.(phase := Replying) else Fail(l)
    case Replying => l.(phase := AwaitIndex)
    case AwaitIndex =>
      if m.Some? && m.value.ClientIndex? then l.(phase := AwaitTable, index := m.value.index) else Fail(l)
    case AwaitTable =>
      if m.Some? && m.value.Table? && 1 <= l.index <= |m.value.rows| then
        AfterTable(l.(row := m.value.rows[l.index - 1]))
      else Fail(l)
    case Accepting(k) =>
      if m == Some(Hello) && k < |AcceptOrder(s, p)| then
        AfterAccept(s, p, l.(kids := l.kids + [Kid(AcceptOrder(s, p)[k], 0)]), k)
      else Fail(l)
    case Querying(k) => l.(phase := Learning(k))
    case Learning(k) => if m.Some? && m.value.Address? then l.(phase := Naming(k, m.value.index)) else Fail(l)
    case Naming(k, _) => l.(phase := if k + 1 < |s.first| then Querying(k + 1) else Casting(0))
    case Casting(k) => l.(phase := if k + 1 < |s.cast| then Casting(k + 1) else Asking(0))
    case Asking(k) => l.(phase := Hearing(k))
    case Hearing(k) =>
      if k >= |ServeOrder(s, p)| then Fail(l)
      else if m.Some? && m.value.Order? then
        AfterHearing(s, p, l.(kids := SetId(l.kids, ServeOrder(s, p)[k], m.value.id)), k)
      else if m == Some(Closed) && p == 0 then AfterHearing(s, p, l.(kids := Drop(l.kids, ServeOrder(s, p)[k])), k)
      else Fail(l)
    case Leaving => l.(phase := Rejoining, peer := None)
    case Rejoining =>
      l.(phase := AwaitOrder,
         peer := if l.row.connect.Some? && l.row.connect.value > 0 then Some(l.row.connect.value - 1) else None)
    case AwaitOrder => if m == Some(AskOrder) then l.(phase := GivingOrder) else Fail(l)
    case GivingOrder => l.(phase := AwaitStart)
    case AwaitStart => if m == Some(AskStart) then BeginStart(p, l) else Fail(l)
    case Starting(k) => l.(phase := Confirming(k))
    case Confirming(k) =>
      if m != Some(Start) then Fail(l)
      else if k + 1 < |l.kids| then l.(phase := Starting(k + 1))
      else EndStart(p, l)
    case Reporting => l.(phase := Started)
    case Started => l
    case Failed => l
  }

  function AfterTable(l: Local): Local {
    if l.row.listen > 0 then l.(phase := Accepting(0)) else AfterOrders(l)
  }

  /** `server:clients(wait, ...)` goes on when `wait` clients have connected. */
  function AfterAccept(s: Setup, p: nat, l: Local, k: nat): Local {
    if k + 1 < (if p == 0 then s.n - 1 else l.row.listen) then l.(phase := Accepting(k + 1))
    else l.(phase := if p == 0 then Querying(0) else Asking(0))
  }

  function AfterHearing(s: Setup, p: nat, l: Local, k: nat): Local {
    if k + 1 < |ServeOrder(s, p)| then l.(phase := Asking(k + 1))
    else if p == 0 then BeginStart(p, l)
    else AfterOrders(l)
  }

  /** lua/Tree.lua:113-129: stay with node 1 if it is the parent, otherwise move. */
  function AfterOrders(l: Local): Local {
    match l.row.connect
    case Some(to) => l.(phase := if to == 1 then AwaitOrder else Leaving)
    case None => l.(phase := AwaitStart)
  }

  function BeginStart(p: nat, l: Local): Local {
    if |l.kids| > 0 then l.(phase := Starting(0)) else EndStart(p, l)
  }

  function EndStart(p: nat, l: Local): Local {
    l.(phase := if p == 0 then Started else Reporting)
  }

  function Processes(s: Setup): System<Local, Msg> {
    System((p: nat, l: Local) => Act(s, p, l), (p: nat, l: Local, m: Option<Msg>) => Next(s, p, l, m))
  }

  function Fresh(p: nat): Local {
    Local(if p == 0 then Accepting(0) else Connecting, p + 1, Row(None, 0), [], None)
  }

  function Initial(s: Setup): Config<Local, Msg> {
    Config(seq(s.n, (p: nat) => Fresh(p)), map[])
  }
}
