/** Relay sessions: which socket speaks for a node, and who is told that it joined or left. */
module Relay {
  import opened Prelude

  type Socket = nat
  type NodeId = string

  /** A broadcast and the sockets it went to. */
  datatype Event = Joined(node: NodeId, to: set<Socket>) | Left(node: NodeId, to: set<Socket>)

  datatype Sessions = Sessions(peers: map<NodeId, Socket>, sockets: map<Socket, NodeId>, log: seq<Event>)

  /** Everyone registered, except the excluded node. */
  function Audience(peers: map<NodeId, Socket>, exclude: Option<NodeId>): set<Socket> {
    set n | n in peers && Some(n) != exclude :: peers[n]
  }

  // ---- the handlers as functions of the maps ----

  function Close(s: Sessions, ws: Socket): Sessions {
    if ws !in s.sockets then s
    else
      var n, t := s.sockets[ws], s.(sockets := s.sockets - {ws});
      if n !in s.peers || s.peers[n] != ws then t
      else
        var peers := s.peers - {n};
        t.(peers := peers, log := s.log + [Left(n, Audience(peers, None))])
  }

  predicate Replaces(s: Sessions, ws: Socket, n: NodeId) {
    n in s.peers && s.peers[n] != ws
  }

  predicate Refreshes(s: Sessions, ws: Socket, n: NodeId) {
    n in s.peers && s.peers[n] == ws
  }

  /** `inside`: the replaced socket's close handler runs before register goes on. */
  function Register(s: Sessions, ws: Socket, n: NodeId, inside: bool): Sessions {
    if n == "" then s
    else
      var stored := s.(peers := s.peers[n := ws], sockets := s.sockets[ws := n]);
      var t := if Replaces(s, ws, n) && inside then Close(stored, s.peers[n]) else stored;
      if Refreshes(s, ws, n) then t else t.(log := t.log + [Joined(n, Audience(t.peers, Some(n)))])
  }

  datatype Delivery = To(socket: Socket) | PeerNotFound

  function Forward(s: Sessions, target: NodeId): Delivery {
    if target in s.peers then To(s.peers[target]) else PeerNotFound
  }

  // ---- the handlers as the server runs them ----

  class Server {
    var peers: map<NodeId, Socket>
    var sockets: map<Socket, NodeId>
    var log: seq<Event>

    ghost function Maps(): Sessions
      reads this
    {
      Sessions(peers, sockets, log)
    }

    constructor ()
      ensures Maps() == Sessions(map[], map[], [])
    {
      peers, sockets, log := map[], map[], [];
    }

    method HandleClose(ws: Socket)
      modifies this
      ensures Maps() == Close(old(Maps()), ws)
    {
      if ws !in sockets {
        return;
      }
      var node := sockets[ws];
      sockets := sockets - {ws};
      if node !in peers || peers[node] != ws {
        return;
      }
      peers := peers - {node};
      log := log + [Left(node, Audience(peers, None))];
    }

    method HandleRegister(ws: Socket, node: NodeId, inside: bool)
      modifies this
      ensures Maps() == Register(old(Maps()), ws, node, inside)
    {
      if node == "" {
        return;
      }
      var existing := if node in peers then Some(peers[node]) else None;
      peers := peers[node := ws];
      sockets := sockets[ws := node];
      if existing.Some? && existing.value != ws && inside {
        HandleClose(existing.value);
      }
      if existing != Some(ws) {
        log := log + [Joined(node, Audience(peers, Some(node)))];
      }
    }

    method ForwardToTarget(target: NodeId) returns (d: Delivery)
      ensures d == Forward(Maps(), target)
    {
      if target in peers {
        d := To(peers[target]);
      } else {
        d := PeerNotFound;
      }
    }
  }

  // ---- runs ----

  /** The maps together with the sockets that exist and whose close handler has not run. */
  datatype World = World(sessions: Sessions, open: set<Socket>, used: set<Socket>)

  datatype Op = Connect(ws: Socket) | DoRegister(ws: Socket, node: NodeId, inside: bool) | DoClose(ws: Socket)

  const START := World(Sessions(map[], map[], []), {}, {})

  /** A new socket is new, and only open sockets speak or close. */
  predicate Enabled(w: World, op: Op) {
    match op
    case Connect(ws) => ws !in w.used
    case DoRegister(ws, _, _) => ws in w.open
    case DoClose(ws) => ws in w.open
  }

  function Apply(s: Sessions, op: Op): Sessions {
    match op
    case Connect(_) => s
    case DoRegister(ws, node, inside) => Register(s, ws, node, inside)
    case DoClose(ws) => Close(s, ws)
  }

  function Step(w: World, op: Op): World {
    match op
    case Connect(ws) => w.(open := w.open + {ws}, used := w.used + {ws})
    case DoRegister(ws, node, inside) =>
      w.(sessions := Apply(w.sessions, op),
         open := if inside && node != "" && Replaces(w.sessions, ws, node) then w.open - {w.sessions.peers[node]} else w.open)
    case DoClose(ws) => w.(sessions := Apply(w.sessions, op), open := w.open - {ws})
  }

  function Run(ops: seq<Op>): World {
    if ops == [] then START else Step(Run(ops[..|ops| - 1]), ops[|ops| - 1])
  }

  predicate Possible(ops: seq<Op>) {
    ops == [] || (Possible(ops[..|ops| - 1]) && Enabled(Run(ops[..|ops| - 1]), ops[|ops| - 1]))
  }

  /** Whether the last event about a node was a join. */
  function Present(log: seq<Event>, n: NodeId): bool {
    if log == [] then false
    else
      var e := log[|log| - 1];
      if e.node == n then e.Joined? else Present(log[..|log| - 1], n)
  }

  /** Every departure follows an arrival that no other departure came after. */
  ghost predicate LogOk(log: seq<Event>) {
    forall i :: 0 <= i < |log| && log[i].Left? ==> Present(log[..i], log[i].node)
  }

  /** The log says exactly who is registered. */
  ghost predicate Announced(s: Sessions) {
    LogOk(s.log) && (forall n :: Present(s.log, n) <==> n in s.peers)
  }

  lemma {:induction false} LogAppend(log: seq<Event>, e: Event, n: NodeId)
    ensures Present(log + [e], n) <==> if e.node == n then e.Joined? else Present(log, n)
  {
    assert (log + [e])[..|log|] == log;
  }

  lemma {:induction false} LogOkAppend(log: seq<Event>, e: Event)
    requires LogOk(log) && (e.Left? ==> Present(log, e.node))
    ensures LogOk(log + [e])
  {
    var t := log + [e];
    forall i | 0 <= i < |t| && t[i].Left? ensures Present(t[..i], t[i].node) {
      assert t[..i] == log[..i];
      assert i == |log| ==> log[..i] == log;
    }
  }

  /** A socket speaks for the id it registered last, if it still holds it. */
  predicate SpeaksFor(s: Sessions, ws: Socket, n: NodeId) {
    n in s.peers && s.peers[n] == ws && ws in s.sockets && s.sockets[ws] == n
  }

  /** Closing removes exactly the id the socket speaks for, never a successor's, and announces exactly that. */
  lemma {:induction false} CloseKeeps(s: Sessions, ws: Socket)
    requires Announced(s)
    ensures Announced(Close(s, ws)) && Close(s, ws).sockets == s.sockets - {ws}
    ensures forall n :: n in Close(s, ws).peers <==> n in s.peers && !SpeaksFor(s, ws, n)
    ensures forall n :: n in Close(s, ws).peers ==> Close(s, ws).peers[n] == s.peers[n]
  {
    if ws in s.sockets {
      var n := s.sockets[ws];
      if n in s.peers && s.peers[n] == ws {
        var e := Left(n, Audience(s.peers - {n}, None));
        LogOkAppend(s.log, e);
        forall m ensures Present(s.log + [e], m) <==> m in s.peers && m != n {
          LogAppend(s.log, e, m);
        }
      }
    } else {
      assert s.sockets - {ws} == s.sockets;
    }
  }

  // ---- who is told ----

  /** The sockets reached are exactly those listed for some id. */
  ghost predicate ToldAll(to: set<Socket>, peers: map<NodeId, Socket>) {
    forall ws :: ws in to <==> exists m :: m in peers && peers[m] == ws
  }

  /** The sockets reached are exactly those listed for some other id. */
  ghost predicate ToldOthers(to: set<Socket>, peers: map<NodeId, Socket>, n: NodeId) {
    forall ws :: ws in to <==> exists m :: m in peers && m != n && peers[m] == ws
  }

  /** One more event: the departure of n, to every socket still listed. */
  ghost predicate Departed(log: seq<Event>, t: seq<Event>, peers: map<NodeId, Socket>, n: NodeId) {
    |t| == |log| + 1 && t[..|log|] == log && t[|log|].Left? && t[|log|].node == n && ToldAll(t[|log|].to, peers)
  }

  /** One more event: the arrival of n, to every socket listed for another id. */
  ghost predicate Arrived(log: seq<Event>, t: seq<Event>, peers: map<NodeId, Socket>, n: NodeId) {
    |t| == |log| + 1 && t[..|log|] == log && t[|log|].Joined? && t[|log|].node == n && ToldOthers(t[|log|].to, peers, n)
  }

  lemma {:induction false} AudienceIs(peers: map<NodeId, Socket>, n: NodeId)
    ensures ToldAll(Audience(peers, None), peers) && ToldOthers(Audience(peers, Some(n)), peers, n)
  {}

  /** A close says nothing unless the socket speaks for an id, and then tells every socket still listed that this id left. */
  lemma {:induction false} CloseTells(s: Sessions, ws: Socket)
    ensures var t := Close(s, ws);
      && (forall n :: SpeaksFor(s, ws, n) ==> Departed(s.log, t.log, t.peers, n))
      && ((forall n :: !SpeaksFor(s, ws, n)) ==> t.log == s.log)
  {
    hide Audience, ToldAll;
    var t := Close(s, ws);
    forall n | SpeaksFor(s, ws, n) ensures Departed(s.log, t.log, t.peers, n) {
      AudienceIs(t.peers, n);
    }
    assert ws in s.sockets ==> (t.log != s.log ==> SpeaksFor(s, ws, s.sockets[ws]));
  }

  /** The replaced socket, closed inside the register, speaks for another id. */
  ghost predicate TakesAlong(s: Sessions, ws: Socket, n: NodeId, inside: bool, m: NodeId) {
    inside && m != n && n in s.peers && s.peers[n] != ws && SpeaksFor(s, s.peers[n], m)
  }

  /**
   A register of the same socket again says nothing. Any other tells every socket listed for another id that this one
   joined, and before that, if the replaced socket is closed inside and speaks for another id, that that one left.
   */
  lemma {:induction false} RegisterTells(s: Sessions, ws: Socket, n: NodeId, inside: bool)
    requires n != ""
    ensures var t := Register(s, ws, n, inside);
      if n in s.peers && s.peers[n] == ws then t.log == s.log
      else
        && t.log != [] && Arrived(t.log[..|t.log| - 1], t.log, t.peers, n)
        && ((forall m :: !TakesAlong(s, ws, n, inside, m)) ==> t.log[..|t.log| - 1] == s.log)
        && (forall m :: TakesAlong(s, ws, n, inside, m) ==> Departed(s.log, t.log[..|t.log| - 1], t.peers, m))
  {
    hide Audience, ToldAll, ToldOthers, Close;
    var t, stored := Register(s, ws, n, inside), Stored(s, ws, n);
    AudienceIs(t.peers, n);
    if inside && Replaces(s, ws, n) {
      var gone := s.peers[n];
      CloseTells(stored, gone);
      var closed := Close(stored, gone);
      assert t.log == closed.log + [Joined(n, Audience(t.peers, Some(n)))] && t.peers == closed.peers;
      assert t.log[..|closed.log|] == closed.log;
      forall m ensures SpeaksFor(stored, gone, m) <==> TakesAlong(s, ws, n, inside, m) {}
      if m :| TakesAlong(s, ws, n, inside, m) {
        assert Departed(s.log, closed.log, t.peers, m);
      }
    }
  }

  function Stored(s: Sessions, ws: Socket, n: NodeId): Sessions {
    s.(peers := s.peers[n := ws], sockets := s.sockets[ws := n])
  }

  /** A join makes a node present, whether or not it was. */
  lemma {:induction false} JoinAnnounces(s: Sessions, e: Event)
    requires LogOk(s.log) && (forall m :: m != e.node ==> (Present(s.log, m) <==> m in s.peers)) && e.Joined? && e.node in s.peers
    ensures Announced(s.(log := s.log + [e]))
  {
    LogOkAppend(s.log, e);
    forall m ensures Present(s.log + [e], m) <==> m in s.peers {
      LogAppend(s.log, e, m);
    }
  }

  /** Registering lists the socket, and an inside close takes away only what the replaced socket speaks for besides. */
  lemma {:induction false} RegisterKeeps(s: Sessions, ws: Socket, n: NodeId, inside: bool)
    requires Announced(s) && n != ""
    ensures var t, closes := Register(s, ws, n, inside), inside && Replaces(s, ws, n);
      && Announced(t) && n in t.peers && t.peers[n] == ws
      && t.sockets == (if closes then s.sockets[ws := n] - {s.peers[n]} else s.sockets[ws := n])
      && (forall m :: m != n ==> (m in t.peers <==> m in s.peers && !(closes && SpeaksFor(s, s.peers[n], m))))
      && (forall m :: m != n && m in t.peers ==> t.peers[m] == s.peers[m])
  {
    hide LogOk;
    var stored := Stored(s, ws, n);
    if !Replaces(s, ws, n) {
      var e := Joined(n, Audience(stored.peers, Some(n)));
      JoinAnnounces(stored, e);
    } else {
      assert Announced(stored);
      CloseKeeps(stored, s.peers[n]);
      var t := if inside then Close(stored, s.peers[n]) else stored;
      JoinAnnounces(t, Joined(n, Audience(t.peers, Some(n))));
    }
  }

  /** In every run the announcements tell exactly who is registered, and every departure follows an arrival. */
  lemma {:induction false} RunKeeps(ops: seq<Op>)
    ensures Announced(Run(ops).sessions)
  {
    if ops != [] {
      var init, op := ops[..|ops| - 1], ops[|ops| - 1];
      RunKeeps(init);
      match op
      case Connect(ws) =>
      case DoClose(ws) => CloseKeeps(Run(init).sessions, ws);
      case DoRegister(ws, node, inside) => if node != "" { RegisterKeeps(Run(init).sessions, ws, node, inside); }
    }
  }

  /** The socket of the latest register for a node. */
  function LatestRegister(ops: seq<Op>, n: NodeId): Option<Socket> {
    if ops == [] then None
    else
      var op := ops[|ops| - 1];
      if op.DoRegister? && op.node == n then Some(op.ws) else LatestRegister(ops[..|ops| - 1], n)
  }

  /** The id a socket registered last. */
  function LastId(ops: seq<Op>, ws: Socket): Option<NodeId> {
    if ops == [] then None
    else
      var op := ops[|ops| - 1];
      if op.DoRegister? && op.ws == ws && op.node != "" then Some(op.node) else LastId(ops[..|ops| - 1], ws)
  }

  /** The sockets table holds the open sockets that registered, each with its last id. */
  ghost predicate SocketsOk(ops: seq<Op>) {
    var w := Run(ops);
    && w.open <= w.used
    && (forall ws :: LastId(ops, ws).Some? ==> ws in w.used)
    && (forall ws :: ws in w.sessions.sockets <==> ws in w.open && LastId(ops, ws).Some?)
    && (forall ws :: ws in w.sessions.sockets ==> LastId(ops, ws) == Some(w.sessions.sockets[ws]))
  }

  /** The latest register for a node stands until its socket closes with that id as its last. */
  predicate Stands(ops: seq<Op>, n: NodeId, ws: Socket) {
    LatestRegister(ops, n) == Some(ws) && (ws in Run(ops).open || LastId(ops, ws) != Some(n))
  }

  ghost predicate PeerOk(ops: seq<Op>, n: NodeId) {
    var peers := Run(ops).sessions.peers;
    && (LatestRegister(ops, n).Some? ==> LatestRegister(ops, n).value in Run(ops).used)
    && (n in peers <==> n != "" && LatestRegister(ops, n).Some? && Stands(ops, n, LatestRegister(ops, n).value))
    && (n in peers ==> Some(peers[n]) == LatestRegister(ops, n))
  }

  lemma {:induction false} RunSockets(ops: seq<Op>)
    requires Possible(ops)
    ensures SocketsOk(ops)
  {
    hide LogOk, Present, Audience;
    if ops != [] {
      var init, op := ops[..|ops| - 1], ops[|ops| - 1];
      RunSockets(init);
      RunKeeps(init);
      if op.DoRegister? && op.node != "" {
        RegisterKeeps(Run(init).sessions, op.ws, op.node, op.inside);
      } else if op.DoClose? {
        CloseKeeps(Run(init).sessions, op.ws);
      }
    }
  }

  lemma {:induction false} RunPeers(ops: seq<Op>, n: NodeId)
    requires Possible(ops)
    ensures PeerOk(ops, n)
  {
    hide LogOk, Present, Audience;
    if ops != [] {
      var init, op := ops[..|ops| - 1], ops[|ops| - 1];
      RunPeers(init, n);
      RunSockets(init);
      RunKeeps(init);
      if op.DoRegister? && op.node != "" {
        RegisterKeeps(Run(init).sessions, op.ws, op.node, op.inside);
      } else if op.DoClose? {
        CloseKeeps(Run(init).sessions, op.ws);
      }
    }
  }

  /** Messages for a node go to the socket that registered it last, exactly until that socket closes with that id as its last. */
  lemma {:induction false} PeersAreLatest(ops: seq<Op>, n: NodeId, ws: Socket)
    requires Possible(ops)
    ensures Forward(Run(ops).sessions, n) == To(ws) <==> n != "" && Stands(ops, n, ws)
    ensures ws in Run(ops).sessions.sockets <==> ws in Run(ops).open && LastId(ops, ws).Some?
    ensures ws in Run(ops).sessions.sockets ==> LastId(ops, ws) == Some(Run(ops).sessions.sockets[ws])
  {
    RunPeers(ops, n);
    RunSockets(ops);
  }

  // ---- sockets that keep one id ----

  ghost predicate OneId(ops: seq<Op>, ws: Socket) {
    forall i, j :: 0 <= i < j < |ops| && Registers(ops[i], ws) && Registers(ops[j], ws) ==> ops[i].node == ops[j].node
  }

  predicate Registers(op: Op, ws: Socket) { op.DoRegister? && op.ws == ws && op.node != "" }

  lemma {:induction false} LastIdIsRegistered(ops: seq<Op>, ws: Socket)
    ensures LastId(ops, ws).Some? ==> exists i :: 0 <= i < |ops| && Registers(ops[i], ws) && Some(ops[i].node) == LastId(ops, ws)
    ensures LastId(ops, ws).None? ==> forall i :: 0 <= i < |ops| ==> !Registers(ops[i], ws)
  {
    if ops != [] {
      LastIdIsRegistered(ops[..|ops| - 1], ws);
      assert forall i :: 0 <= i < |ops| - 1 ==> ops[..|ops| - 1][i] == ops[i];
    }
  }

  lemma {:induction false} LatestIsRegistered(ops: seq<Op>, n: NodeId, ws: Socket)
    requires n != "" && LatestRegister(ops, n) == Some(ws)
    ensures exists i :: 0 <= i < |ops| && Registers(ops[i], ws) && ops[i].node == n
  {
    var op := ops[|ops| - 1];
    if op.DoRegister? && op.node == n {
      assert Registers(op, ws);
    } else {
      LatestIsRegistered(ops[..|ops| - 1], n, ws);
      var i :| 0 <= i < |ops| - 1 && Registers(ops[..|ops| - 1][i], ws) && ops[..|ops| - 1][i].node == n;
      assert Registers(ops[i], ws);
    }
  }

  /** A socket that keeps one id is listed only while it is open, and the tables map it back. */
  lemma {:induction false} OneIdPeersAreOpen(ops: seq<Op>, n: NodeId, ws: Socket)
    requires Possible(ops) && OneId(ops, ws) && Forward(Run(ops).sessions, n) == To(ws)
    ensures ws in Run(ops).open && ws in Run(ops).sessions.sockets && Run(ops).sessions.sockets[ws] == n
  {
    hide Run, Possible;
    PeersAreLatest(ops, n, ws);
    LatestIsRegistered(ops, n, ws);
    LastIdIsRegistered(ops, ws);
  }

  // ---- the close of a replaced socket, inside the register or whenever it comes ----

  function ApplyAll(s: Sessions, ops: seq<Op>): Sessions {
    if ops == [] then s else Apply(ApplyAll(s, ops[..|ops| - 1]), ops[|ops| - 1])
  }

  /** The socket itself does nothing in these operations. */
  predicate Silent(ops: seq<Op>, ws: Socket) {
    forall i :: 0 <= i < |ops| ==> ops[i].ws != ws
  }

  /** Sessions that differ only by a socket whose close would change nothing else. */
  ghost predicate UpTo(a: Sessions, b: Sessions, gone: Socket) {
    && a.peers == b.peers && a.log == b.log && b.sockets == a.sockets - {gone}
    && (forall n :: !SpeaksFor(a, gone, n))
  }

  lemma {:induction false} CloseUpTo(a: Sessions, b: Sessions, gone: Socket, ws: Socket)
    requires UpTo(a, b, gone)
    ensures UpTo(Close(a, ws), Close(b, ws), gone)
    ensures Close(a, gone) == b
  {
    hide Audience;
    assert gone !in a.sockets ==> a.sockets - {gone} == a.sockets;
    assert gone in a.sockets ==> !SpeaksFor(a, gone, a.sockets[gone]);
    assert b.sockets - {ws} == a.sockets - {ws} - {gone} && (ws == gone ==> b.sockets == a.sockets - {ws} - {gone});
    forall n ensures !SpeaksFor(Close(a, ws), gone, n) {
      assert !SpeaksFor(a, gone, n);
    }
  }

  lemma {:induction false} StoredUpTo(a: Sessions, b: Sessions, gone: Socket, ws: Socket, n: NodeId)
    requires UpTo(a, b, gone) && ws != gone
    ensures UpTo(Stored(a, ws, n), Stored(b, ws, n), gone)
  {
    assert b.sockets[ws := n] == a.sockets[ws := n] - {gone};
    forall m ensures !SpeaksFor(Stored(a, ws, n), gone, m) {
      assert !SpeaksFor(a, gone, m);
    }
  }

  lemma {:induction false} LoggedUpTo(a: Sessions, b: Sessions, gone: Socket, e: Event)
    requires UpTo(a, b, gone)
    ensures UpTo(a.(log := a.log + [e]), b.(log := b.log + [e]), gone)
  {
    forall n ensures !SpeaksFor(a.(log := a.log + [e]), gone, n) {
      assert !SpeaksFor(a, gone, n);
    }
  }

  lemma {:induction false} ApplyUpTo(a: Sessions, b: Sessions, gone: Socket, op: Op)
    requires UpTo(a, b, gone) && op.ws != gone
    ensures UpTo(Apply(a, op), Apply(b, op), gone)
  {
    hide Audience, Close;
    match op
    case Connect(_) =>
    case DoClose(ws) => CloseUpTo(a, b, gone, ws);
    case DoRegister(ws, n, inside) =>
      if n != "" {
        var a', b' := Stored(a, ws, n), Stored(b, ws, n);
        StoredUpTo(a, b, gone, ws, n);
        if Replaces(a, ws, n) && inside {
          CloseUpTo(a', b', gone, a.peers[n]);
          a', b' := Close(a', a.peers[n]), Close(b', a.peers[n]);
        }
        LoggedUpTo(a', b', gone, Joined(n, Audience(a'.peers, Some(n))));
      }
  }

  lemma {:induction false} RunUpTo(a: Sessions, b: Sessions, gone: Socket, ops: seq<Op>)
    requires UpTo(a, b, gone) && Silent(ops, gone)
    ensures UpTo(ApplyAll(a, ops), ApplyAll(b, ops), gone)
  {
    hide UpTo, Apply;
    if ops != [] {
      RunUpTo(a, b, gone, ops[..|ops| - 1]);
      ApplyUpTo(ApplyAll(a, ops[..|ops| - 1]), ApplyAll(b, ops[..|ops| - 1]), gone, ops[|ops| - 1]);
    }
  }

  /** The replaced socket speaks for no id besides the one that is being taken over. */
  ghost predicate HoldsNothingElse(s: Sessions, n: NodeId)
    requires n in s.peers
  {
    forall m :: m != n ==> !SpeaksFor(s, s.peers[n], m)
  }

  /** The close of the replaced socket may come after any operations of other sockets. */
  ghost predicate CloseMayWait(s: Sessions, ws: Socket, n: NodeId)
    requires n in s.peers
  {
    forall ops :: Silent(ops, s.peers[n]) ==>
      Close(ApplyAll(Register(s, ws, n, false), ops), s.peers[n]) == ApplyAll(Register(s, ws, n, true), ops)
  }

  lemma {:induction false} ReplacedUpTo(s: Sessions, ws: Socket, n: NodeId)
    requires n != "" && Replaces(s, ws, n) && HoldsNothingElse(s, n)
    ensures UpTo(Register(s, ws, n, false), Register(s, ws, n, true), s.peers[n])
  {
    hide Audience;
    var gone, stored := s.peers[n], Stored(s, ws, n);
    forall m ensures !SpeaksFor(stored, gone, m) {
      assert m != n ==> !SpeaksFor(s, gone, m);
    }
    assert gone !in stored.sockets ==> stored.sockets - {gone} == stored.sockets;
    assert gone in stored.sockets ==> !SpeaksFor(stored, gone, stored.sockets[gone]);
    assert UpTo(stored, Close(stored, gone), gone);
    LoggedUpTo(stored, Close(stored, gone), gone, Joined(n, Audience(stored.peers, Some(n))));
  }

  /**
   Whether the close handler of a replaced socket runs inside the register or any time later makes no difference to
   the tables or to the announcements, exactly if that socket speaks for no other id.
   */
  lemma {:induction false} InsideOrLater(s: Sessions, ws: Socket, n: NodeId)
    requires n != "" && Replaces(s, ws, n)
    ensures CloseMayWait(s, ws, n) <==> HoldsNothingElse(s, n)
  {
    var gone := s.peers[n];
    var later, inside := Register(s, ws, n, false), Register(s, ws, n, true);
    if HoldsNothingElse(s, n) {
      ReplacedUpTo(s, ws, n);
      forall ops | Silent(ops, gone) ensures Close(ApplyAll(later, ops), gone) == ApplyAll(inside, ops) {
        RunUpTo(later, inside, gone, ops);
        CloseUpTo(ApplyAll(later, ops), ApplyAll(inside, ops), gone, gone);
      }
    } else {
      var m :| m != n && SpeaksFor(s, gone, m);
      assert Close(later, gone).log[|s.log|].Joined? && inside.log[|s.log|].Left?;
      assert Silent([], gone) && ApplyAll(later, []) == later && ApplyAll(inside, []) == inside;
    }
  }

  // ---- sockets that register several ids ----

  /** A closed socket stays listed exactly for the ids it held besides its last one. */
  lemma {:induction false} CloseLeavesOtherIds(s: Sessions, ws: Socket, n: NodeId)
    ensures n in Close(s, ws).peers && Close(s, ws).peers[n] == ws
       <==> n in s.peers && s.peers[n] == ws && (ws in s.sockets ==> s.sockets[ws] != n)
  {}

  const TWO_IDS: seq<Op> := [Connect(1), DoRegister(1, "a", false), DoRegister(1, "b", false), DoClose(1)]

  /** A socket registers two ids and closes; messages for the first still go to it. */
  lemma {:induction false} TwoIdsLeak()
    ensures Possible(TWO_IDS) && Forward(Run(TWO_IDS).sessions, "a") == To(1) && 1 !in Run(TWO_IDS).open
  {
    hide Audience;
    var ops := TWO_IDS;
    assert ops[..0] == [] && ops[..1][..0] == ops[..0] && ops[..2][..1] == ops[..1] && ops[..3][..2] == ops[..2];
    assert Run(ops[..0]) == START && Possible(ops[..0]);
    assert Run(ops[..1]) == Step(START, Connect(1)) && Possible(ops[..1]);
    assert Run(ops[..2]) == Step(Run(ops[..1]), ops[1]) && Possible(ops[..2]);
    assert Run(ops[..3]) == Step(Run(ops[..2]), ops[2]) && Possible(ops[..3]);
  }

  // ---- who was told, over every run ----

  /** An operation that turns s into t sends e: a register its arrival, a close or a replacement a departure. */
  ghost predicate Sends(s: Sessions, op: Op, e: Event) {
    var t := Apply(s, op);
    if e.Joined? then op.DoRegister? && op.node == e.node && e.node in t.peers && ToldOthers(e.to, t.peers, e.node)
    else !op.Connect? && e.node in s.peers && e.node !in t.peers && ToldAll(e.to, t.peers)
  }

  /** Event i of the log was sent by step k of the run. */
  ghost predicate SentBy(ops: seq<Op>, i: nat, k: nat)
    requires k < |ops| && i < |Run(ops).sessions.log|
  {
    var s, e := Run(ops[..k]).sessions, Run(ops).sessions.log[i];
    |s.log| <= i < |Apply(s, ops[k]).log| && Sends(s, ops[k], e)
  }

  /** What the last step of a run adds to the log, it sent to exactly the sockets the tables then list. */
  lemma {:induction false} LastStepSends(s: Sessions, op: Op, i: nat)
    requires Announced(s) && |s.log| <= i < |Apply(s, op).log|
    ensures s.log <= Apply(s, op).log && Sends(s, op, Apply(s, op).log[i])
  {
    hide Audience, ToldAll, ToldOthers, LogOk, Close, Register;
    match op
    case Connect(_) => assert false;
    case DoClose(ws) =>
      CloseTells(s, ws);
      CloseKeeps(s, ws);
    case DoRegister(ws, n, inside) =>
      NoIdNoRegister(s, ws, inside);
      RegisterTells(s, ws, n, inside);
      RegisterKeeps(s, ws, n, inside);
      var t := Register(s, ws, n, inside);
      if m :| TakesAlong(s, ws, n, inside, m) {
        assert Departed(s.log, t.log[..|t.log| - 1], t.peers, m);
      }
  }

  lemma {:induction false} NoIdNoRegister(s: Sessions, ws: Socket, inside: bool)
    ensures Register(s, ws, "", inside) == s
  {}

  /** The log of a run starts with that of its beginning. */
  lemma {:induction false} LogGrows(s: Sessions, op: Op)
    requires Announced(s)
    ensures s.log <= Apply(s, op).log
  {
    hide Audience, LogOk;
    if op.DoRegister? && op.node != "" {
      RegisterTells(s, op.ws, op.node, op.inside);
    }
  }

  /** Every announcement of every run was sent by one of its steps, to exactly the sockets listed at that moment. */
  lemma {:induction false} EveryEventWasSent(ops: seq<Op>, i: nat) returns (k: nat)
    requires i < |Run(ops).sessions.log|
    ensures k < |ops| && SentBy(ops, i, k)
  {
    hide Sends, Step;
    var n := |ops| - 1;
    var init, s := ops[..n], Run(ops[..n]).sessions;
    RunKeeps(init);
    assert Run(ops).sessions == Apply(s, ops[n]) by { StepApplies(Run(init), ops[n]); }
    LogGrows(s, ops[n]);
    assert ops[..n + 1] == ops;
    if i < |s.log| {
      k := EveryEventWasSent(init, i);
      assert init[..k] == ops[..k] && init[..k + 1] == ops[..k + 1];
    } else {
      k := n;
      LastStepSends(s, ops[n], i);
    }
  }

  lemma {:induction false} StepApplies(w: World, op: Op)
    ensures Step(w, op).sessions == Apply(w.sessions, op)
  {}
}
