/** The compositor's handlers, in the form in which they update its tables. */
module Compositor {
  import opened Scene
  import opened Session

  /** The queue of file descriptors that a client has sent and no commit has used. */
  class FdQueue {
    const fds: array<int>
    var count: nat
    ghost var queued: seq<int>   // all that ever went in
    ghost var taken: seq<int>    // all that came out

    /** What came out and what is still inside is what went in, in this order. */
    ghost predicate Valid()
      reads this, fds
    {
      fds.Length == MAX_PENDING_FDS && count <= MAX_PENDING_FDS && taken + fds[..count] == queued
    }

    ghost function Contents(): seq<int>
      requires Valid()
      reads this, fds
    {
      fds[..count]
    }

    constructor ()
      ensures Valid() && Contents() == [] && queued == taken == [] && fresh(fds)
    {
      fds := new int[MAX_PENDING_FDS](_ => -1);
      count, queued, taken := 0, [], [];
    }

    /** Appends a descriptor; a full queue refuses it, and the caller's descriptor is closed. */
    method Queue(fd: int) returns (ok: bool, closed: seq<int>)
      requires Valid()
      modifies this`count, this`queued, fds
      ensures Valid()
      ensures ok <==> |old(Contents())| < MAX_PENDING_FDS
      ensures Contents() == old(Contents()) + (if ok then [fd] else []) && closed == if ok then [] else [fd]
      ensures queued == old(queued) + if ok then [fd] else []
    {
      if count >= MAX_PENDING_FDS { return false, [fd]; }
      fds[count] := fd;
      count := count + 1;
      queued := queued + [fd];
      assert fds[..count] == old(fds[..count]) + [fd];
      return true, [];
    }

    /** Queues the descriptors of one read until one is refused. */
    method QueueAll(received: seq<int>) returns (n: nat, closed: seq<int>)
      requires Valid()
      modifies this`count, this`queued, fds
      ensures Valid() && n == Taken(old(Contents()), received)
      ensures Contents() == old(Contents()) + received[..n] && queued == old(queued) + received[..n]
      ensures closed == if n < |received| then received[n..n + 1] else []
    {
      n, closed := 0, [];
      while n < |received|
        invariant Valid() && n <= |received| && closed == []
        invariant Contents() == old(Contents()) + received[..n] && queued == old(queued) + received[..n]
      {
        var ok;
        ok, closed := Queue(received[n]);
        if !ok { return; }
        n := n + 1;
      }
    }

    /** Takes the oldest descriptor, or -1. */
    method Take() returns (fd: int)
      requires Valid()
      modifies this`count, this`taken, fds
      ensures Valid()
      ensures old(Contents()) == [] ==> fd == -1 && Contents() == [] && taken == old(taken)
      ensures old(Contents()) != [] ==> [fd] + Contents() == old(Contents()) && taken == old(taken) + [fd]
    {
      if count == 0 { return -1; }
      fd := fds[0];
      ShiftDown();
      count := count - 1;
      fds[count] := -1;
      taken := taken + [fd];
      assert [fd] + fds[..count] == old(fds[..count]);
      InOrder(old(taken), [fd], fds[..count]);
    }

    /** Moves every descriptor behind the first one place forward. */
    method ShiftDown()
      requires 0 < count <= fds.Length
      modifies fds
      ensures forall k :: 0 <= k < count - 1 ==> fds[k] == old(fds[k + 1])
    {
      for i := 1 to count
        invariant forall k :: 0 <= k < i - 1 ==> fds[k] == old(fds[k + 1])
        invariant forall k :: i <= k < count ==> fds[k] == old(fds[k])
      {
        fds[i - 1] := fds[i];
      }
    }

    /** The descriptors that are closed with the client. */
    method Destroy() returns (closed: seq<int>)
      requires Valid() && ValidFds(Contents())
      ensures closed == Contents()
    {
      closed := [];
      for i := 0 to count
        invariant closed == fds[..i]
      {
        assert fds[i] == Contents()[i];
        if fds[i] >= 0 { closed := closed + [fds[i]]; }
      }
    }
  }

  /** The capabilities granted to a client. */
  method Negotiate(uid: int, requested: set<Cap>) returns (granted: set<Cap>)
    ensures granted == requested * Allowed(uid)
  {
    granted := {};
    if CanvasSurface in requested { granted := granted + {CanvasSurface}; }
    if DirectLgp in requested { granted := granted + {DirectLgp}; }
    if Clipboard in requested { granted := granted + {Clipboard}; }
    if uid == 0 {
      if LayerShell in requested { granted := granted + {LayerShell}; }
      if LunaIsland in requested { granted := granted + {LunaIsland}; }
      if WindowManager in requested { granted := granted + {WindowManager}; }
    }
  }

  /** A client without its queue. */
  datatype Peer = Peer(fd: int, uid: int, session: nat, caps: set<Cap>, hello: bool)

  ghost function ClientAt(p: Peer, q: FdQueue): Client
    requires q.Valid()
    reads q, q.fds
  {
    Client(p.fd, p.uid, p.session, p.caps, p.hello, q.Contents(), q.queued, q.taken)
  }

  function WithPeer(client: Client, p: Peer): Client {
    client.(fd := p.fd, uid := p.uid, session := p.session, caps := p.caps, hello := p.hello)
  }

  ghost predicate Apart(queues: seq<FdQueue>) {
    forall i, j :: 0 <= i < j < |queues| ==> queues[i] != queues[j] && queues[i].fds != queues[j].fds
  }

  ghost function Arrays(queues: seq<FdQueue>): set<array<int>> { set q | q in queues :: q.fds }

  /** The client stands for this peer and this queue. */
  ghost predicate Mirrors(client: Client, p: Peer, q: FdQueue)
    reads q, q.fds
  {
    q.Valid() && client == ClientAt(p, q)
  }

  class Compositor {
    var peers: seq<Peer>
    var queues: seq<FdQueue>
    var nextSession: nat
    const surfaces: array<Surface>
    var nextSurface: nat
    var wm: nat
    var focusSession: nat
    var focusSurface: nat
    ghost var clients: seq<Client>   // the peers with what their queues hold
    ghost var ledger: Ledger

    ghost predicate Shape()
      reads this`peers, this`queues, this`clients, queues, Arrays(queues)
    {
      && surfaces.Length == SURFACE_MAX && |clients| == |queues| == |peers| && Apart(queues)
      && forall i :: 0 <= i < |clients| ==> Mirrors(clients[i], peers[i], queues[i])
    }

    ghost function Value(): State
      reads this, surfaces
    {
      State(clients, nextSession, surfaces[..], nextSurface, wm, focusSession, focusSurface, ledger)
    }

    constructor ()
      ensures Shape() && queues == [] && Value() == START && fresh(surfaces)
    {
      peers, queues, nextSession, nextSurface, wm, focusSession, focusSurface := [], [], 1, 1, 0, 0, 0;
      clients, ledger := [], Ledger(multiset{}, multiset{}, multiset{});
      surfaces := new Surface[SURFACE_MAX](_ => EMPTY);
      new;
      assert surfaces[..] == NO_SURFACES;
    }

    // -------------------------------------------------------- the client list

    method SetPeer(c: nat, p: Peer)
      requires Shape() && c < |peers|
      modifies this`peers, this`clients
      ensures Shape() && peers == old(peers)[c := p] && clients == old(clients)[c := WithPeer(old(clients)[c], p)]
    {
      peers := peers[c := p];
      clients := clients[c := WithPeer(clients[c], p)];
    }

    /** Takes the oldest pending descriptor of a client, or -1. */
    method TakeFd(c: nat) returns (fd: int)
      requires Shape() && c < |peers|
      modifies queues[c], queues[c].fds, this`clients
      ensures Shape()
      ensures var client := old(clients)[c];
              if client.pending == [] then fd == -1 && clients == old(clients)
              else fd == client.pending[0] && clients == old(clients)[c := TakenFrom(client)]
    {
      ghost var client := clients[c];
      fd := queues[c].Take();
      assert client.pending != [] ==> client.pending == [fd] + queues[c].Contents() && client.pending[..1] == [fd];
      clients := clients[c := ClientAt(peers[c], queues[c])];
    }

    /** Queues the descriptors of one read for a client until one is refused, which is closed. */
    method QueueFds(c: nat, received: seq<int>) returns (n: nat, closed: seq<int>)
      requires Shape() && c < |peers|
      modifies queues[c], queues[c].fds, this`clients
      ensures Shape() && n == Taken(old(clients)[c].pending, received)
      ensures clients == old(clients)[c := QueuedTo(old(clients)[c], received[..n])]
      ensures closed == if n < |received| then received[n..n + 1] else []
    {
      n, closed := queues[c].QueueAll(received);
      clients := clients[c := ClientAt(peers[c], queues[c])];
    }

    /** Unlinks a client. */
    method DropClient(c: nat)
      requires Shape() && c < |peers|
      modifies this`peers, this`queues, this`clients
      ensures Shape() && clients == old(clients)[..c] + old(clients)[c + 1..]
      ensures forall q :: q in queues ==> q in old(queues)
    {
      peers := peers[..c] + peers[c + 1..];
      queues := queues[..c] + queues[c + 1..];
      clients := clients[..c] + clients[c + 1..];
    }

    method AddClient(fd: int, uid: int)
      requires Shape()
      modifies this`peers, this`queues, this`clients, this`nextSession
      ensures Shape() && nextSession == old(nextSession) + 1
      ensures clients == [Client(fd, uid, old(nextSession), {}, false, [], [], [])] + old(clients)
      ensures forall q :: q in queues ==> q in old(queues) || (fresh(q) && fresh(q.fds))
    {
      var q := new FdQueue();
      peers := [Peer(fd, uid, nextSession, {}, false)] + peers;
      queues := [q] + queues;
      clients := [ClientAt(peers[0], q)] + clients;
      nextSession := nextSession + 1;
    }

    // ----------------------------------------------------------- the surfaces

    method FindSurface(id: nat) returns (i: nat)
      ensures i == Slot(surfaces[..], id)
    {
      i := 0;
      while i < surfaces.Length
        invariant i <= surfaces.Length
        invariant forall k :: 0 <= k < i ==> !(surfaces[k].inUse && surfaces[k].id == id)
      {
        if surfaces[i].inUse && surfaces[i].id == id { break; }
        i := i + 1;
      }
      SlotIsFirst(surfaces[..], id, i);
    }

    method FindFree() returns (i: nat)
      ensures i == FirstFree(surfaces[..])
    {
      i := 0;
      while i < surfaces.Length
        invariant i <= surfaces.Length
        invariant forall k :: 0 <= k < i ==> surfaces[k].inUse
      {
        if !surfaces[i].inUse { break; }
        i := i + 1;
      }
      FreeIsFirst(surfaces[..], i);
    }

    method SetSurface(i: nat, s: Surface)
      requires i < surfaces.Length
      modifies surfaces
      ensures surfaces[..] == old(surfaces[..])[i := s]
    {
      surfaces[i] := s;
    }

    // ----------------------------------------------------------- the handlers

    method HandleHello(c: nat, major: nat, requested: set<Cap>, written: bool) returns (ok: bool)
      requires Shape() && c < |peers|
      modifies this`peers, this`clients, this`wm
      ensures Shape() && (Value(), ok) == DoHello(old(Value()), c, major, requested, written)
    {
      if major != VERSION_MAJOR { return false; }
      var granted := Negotiate(peers[c].uid, requested);
      SetPeer(c, peers[c].(caps := granted));
      if !written { return false; }
      SetPeer(c, peers[c].(hello := true));
      assert clients == old(clients)[c := old(clients)[c].(caps := granted, hello := true)];
      if WindowManager in granted { wm := peers[c].session; }
      return true;
    }

    method HandleCreate(c: nat, p: CreateRequest, replied: bool) returns (ok: bool)
      requires Shape() && c < |peers|
      modifies this`nextSurface, this`focusSession, this`focusSurface, surfaces
      ensures Shape() && (Value(), ok) == DoCreate(old(Value()), c, p, replied)
    {
      var status, id := CreateSurface(peers[c], p);
      if !replied { return false; }
      if status != Ok { return true; }
      if p.layer == LAYER_APPLICATION {
        focusSession, focusSurface := peers[c].session, id;
      }
      return true;
    }

    method CreateSurface(peer: Peer, p: CreateRequest) returns (status: Status, id: nat)
      modifies this`nextSurface, surfaces
      ensures var i := FirstFree(old(surfaces[..]));
              if Validate(peer.caps, p) != Ok || i == surfaces.Length
              then status != Ok && id == 0 && nextSurface == old(nextSurface) && surfaces[..] == old(surfaces[..])
              else
                && status == Ok && id == old(nextSurface) && nextSurface == old(nextSurface) + 1
                && surfaces[..] == old(surfaces[..])[i := old(surfaces[..])[i].(
                     inUse := true, id := id, owner := peer.session, kind := p.kind,
                     x := p.x, y := p.y, width := p.width, height := p.height, layer := p.layer)]
    {
      status := Validate(peer.caps, p);
      if status != Ok { return status, 0; }
      var i := FindFree();
      if i == surfaces.Length { return NoMemory, 0; }
      id := nextSurface;
      SetSurface(i, surfaces[i].(inUse := true, id := id, owner := peer.session, kind := p.kind,
                                 x := p.x, y := p.y, width := p.width, height := p.height, layer := p.layer));
      nextSurface := nextSurface + 1;
    }

    method HandleDestroy(c: nat, id: nat) returns (ok: bool)
      requires Shape() && c < |peers|
      modifies surfaces
      ensures Shape() && (Value(), ok) == DoDestroy(old(Value()), c, id)
    {
      var i := FindSurface(id);
      if i == surfaces.Length || surfaces[i].owner != peers[c].session { return false; }
      SetSurface(i, EMPTY);
      return true;
    }

    method CloseFd(fd: int)
      modifies this`ledger
      ensures ledger == old(ledger).(closed := old(ledger).closed + multiset{fd})
    {
      ledger := ledger.(closed := ledger.closed + multiset{fd});
    }

    /** Attaches a buffer to a surface. Whatever becomes of the commit, on each path its descriptor is closed once. */
    method CommitSurface(session: nat, p: CommitRequest, mapped: Buffer, fd: int) returns (status: Status)
      modifies this`ledger, surfaces
      ensures fd < 0 ==> status == BadBuffer && ledger == old(ledger) && surfaces[..] == old(surfaces[..])
      ensures fd >= 0 ==> ledger == old(ledger).(closed := old(ledger).closed + multiset{fd})
      ensures fd >= 0 ==>
                status == (if CommitStatus(old(surfaces[..]), session, p) == Ok && mapped.Unmapped? then BadBuffer
                           else CommitStatus(old(surfaces[..]), session, p))
      ensures fd >= 0 ==>
                surfaces[..] == if status == Ok then Attached(old(surfaces[..]), p, mapped) else old(surfaces[..])
    {
      if fd < 0 { return BadBuffer; }
      var i := FindSurface(p.id);
      if i == surfaces.Length {
        CloseFd(fd);
        return NotFound;
      }
      var s := surfaces[i];
      if s.owner != session {
        CloseFd(fd);
        return Denied;
      }
      if p.width != s.width || p.height != s.height || (p.format != XRGB8888 && p.format != ARGB8888)
         || p.stride < 4 * p.width || p.height == 0 {
        CloseFd(fd);
        return BadBuffer;
      }
      if p.size < p.stride * p.height || p.size == 0 {
        CloseFd(fd);
        return BadBuffer;
      }
      CloseFd(fd);  // once the buffer is mapped, or is not
      if mapped.Unmapped? { return BadBuffer; }
      SetSurface(i, s.(buffer := mapped, stride := p.stride, format := p.format));
      return Ok;
    }

    method HandleCommit(c: nat, p: CommitRequest, mapped: Buffer, shown: bool) returns (ok: bool)
      requires Shape() && c < |peers| && ValidFds(clients[c].pending)
      modifies queues[c], queues[c].fds, this`clients, this`ledger, surfaces
      ensures Shape() && (Value(), ok) == DoCommit(old(Value()), c, p, mapped, shown)
    {
      ghost var client := clients[c];
      assert client.pending != [] ==> multiset(client.pending[..1]) == multiset{client.pending[0]};
      var fd := TakeFd(c);
      var status := CommitSurface(peers[c].session, p, mapped, fd);
      if status != Ok { return false; }
      return shown;
    }

    method HandleSetPosition(id: nat, x: int, y: int, maxWidth: int, maxHeight: int, moved: bool) returns (ok: bool)
      requires Shape()
      modifies surfaces
      ensures Shape() && (Value(), ok) == DoSetPosition(old(Value()), id, x, y, maxWidth, maxHeight, moved)
    {
      var i := FindSurface(id);
      if i == surfaces.Length { return true; }
      var s := surfaces[i];
      if x + s.width < 0 || x + s.width > maxWidth || y + s.height < 0 || y + s.height > maxHeight { return true; }
      SetSurface(i, s.(x := x, y := y));
      return moved;
    }

    method HandleSetFocus(id: nat) returns (ok: bool)
      requires Shape()
      modifies this`focusSession, this`focusSurface
      ensures Shape() && (Value(), ok) == DoSetFocus(old(Value()), id)
    {
      if id == 0 {
        focusSession, focusSurface := 0, 0;
      } else {
        var i := FindSurface(id);
        if i == surfaces.Length { return false; }
        focusSession, focusSurface := surfaces[i].owner, surfaces[i].id;
      }
      return true;
    }

    method HandleSetState(id: nat, wmState: nat, redrawn: bool) returns (ok: bool)
      requires Shape()
      modifies surfaces
      ensures Shape() && (Value(), ok) == DoSetState(old(Value()), id, wmState, redrawn)
    {
      var i := FindSurface(id);
      if i < surfaces.Length { SetSurface(i, surfaces[i].(wmState := wmState)); }
      return redrawn;
    }

    method HandleMessage(c: nat, r: Request) returns (ok: bool)
      requires Shape() && c < |peers| && ValidFds(clients[c].pending)
      modifies this`peers, this`clients, this`nextSurface, this`wm, this`focusSession, this`focusSurface, this`ledger
      modifies surfaces
      modifies queues[c], queues[c].fds
      ensures Shape() && (Value(), ok) == Handle(old(Value()), c, r)
    {
      var peer := peers[c];
      if !peer.hello && !r.Hello? { return false; }
      if peer.hello && r.Hello? { return false; }
      match r
      case Hello(major, requested, written) => ok := HandleHello(c, major, requested, written);
      case Create(p, replied) => ok := HandleCreate(c, p, replied);
      case Destroy(id) => ok := HandleDestroy(c, id);
      case Commit(p, mapped, shown) => ok := HandleCommit(c, p, mapped, shown);
      case SetPosition(id, x, y, w, h, moved) =>
        if WindowManager !in peer.caps { return false; }
        ok := HandleSetPosition(id, x, y, w, h, moved);
      case SetFocus(id) =>
        if WindowManager !in peer.caps { return false; }
        ok := HandleSetFocus(id);
      case SetState(id, state, redrawn) =>
        if WindowManager !in peer.caps { return false; }
        ok := HandleSetState(id, state, redrawn);
      case Other(need, done) => ok := need in peer.caps && done;
      case Malformed => ok := false;
    }

    method DestroyForClient(session: nat)
      modifies surfaces
      ensures surfaces[..] == Release(old(surfaces[..]), session)
    {
      for i := 0 to surfaces.Length
        invariant forall k :: 0 <= k < i ==> surfaces[k] == Release(old(surfaces[..]), session)[k]
        invariant forall k :: i <= k < surfaces.Length ==> surfaces[k] == old(surfaces[k])
      {
        if surfaces[i].inUse && surfaces[i].owner == session { surfaces[i] := EMPTY; }
      }
    }

    method CloseClient(c: nat)
      requires Shape() && c < |peers| && ValidFds(clients[c].pending)
      modifies this`peers, this`queues, this`clients, this`wm, this`ledger, surfaces
      ensures Shape() && Value() == Close(old(Value()), c)
      ensures forall q :: q in queues ==> q in old(queues)
    {
      var peer, queue := peers[c], queues[c];
      if wm == peer.session { wm := 0; }
      DestroyForClient(peer.session);
      DropClient(c);
      var closed := queue.Destroy();
      ledger := ledger.(closed := ledger.closed + multiset(closed));
    }

    method ReceiveFds(c: nat, fds: seq<int>, truncated: bool)
      requires Shape() && c < |peers| && ValidFds(clients[c].pending) && ValidFds(fds)
      modifies this`peers, this`queues, this`clients, this`wm, this`ledger, surfaces, queues[c], queues[c].fds
      ensures Shape() && Value() == Receive(old(Value()), c, fds, truncated)
      ensures forall q :: q in queues ==> q in old(queues)
    {
      ledger := ledger.(received := ledger.received + multiset(fds));
      if truncated {
        ledger := ledger.(lost := ledger.lost + multiset(fds));
        CloseClient(c);
        return;
      }
      var n := QueueRead(c, fds);
      if n < |fds| { CloseClient(c); }
    }

    /** Puts the descriptors of one read into the queue; one that does not fit is closed, those behind it are lost. */
    method QueueRead(c: nat, fds: seq<int>) returns (n: nat)
      requires Shape() && c < |peers| && ValidFds(clients[c].pending) && ValidFds(fds)
      modifies this`clients, this`ledger, queues[c], queues[c].fds
      ensures Shape() && n == Taken(old(clients)[c].pending, fds) <= |fds| && ValidFds(clients[c].pending)
      ensures Value() == if n == |fds| then Queue(old(Value()), c, fds)
                         else Lose(CloseFds(Queue(old(Value()), c, fds[..n]), fds[n..n + 1]), fds[n + 1..])
    {
      var closed;
      n, closed := QueueFds(c, fds);
      assert fds[..|fds|] == fds;
      if n < |fds| {
        ledger := ledger.(closed := ledger.closed + multiset(closed), lost := ledger.lost + multiset(fds[n + 1..]));
      }
    }

    /** The surface that a pointer event is for. */
    method FindPointerTarget(x: int, y: int) returns (t: nat)
      ensures t == PointerTarget(surfaces[..], wm, x, y, surfaces.Length)
    {
      t := 0;
      var i: nat, top: int := 0, -1;
      while i < surfaces.Length
        invariant i <= surfaces.Length && t == PointerTarget(surfaces[..], wm, x, y, i)
        invariant top == if t < i then surfaces[t].layer else -1
      {
        var s := surfaces[i];
        if t == i { t := i + 1; }
        if s.inUse && !(wm != 0 && s.owner == wm) && !(s.layer < LAYER_APPLICATION || s.layer >= LAYER_SHELL)
           && !(s.wmState == WM_HIDDEN || s.wmState == WM_MINIMIZED)
           && x >= s.x && x < s.x + s.width && y >= s.y && y < s.y + s.height {
          if s.layer > top { top, t := s.layer, i; }
        }
        i := i + 1;
      }
    }

    method DispatchPointerPress(x: int, y: int)
      requires Shape()
      modifies this`focusSession, this`focusSurface
      ensures Shape() && Value() == Press(old(Value()), x, y)
    {
      var t := FindPointerTarget(x, y);
      if t < surfaces.Length {
        focusSession, focusSurface := surfaces[t].owner, surfaces[t].id;
      }
    }

    method HandleEvent(ev: Event)
      requires Shape() && Inv(Value()) && EventOk(ev)
      modifies this, surfaces, queues, Arrays(queues)
      ensures Shape() && Value() == Next(old(Value()), ev)
      ensures forall q :: q in queues ==> q in old(queues) || (fresh(q) && fresh(q.fds))
    {
      match ev
      case Connected(fd, uid) => AddClient(fd, uid);
      case NotRegistered => nextSession := nextSession + 1;
      case Message(c, r) => if c < |peers| { ServeClient(c, r); }
      case Received(c, fds, truncated) =>
        if c < |peers| {
          PendingValid(Value(), c);
          ReceiveFds(c, fds, truncated);
        }
      case HungUp(c) =>
        if c < |peers| {
          PendingValid(Value(), c);
          CloseClient(c);
        }
      case Pressed(x, y) => DispatchPointerPress(x, y);
    }

    /** A message of client `c`, which is disconnected if it is refused. */
    method ServeClient(c: nat, r: Request)
      requires Shape() && Inv(Value()) && RequestOk(r) && c < |peers|
      modifies this`peers, this`queues, this`clients, this`nextSurface, this`wm, this`focusSession, this`focusSurface
      modifies this`ledger, surfaces, queues[c], queues[c].fds
      ensures Shape() && Value() == Next(old(Value()), Message(c, r))
      ensures forall q :: q in queues ==> q in old(queues)
    {
      PendingValid(Value(), c);
      var ok := HandleMessage(c, r);
      if !ok {
        StillValid(old(Value()), c, r);
        CloseClient(c);
      }
    }

    /** The event loop, whatever the events are. */
    method EventLoop(events: seq<Event>)
      requires Shape() && Value() == START && forall k :: 0 <= k < |events| ==> EventOk(events[k])
      modifies this, surfaces
      ensures Shape() && Value() == Run(START, events) && Inv(Value())
      ensures forall i :: 0 <= i < |clients| ==>
                clients[i].taken + clients[i].pending == Sent(START, events, clients[i].session)
    {
      RunNothing(START, events);
      for k := 0 to |events|
        invariant Shape() && Value() == Run(START, events[..k]) && Inv(Value())
        invariant forall q :: q in queues ==> fresh(q) && fresh(q.fds)
      {
        HandleEvent(events[k]);
        EventKeeps(Run(START, events[..k]), events[k]);
        RunNext(START, events, k);
      }
      assert events[..|events|] == events;
      forall i | 0 <= i < |clients|
        ensures clients[i].taken + clients[i].pending == Sent(START, events, clients[i].session)
      {
        FirstInFirstOut(events, i);
      }
    }
  }

  lemma PendingValid(st: State, c: nat)
    requires Inv(st) && c < |st.clients|
    ensures ValidFds(st.clients[c].pending)
  {
    var k := st.clients[c];
    assert ClientOk(k, st.nextSession);
    forall j | 0 <= j < |k.pending| ensures k.pending[j] >= 0 { assert k.pending[j] == k.queued[|k.taken| + j]; }
  }

  /** A refused message does not put anything into the queue. */
  lemma StillValid(st: State, c: nat, r: Request)
    requires c < |st.clients| && ValidFds(st.clients[c].pending)
    ensures |Handle(st, c, r).0.clients| == |st.clients| && ValidFds(Handle(st, c, r).0.clients[c].pending)
  {
  }

  lemma RunNothing(st: State, events: seq<Event>)
    ensures Run(st, events[..0]) == st
  {
  }

  lemma {:induction false} RunNext(st: State, events: seq<Event>, k: nat)
    requires k < |events|
    ensures Run(st, events[..k + 1]) == Next(Run(st, events[..k]), events[k])
    decreases k
  {
    var more, less := events[..k + 1], events[..k];
    if k > 0 {
      RunNext(Next(st, events[0]), events[1..], k - 1);
      assert more[1..] == events[1..][..k] && less[1..] == events[1..][..k - 1];
    } else {
      assert more == [events[0]] && more[1..] == [];
    }
  }

  lemma SlotIsFirst(surfaces: seq<Surface>, id: nat, i: nat)
    requires i <= |surfaces| && (i < |surfaces| ==> surfaces[i].inUse && surfaces[i].id == id)
    requires forall k :: 0 <= k < i ==> !(surfaces[k].inUse && surfaces[k].id == id)
    ensures i == Slot(surfaces, id)
  {
    var f := Slot(surfaces, id);
    assert !(f < i) && !(i < f);
  }

  lemma FreeIsFirst(surfaces: seq<Surface>, i: nat)
    requires i <= |surfaces| && (i < |surfaces| ==> !surfaces[i].inUse)
    requires forall k :: 0 <= k < i ==> surfaces[k].inUse
    ensures i == FirstFree(surfaces)
  {
    var f := FirstFree(surfaces);
    assert !(f < i) && !(i < f);
  }
}
