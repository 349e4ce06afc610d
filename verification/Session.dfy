/** The sessions of the compositor: clients, the surfaces they own, and what every message keeps. */
module Session {
  import opened Scene

  datatype Cap = DmaBuf | CanvasSurface | DirectLgp | LayerShell | LunaIsland | CursorShape | Clipboard | WindowManager

  const VERSION_MAJOR := 1
  const MAX_PENDING_FDS := 8

  /** A connected client; `pending` are the file descriptors it sent that no commit has used yet. The history
      `queued` lists all that went into the queue, and `taken` those that commits got out of it. */
  datatype Client = Client(fd: int, uid: int, session: nat, caps: set<Cap>, hello: bool,
                           pending: seq<int>, queued: seq<int>, taken: seq<int>)

  /** What became of the file descriptors that clients sent: closed ones, and ones nobody knows any more. */
  datatype Ledger = Ledger(received: multiset<int>, closed: multiset<int>, lost: multiset<int>)

  /** The compositor; session 0 stands for no client. */
  datatype State = State(clients: seq<Client>, nextSession: nat, surfaces: seq<Surface>, nextSurface: nat,
                         wm: nat, focusSession: nat, focusSurface: nat, ledger: Ledger)

  function CloseFds(st: State, fds: seq<int>): State {
    st.(ledger := st.ledger.(closed := st.ledger.closed + multiset(fds)))
  }

  datatype Status = Ok | Invalid | Denied | NoMemory | NotFound | BadBuffer

  datatype CreateRequest = CreateRequest(kind: nat, x: int, y: int, width: nat, height: nat, layer: nat)

  datatype CommitRequest = CommitRequest(id: nat, width: nat, height: nat, stride: nat, format: nat, size: nat)

  const SYSTEM_CHROME := 1
  const LUNA_ISLAND := 2
  const SHELL_SURFACE := 3
  const APPLICATION_WINDOW := 4
  const CANVAS_SURFACE := 5
  const OVERLAY_SURFACE := 6

  const EMPTY := Surface(false, 0, 0, 0, 0, 0, 0, 0, 0, 0, 0, Unmapped, 0)

  // ------------------------------------------------------------ decisions

  /** The capabilities a user may hold. */
  function Allowed(uid: int): set<Cap> {
    {CanvasSurface, DirectLgp, Clipboard} + if uid == 0 then {LayerShell, LunaIsland, WindowManager} else {}
  }

  predicate InDisplay(p: CreateRequest) {
    0 < p.width <= 16384 && 0 < p.height <= 16384 && -16384 <= p.x <= 16384 && -16384 <= p.y <= 16384
  }

  function Validate(caps: set<Cap>, p: CreateRequest): Status {
    if !(SYSTEM_CHROME <= p.kind <= OVERLAY_SURFACE) || !InDisplay(p) then Invalid
    else if p.kind == APPLICATION_WINDOW then
      if p.layer != LAYER_APPLICATION then Invalid else Ok
    else if p.kind == CANVAS_SURFACE then
      if CanvasSurface !in caps then Denied
      else if p.layer != LAYER_APPLICATION && p.layer != LAYER_WALLPAPER then Invalid else Ok
    else if p.kind == LUNA_ISLAND then
      if LunaIsland !in caps then Denied
      else if p.layer != LAYER_LUNA_ISLAND then Invalid else Ok
    else
      if LayerShell !in caps then Denied
      else if p.layer < LAYER_SHELL || p.layer > LAYER_SYSTEM_MODAL then Invalid else Ok
  }

  /** The first free slot, or |surfaces|. */
  function FirstFree(surfaces: seq<Surface>): (i: nat)
    ensures i <= |surfaces| && (i < |surfaces| ==> !surfaces[i].inUse)
    ensures forall k :: 0 <= k < i ==> surfaces[k].inUse
  {
    if surfaces == [] || !surfaces[0].inUse then 0 else 1 + FirstFree(surfaces[1..])
  }

  /** The slot of the surface with this id, or |surfaces|. */
  function Slot(surfaces: seq<Surface>, id: nat): (i: nat)
    ensures i <= |surfaces| && (i < |surfaces| ==> surfaces[i].inUse && surfaces[i].id == id)
    ensures forall k :: 0 <= k < i ==> !(surfaces[k].inUse && surfaces[k].id == id)
  {
    if surfaces == [] || (surfaces[0].inUse && surfaces[0].id == id) then 0 else 1 + Slot(surfaces[1..], id)
  }

  /** Why a commit is refused before its buffer is mapped. */
  function CommitStatus(surfaces: seq<Surface>, session: nat, p: CommitRequest): (r: Status)
    ensures r == Ok ==> Slot(surfaces, p.id) < |surfaces| && 4 * p.width <= p.stride && p.stride * p.height <= p.size
  {
    var i := Slot(surfaces, p.id);
    if i == |surfaces| then NotFound
    else if surfaces[i].owner != session then Denied
    else if p.width != surfaces[i].width || p.height != surfaces[i].height
            || (p.format != XRGB8888 && p.format != ARGB8888)
            || p.stride < 4 * p.width || p.height == 0 then BadBuffer
    else if p.size < p.stride * p.height || p.size == 0 then BadBuffer
    else Ok
  }

  // ------------------------------------------------------------- handlers

  /** What a client asks for, with the outcome of the calls made for it: whether the reply could be written,
      what was mapped, and whether the scene could be shown. */
  datatype Request =
    | Hello(major: nat, requested: set<Cap>, written: bool)
    | Create(create: CreateRequest, replied: bool)
    | Destroy(id: nat)
    | Commit(commit: CommitRequest, mapped: Buffer, shown: bool)
    | SetPosition(surface: nat, x: int, y: int, maxWidth: int, maxHeight: int, moved: bool)
    | SetFocus(target: nat)
    | SetState(which: nat, wmState: nat, redrawn: bool)
    | Other(need: Cap, done: bool)       // fill rect, clipboard and key grabs: they need a capability
    | Malformed

  function SetClient(st: State, c: nat, client: Client): State
    requires c < |st.clients|
  {
    st.(clients := st.clients[c := client])
  }

  function DoHello(st: State, c: nat, major: nat, requested: set<Cap>, written: bool): (State, bool)
    requires c < |st.clients|
  {
    var client := st.clients[c];
    if major != VERSION_MAJOR then (st, false)
    else
      var granted := requested * Allowed(client.uid);
      if !written then (SetClient(st, c, client.(caps := granted)), false)
      else
        var st' := SetClient(st, c, client.(caps := granted, hello := true));
        (if WindowManager in granted then st'.(wm := client.session) else st', true)
  }

  function DoCreate(st: State, c: nat, p: CreateRequest, replied: bool): (State, bool)
    requires c < |st.clients|
  {
    var client := st.clients[c];
    var i := FirstFree(st.surfaces);
    if Validate(client.caps, p) != Ok || i == |st.surfaces| then (st, replied)
    else
      var s := st.surfaces[i].(inUse := true, id := st.nextSurface, owner := client.session, kind := p.kind,
                               x := p.x, y := p.y, width := p.width, height := p.height, layer := p.layer);
      var st' := st.(surfaces := st.surfaces[i := s], nextSurface := st.nextSurface + 1);
      if !replied then (st', false)
      else if p.layer == LAYER_APPLICATION
      then (st'.(focusSession := client.session, focusSurface := st.nextSurface), true)
      else (st', true)
  }

  function DoDestroy(st: State, c: nat, id: nat): (State, bool)
    requires c < |st.clients|
  {
    var i := Slot(st.surfaces, id);
    if i == |st.surfaces| || st.surfaces[i].owner != st.clients[c].session then (st, false)
    else (st.(surfaces := st.surfaces[i := EMPTY]), true)
  }

  /** The surfaces with the committed buffer in place. */
  function Attached(surfaces: seq<Surface>, p: CommitRequest, mapped: Buffer): seq<Surface>
    requires Slot(surfaces, p.id) < |surfaces|
  {
    var i := Slot(surfaces, p.id);
    surfaces[i := surfaces[i].(buffer := mapped, stride := p.stride, format := p.format)]
  }

  /** The client when a commit has taken its oldest pending descriptor. */
  function TakenFrom(client: Client): Client
    requires client.pending != []
  {
    client.(pending := client.pending[1..], taken := client.taken + client.pending[..1])
  }

  /** A commit uses up the first pending descriptor and closes it, whatever becomes of the commit. */
  function DoCommit(st: State, c: nat, p: CommitRequest, mapped: Buffer, shown: bool): (State, bool)
    requires c < |st.clients|
  {
    var client := st.clients[c];
    if client.pending == [] then (st, false)
    else
      var st' := CloseFds(SetClient(st, c, TakenFrom(client)), client.pending[..1]);
      if CommitStatus(st.surfaces, client.session, p) != Ok || mapped.Unmapped? then (st', false)
      else
        (st'.(surfaces := Attached(st.surfaces, p, mapped)), shown)
  }

  function DoSetPosition(st: State, id: nat, x: int, y: int, maxWidth: int, maxHeight: int, moved: bool): (State,
                         bool)
  {
    var i := Slot(st.surfaces, id);
    if i == |st.surfaces| then (st, true)
    else
      var s := st.surfaces[i];
      if x + s.width < 0 || x + s.width > maxWidth || y + s.height < 0 || y + s.height > maxHeight then (st, true)
      else (st.(surfaces := st.surfaces[i := s.(x := x, y := y)]), moved)
  }

  function DoSetFocus(st: State, id: nat): (State, bool) {
    if id == 0 then (st.(focusSession := 0, focusSurface := 0), true)
    else
      var i := Slot(st.surfaces, id);
      if i == |st.surfaces| then (st, false)
      else (st.(focusSession := st.surfaces[i].owner, focusSurface := id), true)
  }

  function DoSetState(st: State, id: nat, wmState: nat, redrawn: bool): (State, bool) {
    var i := Slot(st.surfaces, id);
    if i == |st.surfaces| then (st, redrawn)
    else (st.(surfaces := st.surfaces[i := st.surfaces[i].(wmState := wmState)]), redrawn)
  }

  /** Handling one message of client `c`; false means that the client is to be closed. */
  function Handle(st: State, c: nat, r: Request): (State, bool)
    requires c < |st.clients|
  {
    var client := st.clients[c];
    if client.hello == r.Hello? then (st, false)
    else
      match r
      case Hello(major, requested, written) => DoHello(st, c, major, requested, written)
      case Create(p, replied) => DoCreate(st, c, p, replied)
      case Destroy(id) => DoDestroy(st, c, id)
      case Commit(p, mapped, shown) => DoCommit(st, c, p, mapped, shown)
      case SetPosition(id, x, y, w, h, moved) =>
        if WindowManager in client.caps then DoSetPosition(st, id, x, y, w, h, moved) else (st, false)
      case SetFocus(id) => if WindowManager in client.caps then DoSetFocus(st, id) else (st, false)
      case SetState(id, state, redrawn) =>
        if WindowManager in client.caps then DoSetState(st, id, state, redrawn) else (st, false)
      case Other(need, done) => (st, need in client.caps && done)
      case Malformed => (st, false)
  }

  /** Frees the surfaces of a session. */
  function Release(surfaces: seq<Surface>, session: nat): (r: seq<Surface>)
    ensures |r| == |surfaces|
  {
    seq(|surfaces|, i requires 0 <= i < |surfaces| =>
      if surfaces[i].inUse && surfaces[i].owner == session then EMPTY else surfaces[i])
  }

  /** Disconnecting a client: its surfaces, its place in the list and its pending descriptors go. */
  function Close(st: State, c: nat): State
    requires c < |st.clients|
  {
    var client := st.clients[c];
    CloseFds(st, client.pending).(
      wm := if st.wm == client.session then 0 else st.wm,
      surfaces := Release(st.surfaces, client.session),
      clients := st.clients[..c] + st.clients[c + 1..])
  }

  /** A new connection, with the credentials of its peer. */
  function Accept(st: State, fd: int, uid: int): State {
    st.(clients := [Client(fd, uid, st.nextSession, {}, false, [], [], [])] + st.clients,
        nextSession := st.nextSession + 1)
  }

  datatype Event =
    | Connected(fd: int, uid: int)
    | NotRegistered                                     // a connection that could not be watched
    | Message(c: nat, r: Request)
    | Received(c: nat, fds: seq<int>, truncated: bool)  // descriptors that came with some bytes
    | HungUp(c: nat)
    | Pressed(x: int, y: int)                           // a pointer button, at this place of the display

  /** How many of the descriptors of one read the queue takes. */
  function Taken(pending: seq<int>, fds: seq<int>): nat {
    if |pending| + |fds| <= MAX_PENDING_FDS then |fds|
    else if |pending| <= MAX_PENDING_FDS then MAX_PENDING_FDS - |pending| else 0
  }

  /** The descriptors of one read go into the queue; the first one that does not fit is closed, the client
      is disconnected, and the ones behind it are forgotten. So are all of them when the read was truncated. */
  function Receive(st: State, c: nat, fds: seq<int>, truncated: bool): State
    requires c < |st.clients|
  {
    var got := Got(st, fds);
    if truncated then Close(Lose(got, fds), c)
    else
      var n := Taken(st.clients[c].pending, fds);
      if n == |fds| then Queue(got, c, fds)
      else Close(Refused(st, c, fds, n), c)
  }

  /** The queue has taken `n` descriptors; the next one is closed, the others are forgotten. */
  function Refused(st: State, c: nat, fds: seq<int>, n: nat): State
    requires c < |st.clients| && n < |fds|
  {
    Lose(CloseFds(Queue(Got(st, fds), c, fds[..n]), fds[n..n + 1]), fds[n + 1..])
  }

  function QueuedTo(client: Client, fds: seq<int>): Client {
    client.(pending := client.pending + fds, queued := client.queued + fds)
  }

  function Queue(st: State, c: nat, fds: seq<int>): State
    requires c < |st.clients|
  {
    SetClient(st, c, QueuedTo(st.clients[c], fds))
  }

  function Got(st: State, fds: seq<int>): State {
    st.(ledger := st.ledger.(received := st.ledger.received + multiset(fds)))
  }

  function Lose(st: State, fds: seq<int>): State {
    st.(ledger := st.ledger.(lost := st.ledger.lost + multiset(fds)))
  }

  /** The surface is an application's, is shown, and covers the point. */
  predicate Hit(s: Surface, wm: nat, x: int, y: int) {
    && s.inUse && (wm != 0 ==> s.owner != wm) && LAYER_APPLICATION <= s.layer < LAYER_SHELL
    && s.wmState != WM_HIDDEN && s.wmState != WM_MINIMIZED
    && s.x <= x < s.x + s.width && s.y <= y < s.y + s.height
  }

  /** The slot of the surface that a pointer event is for, among the first `n`: the first hit one of the
      highest layer that is hit; `n` if there is none. */
  function PointerTarget(surfaces: seq<Surface>, wm: nat, x: int, y: int, n: nat): (t: nat)
    requires n <= |surfaces|
    ensures t <= n && (t < n ==> Hit(surfaces[t], wm, x, y))
    ensures forall k :: 0 <= k < n && Hit(surfaces[k], wm, x, y) ==>
              t < n && surfaces[k].layer <= surfaces[t].layer && (k < t ==> surfaces[k].layer < surfaces[t].layer)
  {
    if n == 0 then 0
    else
      var t := PointerTarget(surfaces, wm, x, y, n - 1);
      if t == n - 1 then (if Hit(surfaces[n - 1], wm, x, y) then n - 1 else n)
      else if Hit(surfaces[n - 1], wm, x, y) && surfaces[n - 1].layer > surfaces[t].layer then n - 1
      else t
  }

  /** A press gives the keyboard focus to the surface under the pointer. */
  function Press(st: State, x: int, y: int): State {
    var t := PointerTarget(st.surfaces, st.wm, x, y, |st.surfaces|);
    if t == |st.surfaces| then st
    else st.(focusSession := st.surfaces[t].owner, focusSurface := st.surfaces[t].id)
  }

  function Next(st: State, ev: Event): State {
    match ev
    case Connected(fd, uid) => Accept(st, fd, uid)
    case NotRegistered => st.(nextSession := st.nextSession + 1)
    case Message(c, r) =>
      if c >= |st.clients| then st
      else var (st', ok) := Handle(st, c, r); if ok then st' else Close(st', c)
    case Received(c, fds, truncated) => if c >= |st.clients| then st else Receive(st, c, fds, truncated)
    case HungUp(c) => if c >= |st.clients| then st else Close(st, c)
    case Pressed(x, y) => Press(st, x, y)
  }

  // ------------------------------------------------------------ invariant

  ghost predicate ClientOk(c: Client, next: nat) {
    && 0 < c.session < next && c.caps <= Allowed(c.uid) && |c.pending| <= MAX_PENDING_FDS
    && (!c.hello ==> c.caps == {})
    && c.taken + c.pending == c.queued && ValidFds(c.queued)
  }

  /** File descriptors are not negative. */
  ghost predicate ValidFds(fds: seq<int>) {
    forall k :: 0 <= k < |fds| ==> fds[k] >= 0
  }

  ghost predicate ClientsOk(clients: seq<Client>, next: nat) {
    && (forall i :: 0 <= i < |clients| ==> ClientOk(clients[i], next))
    && (forall i, j :: 0 <= i < j < |clients| ==> clients[i].session != clients[j].session)
  }

  /** The client may own a surface of this layer. */
  ghost predicate MayOwn(c: Client, layer: nat) {
    c.hello && (layer >= LAYER_SHELL ==> c.uid == 0 && (LayerShell in c.caps || LunaIsland in c.caps))
  }

  ghost predicate Owned(clients: seq<Client>, s: Surface) {
    exists i :: 0 <= i < |clients| && clients[i].session == s.owner && MayOwn(clients[i], s.layer)
  }

  ghost predicate SurfaceOk(clients: seq<Client>, next: nat, s: Surface) {
    if s.inUse then 0 < s.id < next && WellMapped(s) && Owned(clients, s) && LayerOk(s.layer) else s == EMPTY
  }

  /** Below the shell there are only the wallpaper and the applications. */
  ghost predicate LayerOk(layer: nat) {
    layer < LAYER_SHELL ==> layer == LAYER_WALLPAPER || layer == LAYER_APPLICATION
  }

  ghost predicate SurfacesOk(clients: seq<Client>, surfaces: seq<Surface>, next: nat) {
    && |surfaces| == SURFACE_MAX
    && (forall i :: 0 <= i < |surfaces| ==> SurfaceOk(clients, next, surfaces[i]))
    && (forall i, j :: 0 <= i < j < |surfaces| && surfaces[i].inUse && surfaces[j].inUse ==>
          surfaces[i].id != surfaces[j].id)
  }

  ghost predicate ManagerOk(clients: seq<Client>, wm: nat) {
    wm != 0 ==> exists i :: 0 <= i < |clients| && clients[i].session == wm && Manages(clients[i])
  }

  ghost predicate Manages(c: Client) { c.hello && c.uid == 0 && WindowManager in c.caps }

  function Pending(clients: seq<Client>): multiset<int> {
    if clients == [] then multiset{} else multiset(clients[0].pending) + Pending(clients[1..])
  }

  /** Every received descriptor is closed once, still pending once, or lost. */
  ghost predicate Balanced(st: State) {
    st.ledger.received == st.ledger.closed + st.ledger.lost + Pending(st.clients)
  }

  /** If the surface with the focus still exists, the focused session owns it. */
  ghost predicate FocusOk(surfaces: seq<Surface>, next: nat, session: nat, id: nat) {
    && id < next
    && forall i :: 0 <= i < |surfaces| && surfaces[i].inUse && surfaces[i].id == id ==> surfaces[i].owner == session
  }

  /** What holds in every reachable state. */
  ghost predicate Inv(st: State) {
    && ClientsOk(st.clients, st.nextSession) && SurfacesOk(st.clients, st.surfaces, st.nextSurface)
    && ManagerOk(st.clients, st.wm) && st.nextSurface > 0 && st.nextSession > 0 && Balanced(st)
    && FocusOk(st.surfaces, st.nextSurface, st.focusSession, st.focusSurface)
  }

  /** A successful mapping has the size that was asked for. */
  ghost predicate RequestOk(r: Request) {
    r.Commit? && r.mapped.Mapped? ==> |r.mapped.bytes| == r.commit.size
  }

  ghost predicate EventOk(ev: Event) { (ev.Message? ==> RequestOk(ev.r)) && (ev.Received? ==> ValidFds(ev.fds)) }

  // --------------------------------------------------------- preservation

  /** Every client that has said hello is still there with the same rights. */
  ghost predicate RightsKept(a: seq<Client>, b: seq<Client>) {
    forall i :: 0 <= i < |a| && a[i].hello ==> RightsIn(a[i], b)
  }

  ghost predicate RightsIn(c: Client, b: seq<Client>) {
    exists j :: 0 <= j < |b| && b[j].session == c.session && b[j].uid == c.uid && b[j].caps == c.caps && b[j].hello
  }

  lemma StillOwned(a: seq<Client>, b: seq<Client>, next: nat, next': nat, s: Surface)
    requires SurfaceOk(a, next, s) && RightsKept(a, b) && next <= next'
    ensures SurfaceOk(b, next', s)
  {
    if s.inUse {
      var i :| 0 <= i < |a| && a[i].session == s.owner && MayOwn(a[i], s.layer);
      assert RightsIn(a[i], b);
      var j :| 0 <= j < |b| && b[j].session == a[i].session && b[j].uid == a[i].uid && b[j].caps == a[i].caps
               && b[j].hello;
      assert MayOwn(b[j], s.layer);
    }
  }

  lemma RightsSuffice(a: seq<Client>, b: seq<Client>, surfaces: seq<Surface>, next: nat, wm: nat)
    requires SurfacesOk(a, surfaces, next) && ManagerOk(a, wm) && RightsKept(a, b)
    ensures SurfacesOk(b, surfaces, next) && ManagerOk(b, wm)
  {
    forall i | 0 <= i < |surfaces| ensures SurfaceOk(b, next, surfaces[i]) {
      StillOwned(a, b, next, next, surfaces[i]);
    }
    if wm != 0 {
      var i :| 0 <= i < |a| && a[i].session == wm && Manages(a[i]);
      assert RightsIn(a[i], b);
      var j :| 0 <= j < |b| && b[j].session == a[i].session && b[j].uid == a[i].uid && b[j].caps == a[i].caps
               && b[j].hello;
      assert Manages(b[j]);
    }
  }

  /** Changing one client without taking away what it has after its hello. */
  lemma ClientChanged(clients: seq<Client>, next: nat, c: nat, client: Client)
    requires ClientsOk(clients, next) && c < |clients| && ClientOk(client, next)
    requires client.session == clients[c].session && client.uid == clients[c].uid
    requires clients[c].hello ==> client.hello && client.caps == clients[c].caps
    ensures ClientsOk(clients[c := client], next) && RightsKept(clients, clients[c := client])
  {
    var b := clients[c := client];
    forall i | 0 <= i < |clients| && clients[i].hello ensures RightsIn(clients[i], b) {
      assert b[i].session == clients[i].session && b[i].hello;
    }
  }

  lemma {:induction false} PendingRemoved(clients: seq<Client>, c: nat)
    requires c < |clients|
    ensures Pending(clients) == Pending(clients[..c] + clients[c + 1..]) + multiset(clients[c].pending)
    decreases |clients|
  {
    var b := clients[..c] + clients[c + 1..];
    if c == 0 {
      assert b == clients[1..];
    } else {
      PendingRemoved(clients[1..], c - 1);
      assert b[1..] == clients[1..][..c - 1] + clients[1..][c..];
    }
  }

  lemma SurfaceChanged(clients: seq<Client>, surfaces: seq<Surface>, next: nat, i: nat, s: Surface)
    requires SurfacesOk(clients, surfaces, next) && i < |surfaces| && SurfaceOk(clients, next, s)
    requires s.inUse ==> surfaces[i].inUse && s.id == surfaces[i].id
    ensures SurfacesOk(clients, surfaces[i := s], next)
  {
  }

  lemma PendingChanged(clients: seq<Client>, c: nat, client: Client)
    requires c < |clients|
    ensures var rest := Pending(clients[..c] + clients[c + 1..]);
            && Pending(clients) == rest + multiset(clients[c].pending)
            && Pending(clients[c := client]) == rest + multiset(client.pending)
  {
    var b := clients[c := client];
    PendingRemoved(clients, c);
    PendingRemoved(b, c);
    assert b[..c] == clients[..c] && b[c + 1..] == clients[c + 1..];
  }

  lemma HelloKeeps(st: State, c: nat, major: nat, requested: set<Cap>, written: bool)
    requires Inv(st) && c < |st.clients| && !st.clients[c].hello
    ensures var (st', ok) := DoHello(st, c, major, requested, written);
            |st'.clients| == |st.clients| && (if ok then Inv(st') else Inv(Close(st', c)))
  {
    var (st', ok) := DoHello(st, c, major, requested, written);
    if ok {
      Welcome(st, c, requested * Allowed(st.clients[c].uid));
    } else {
      CloseKeeps(st, c);
      assert Close(st', c) == Close(st, c) by { SameClosed(st, c, st'.clients[c]); }
    }
  }

  /** Closing does not depend on the rights of the closed client. */
  lemma SameClosed(st: State, c: nat, client: Client)
    requires c < |st.clients| && client.session == st.clients[c].session && client.pending == st.clients[c].pending
    ensures Close(SetClient(st, c, client), c) == Close(st, c)
  {
    var b := st.clients[c := client];
    assert b[..c] == st.clients[..c] && b[c + 1..] == st.clients[c + 1..];
  }

  lemma Welcome(st: State, c: nat, granted: set<Cap>)
    requires Inv(st) && c < |st.clients| && !st.clients[c].hello && granted <= Allowed(st.clients[c].uid)
    ensures var st' := SetClient(st, c, st.clients[c].(caps := granted, hello := true));
            Inv(if WindowManager in granted then st'.(wm := st.clients[c].session) else st')
  {
    var client := st.clients[c].(caps := granted, hello := true);
    var b := st.clients[c := client];
    ClientChanged(st.clients, st.nextSession, c, client);
    RightsSuffice(st.clients, b, st.surfaces, st.nextSurface, st.wm);
    SamePending(st, c, client);
    if WindowManager in granted {
      OnlyRoot(client.uid, granted);
      assert ManagerOk(b, client.session) by { assert b[c].session == client.session && Manages(b[c]); }
    }
  }

  lemma SamePending(st: State, c: nat, client: Client)
    requires Balanced(st) && c < |st.clients| && client.pending == st.clients[c].pending
    ensures Balanced(SetClient(st, c, client)) && Pending(st.clients[c := client]) == Pending(st.clients)
  {
    PendingChanged(st.clients, c, client);
  }

  lemma OnlyRoot(uid: int, caps: set<Cap>)
    requires caps <= Allowed(uid)
    ensures WindowManager in caps || LayerShell in caps || LunaIsland in caps ==> uid == 0
  {
    assert WindowManager in caps ==> WindowManager in Allowed(uid);
    assert LayerShell in caps ==> LayerShell in Allowed(uid);
    assert LunaIsland in caps ==> LunaIsland in Allowed(uid);
  }

  lemma CloseKeeps(st: State, c: nat)
    requires Inv(st) && c < |st.clients|
    ensures Inv(Close(st, c))
  {
    ClosedSurfaces(st, c);
    ClosedManager(st, c);
    PendingRemoved(st.clients, c);
  }

  lemma ClosedSurfaces(st: State, c: nat)
    requires Inv(st) && c < |st.clients|
    ensures var st' := Close(st, c); SurfacesOk(st'.clients, st'.surfaces, st'.nextSurface)
  {
    var st' := Close(st, c);
    forall i | 0 <= i < |st'.surfaces| ensures SurfaceOk(st'.clients, st.nextSurface, st'.surfaces[i]) {
      OwnerStays(st, c, st.surfaces[i]);
    }
  }

  lemma ClosedManager(st: State, c: nat)
    requires Inv(st) && c < |st.clients|
    ensures var st' := Close(st, c); ManagerOk(st'.clients, st'.wm) && ClientsOk(st'.clients, st'.nextSession)
  {
    var st' := Close(st, c);
    if st'.wm != 0 {
      var i :| 0 <= i < |st.clients| && st.clients[i].session == st.wm && Manages(st.clients[i]);
      assert st'.clients[if i < c then i else i - 1] == st.clients[i];
    }
  }

  lemma OwnerStays(st: State, c: nat, s: Surface)
    requires c < |st.clients| && SurfaceOk(st.clients, st.nextSurface, s)
    ensures s.inUse && s.owner != st.clients[c].session ==> Owned(Close(st, c).clients, s)
  {
    if s.inUse && s.owner != st.clients[c].session {
      var b := Close(st, c).clients;
      var i :| 0 <= i < |st.clients| && st.clients[i].session == s.owner && MayOwn(st.clients[i], s.layer);
      assert b[if i < c then i else i - 1] == st.clients[i];
    }
  }

  // ------------------------------------------------- the other handlers

  /** The invariant when only the surfaces and the focus change. */
  lemma SurfaceKeeps(st: State, i: nat, s: Surface)
    requires Inv(st) && i < |st.surfaces| && SurfaceOk(st.clients, st.nextSurface, s)
    requires s.inUse ==> st.surfaces[i].inUse && s.id == st.surfaces[i].id && s.owner == st.surfaces[i].owner
    ensures Inv(st.(surfaces := st.surfaces[i := s]))
  {
    SurfaceChanged(st.clients, st.surfaces, st.nextSurface, i, s);
  }

  /** A request is accepted only for layers that the client's capabilities reach. */
  lemma ValidateLayers(caps: set<Cap>, p: CreateRequest)
    requires Validate(caps, p) == Ok
    ensures p.layer >= LAYER_SHELL ==> LayerShell in caps || LunaIsland in caps
    ensures p.layer <= LAYER_SYSTEM_MODAL && LayerOk(p.layer)
  {
  }

  lemma CreateKeeps(st: State, c: nat, p: CreateRequest, replied: bool)
    requires Inv(st) && c < |st.clients| && st.clients[c].hello
    ensures var (st', _) := DoCreate(st, c, p, replied); st'.clients == st.clients && Inv(st')
  {
    var client, i := st.clients[c], FirstFree(st.surfaces);
    if Validate(client.caps, p) == Ok && i < |st.surfaces| {
      var s := DoCreate(st, c, p, replied).0.surfaces[i];
      ValidateLayers(client.caps, p);
      OnlyRoot(client.uid, client.caps);
      assert ClientOk(st.clients[c], st.nextSession) && SurfaceOk(st.clients, st.nextSurface, st.surfaces[i]);
      assert MayOwn(st.clients[c], s.layer);
      assert SurfaceOk(st.clients, st.nextSurface + 1, s);
      SurfaceAdded(st.clients, st.surfaces, st.nextSurface, i, s);
    }
  }

  lemma SurfaceAdded(clients: seq<Client>, surfaces: seq<Surface>, next: nat, i: nat, s: Surface)
    requires SurfacesOk(clients, surfaces, next) && i < |surfaces| && !surfaces[i].inUse
    requires s.inUse && s.id == next && SurfaceOk(clients, next + 1, s)
    ensures SurfacesOk(clients, surfaces[i := s], next + 1)
  {
    var b := surfaces[i := s];
    forall k | 0 <= k < |b| ensures SurfaceOk(clients, next + 1, b[k]) {
      assert SurfaceOk(clients, next, surfaces[k]);
    }
    forall k | 0 <= k < |surfaces| && surfaces[k].inUse ensures surfaces[k].id < next {
      assert SurfaceOk(clients, next, surfaces[k]);
    }
  }

  lemma DestroyKeeps(st: State, c: nat, id: nat)
    requires Inv(st) && c < |st.clients|
    ensures var (st', _) := DoDestroy(st, c, id); st'.clients == st.clients && Inv(st')
  {
    var i := Slot(st.surfaces, id);
    if i < |st.surfaces| { SurfaceKeeps(st, i, EMPTY); }
  }

  lemma CommitKeeps(st: State, c: nat, p: CommitRequest, mapped: Buffer, shown: bool)
    requires Inv(st) && c < |st.clients| && (mapped.Mapped? ==> |mapped.bytes| == p.size)
    ensures var (st', _) := DoCommit(st, c, p, mapped, shown); |st'.clients| == |st.clients| && Inv(st')
  {
    var client := st.clients[c];
    if client.pending != [] {
      var taken := CloseFds(SetClient(st, c, TakenFrom(client)), client.pending[..1]);
      TakeKeeps(st, c);
      if CommitStatus(st.surfaces, client.session, p) == Ok && mapped.Mapped? {
        var i := Slot(st.surfaces, p.id);
        var s := st.surfaces[i].(buffer := mapped, stride := p.stride, format := p.format);
        assert SurfaceOk(taken.clients, st.nextSurface, st.surfaces[i]);
        SameOwner(taken.clients, st.nextSurface, st.surfaces[i], s);
        SurfaceKeeps(taken, i, s);
      }
    }
  }

  /** A surface that keeps its owner and layer and is well mapped stays in order. */
  lemma SameOwner(clients: seq<Client>, next: nat, s: Surface, s': Surface)
    requires s.inUse && SurfaceOk(clients, next, s) && WellMapped(s')
    requires s'.inUse && s'.id == s.id && s'.owner == s.owner && s'.layer == s.layer
    ensures SurfaceOk(clients, next, s')
  {
  }

  lemma TakeKeeps(st: State, c: nat)
    requires Inv(st) && c < |st.clients| && st.clients[c].pending != []
    ensures var client := st.clients[c];
            Inv(CloseFds(SetClient(st, c, TakenFrom(client)), client.pending[..1]))
  {
    var client := st.clients[c];
    assert ClientOk(client, st.nextSession);
    assert client.pending == client.pending[..1] + client.pending[1..];
    InOrder(client.taken, client.pending[..1], client.pending[1..]);
    QueueKeeps(st, c, TakenFrom(client));
    PendingChanged(st.clients, c, TakenFrom(client));
  }

  lemma InOrder(a: seq<int>, b: seq<int>, c: seq<int>)
    ensures a + (b + c) == (a + b) + c
  {
  }

  /** Changing the queue of a client keeps everything but perhaps the balance. */
  lemma QueueKeeps(st: State, c: nat, client: Client)
    requires Inv(st) && c < |st.clients| && |client.pending| <= MAX_PENDING_FDS
    requires client.taken + client.pending == client.queued && ValidFds(client.queued)
    requires client == st.clients[c].(pending := client.pending, queued := client.queued, taken := client.taken)
    ensures var b := st.clients[c := client];
            ClientsOk(b, st.nextSession) && SurfacesOk(b, st.surfaces, st.nextSurface) && ManagerOk(b, st.wm)
  {
    assert ClientOk(st.clients[c], st.nextSession);
    ClientChanged(st.clients, st.nextSession, c, client);
    RightsSuffice(st.clients, st.clients[c := client], st.surfaces, st.nextSurface, st.wm);
  }

  lemma MoveKeeps(st: State, id: nat, x: int, y: int, w: int, h: int, moved: bool)
    requires Inv(st)
    ensures var (st', _) := DoSetPosition(st, id, x, y, w, h, moved); st'.clients == st.clients && Inv(st')
  {
    var i := Slot(st.surfaces, id);
    if i < |st.surfaces| {
      var s := st.surfaces[i];
      assert SurfaceOk(st.clients, st.nextSurface, s);
      SameOwner(st.clients, st.nextSurface, s, s.(x := x, y := y));
      SurfaceKeeps(st, i, s.(x := x, y := y));
    }
  }

  lemma SetStateKeeps(st: State, id: nat, wmState: nat, redrawn: bool)
    requires Inv(st)
    ensures var (st', _) := DoSetState(st, id, wmState, redrawn); st'.clients == st.clients && Inv(st')
  {
    var i := Slot(st.surfaces, id);
    if i < |st.surfaces| {
      var s := st.surfaces[i];
      assert SurfaceOk(st.clients, st.nextSurface, s);
      SameOwner(st.clients, st.nextSurface, s, s.(wmState := wmState));
      SurfaceKeeps(st, i, s.(wmState := wmState));
    }
  }

  /** A message leaves the invariant intact, also when the client is closed for it. */
  lemma MessageKeeps(st: State, c: nat, r: Request)
    requires Inv(st) && c < |st.clients| && RequestOk(r)
    ensures var (st', ok) := Handle(st, c, r);
            |st'.clients| == |st.clients| && (if ok then Inv(st') else Inv(Close(st', c)))
  {
    var (st', ok) := Handle(st, c, r);
    if r.Hello? && !st.clients[c].hello {
      HelloKeeps(st, c, r.major, r.requested, r.written);
    } else {
      OtherMessageKeeps(st, c, r);
      if !ok { CloseKeeps(st', c); }
    }
  }

  lemma OtherMessageKeeps(st: State, c: nat, r: Request)
    requires Inv(st) && c < |st.clients| && RequestOk(r) && (r.Hello? ==> st.clients[c].hello)
    ensures var (st', _) := Handle(st, c, r); |st'.clients| == |st.clients| && Inv(st')
  {
    if st.clients[c].hello && !r.Hello? {
      match r
      case Hello(_, _, _) =>
      case Create(p, replied) => CreateKeeps(st, c, p, replied);
      case Destroy(id) => DestroyKeeps(st, c, id);
      case Commit(p, mapped, shown) => CommitKeeps(st, c, p, mapped, shown);
      case SetPosition(id, x, y, w, h, moved) => MoveKeeps(st, id, x, y, w, h, moved);
      case SetFocus(id) => FocusKeeps(st, id);
      case SetState(id, state, redrawn) => SetStateKeeps(st, id, state, redrawn);
      case Other(need, done) =>
      case Malformed =>
    }
  }

  lemma FocusKeeps(st: State, id: nat)
    requires Inv(st)
    ensures var (st', _) := DoSetFocus(st, id); st'.clients == st.clients && Inv(st')
  {
    var i := Slot(st.surfaces, id);
    if i < |st.surfaces| { assert SurfaceOk(st.clients, st.nextSurface, st.surfaces[i]); }
    forall k | 0 <= k < |st.surfaces| ensures st.surfaces[k].inUse ==> st.surfaces[k].id > 0 {
      assert SurfaceOk(st.clients, st.nextSurface, st.surfaces[k]);
    }
  }

  lemma ReceiveKeeps(st: State, c: nat, fds: seq<int>, truncated: bool)
    requires Inv(st) && c < |st.clients| && ValidFds(fds)
    ensures Inv(Receive(st, c, fds, truncated))
  {
    assert ClientOk(st.clients[c], st.nextSession);
    if truncated {
      LoseKeeps(st, fds);
      CloseKeeps(Lose(Got(st, fds), fds), c);
    } else if Taken(st.clients[c].pending, fds) == |fds| {
      AllQueued(st, c, fds);
    } else {
      SomeRefused(st, c, fds);
    }
  }

  lemma AllQueued(st: State, c: nat, fds: seq<int>)
    requires Inv(st) && c < |st.clients| && |st.clients[c].pending| + |fds| <= MAX_PENDING_FDS && ValidFds(fds)
    ensures Inv(Receive(st, c, fds, false))
  {
    assert fds[..|fds|] == fds;
    Queued(st, c, fds, |fds|, [], []);
    NothingElse(Queue(Got(st, fds), c, fds));
  }

  lemma SomeRefused(st: State, c: nat, fds: seq<int>)
    requires Inv(st) && c < |st.clients| && ValidFds(fds)
    requires |st.clients[c].pending| <= MAX_PENDING_FDS < |st.clients[c].pending| + |fds|
    ensures Inv(Receive(st, c, fds, false))
  {
    var n := Taken(st.clients[c].pending, fds);
    RefusedKeeps(st, c, fds, n);
    CloseKeeps(Refused(st, c, fds, n), c);
  }

  lemma RefusedKeeps(st: State, c: nat, fds: seq<int>, n: nat)
    requires Inv(st) && c < |st.clients| && ValidFds(fds) && n < |fds| && |st.clients[c].pending| + n <= MAX_PENDING_FDS
    ensures Inv(Refused(st, c, fds, n)) && |Refused(st, c, fds, n).clients| == |st.clients|
  {
    assert fds[n..] == fds[n..n + 1] + fds[n + 1..];
    Queued(st, c, fds, n, fds[n..n + 1], fds[n + 1..]);
  }

  lemma LoseKeeps(st: State, fds: seq<int>)
    requires Inv(st)
    ensures Inv(Lose(Got(st, fds), fds))
  {
  }

  lemma NothingElse(st: State)
    ensures Lose(CloseFds(st, []), []) == st
  {
    assert st.ledger.closed + multiset([]) == st.ledger.closed && st.ledger.lost + multiset([]) == st.ledger.lost;
  }

  /** Received descriptors go into the queue, or are closed, or are lost. */
  lemma Queued(st: State, c: nat, fds: seq<int>, n: nat, closed: seq<int>, lost: seq<int>)
    requires Inv(st) && c < |st.clients| && n <= |fds| && |st.clients[c].pending| + n <= MAX_PENDING_FDS
    requires fds[n..] == closed + lost && ValidFds(fds)
    ensures Inv(Lose(CloseFds(Queue(Got(st, fds), c, fds[..n]), closed), lost))
  {
    var client := st.clients[c];
    assert ClientOk(client, st.nextSession);
    InOrder(client.taken, client.pending, fds[..n]);
    QueueKeeps(st, c, QueuedTo(client, fds[..n]));
    PendingChanged(st.clients, c, QueuedTo(client, fds[..n]));
    QueuedBalance(st.ledger, Pending(st.clients[..c] + st.clients[c + 1..]), client.pending, fds, n, closed, lost);
  }

  lemma QueuedBalance(l: Ledger, rest: multiset<int>, pending: seq<int>, fds: seq<int>, n: nat, closed: seq<int>,
                      lost: seq<int>)
    requires n <= |fds| && fds[n..] == closed + lost && l.received == l.closed + l.lost + (rest + multiset(pending))
    ensures l.received + multiset(fds)
            == (l.closed + multiset(closed)) + (l.lost + multiset(lost)) + (rest + multiset(pending + fds[..n]))
  {
    assert fds == fds[..n] + (closed + lost);
  }

  lemma AcceptKeeps(st: State, fd: int, uid: int)
    requires Inv(st)
    ensures Inv(Accept(st, fd, uid))
  {
    var st' := Accept(st, fd, uid);
    forall i | 0 <= i < |st.clients| && st.clients[i].hello ensures RightsIn(st.clients[i], st'.clients) {
      assert st'.clients[i + 1] == st.clients[i];
    }
    RightsSuffice(st.clients, st'.clients, st.surfaces, st.nextSurface, st.wm);
    assert st'.clients[1..] == st.clients;
    NewClientOk(st.clients, st.nextSession, st'.clients[0]);
  }

  lemma NewClientOk(clients: seq<Client>, next: nat, client: Client)
    requires ClientsOk(clients, next) && client.session == next && ClientOk(client, next + 1)
    ensures ClientsOk([client] + clients, next + 1)
  {
    var b := [client] + clients;
    forall i | 0 < i < |b| ensures ClientOk(b[i], next + 1) && b[i].session < next {
      assert ClientOk(clients[i - 1], next);
    }
  }

  lemma EventKeeps(st: State, ev: Event)
    requires Inv(st) && EventOk(ev)
    ensures Inv(Next(st, ev))
  {
    match ev
    case Connected(fd, uid) => AcceptKeeps(st, fd, uid);
    case NotRegistered => LaterSession(st);
    case Message(c, r) => if c < |st.clients| { MessageKeeps(st, c, r); }
    case Received(c, fds, truncated) => if c < |st.clients| { ReceiveKeeps(st, c, fds, truncated); }
    case HungUp(c) => if c < |st.clients| { CloseKeeps(st, c); }
    case Pressed(x, y) => PressKeeps(st, x, y);
  }

  lemma PressKeeps(st: State, x: int, y: int)
    requires Inv(st)
    ensures Inv(Press(st, x, y))
  {
    var t := PointerTarget(st.surfaces, st.wm, x, y, |st.surfaces|);
    if t < |st.surfaces| { assert SurfaceOk(st.clients, st.nextSurface, st.surfaces[t]); }
  }

  lemma LaterSession(st: State)
    requires Inv(st)
    ensures Inv(st.(nextSession := st.nextSession + 1))
  {
    forall i | 0 <= i < |st.clients| ensures ClientOk(st.clients[i], st.nextSession + 1) {
      assert ClientOk(st.clients[i], st.nextSession);
    }
  }

  // -------------------------------------------------------------- all runs

  const NO_SURFACES: seq<Surface> := seq(SURFACE_MAX, i => EMPTY)

  const START := State([], 1, NO_SURFACES, 1, 0, 0, 0, Ledger(multiset{}, multiset{}, multiset{}))

  function Run(st: State, events: seq<Event>): State
    decreases |events|
  {
    if events == [] then st else Run(Next(st, events[0]), events[1..])
  }

  lemma {:induction false} RunKeeps(st: State, events: seq<Event>)
    requires Inv(st) && forall k :: 0 <= k < |events| ==> EventOk(events[k])
    ensures Inv(Run(st, events))
    decreases |events|
  {
    if events != [] {
      EventKeeps(st, events[0]);
      RunKeeps(Next(st, events[0]), events[1..]);
    }
  }

  /** Every reachable state of the compositor is in order. */
  lemma AlwaysInOrder(events: seq<Event>)
    requires forall k :: 0 <= k < |events| ==> EventOk(events[k])
    ensures Inv(Run(START, events))
  {
    RunKeeps(START, events);
  }

  /** So painting the scene of a reachable state stays inside the mapped buffers. */
  lemma ScenePaintable(st: State)
    requires Inv(st)
    ensures AllMapped(st.surfaces)
  {
    forall i | 0 <= i < SURFACE_MAX ensures WellMapped(st.surfaces[i]) {
      assert SurfaceOk(st.clients, st.nextSurface, st.surfaces[i]);
    }
  }

  // ------------------------------------------------------- pointer presses

  /** In a reachable state a press reaches, of all application windows under the pointer, the one that is
      painted first, which all the others cover. */
  lemma PressReachesLowest(st: State, x: int, y: int, k: nat)
    requires Inv(st) && k < |st.surfaces| && Hit(st.surfaces[k], st.wm, x, y)
    ensures var t := PointerTarget(st.surfaces, st.wm, x, y, |st.surfaces|);
            t < |st.surfaces| && Rank(st.surfaces, t) <= Rank(st.surfaces, k)
  {
    var t := PointerTarget(st.surfaces, st.wm, x, y, |st.surfaces|);
    assert SurfaceOk(st.clients, st.nextSurface, st.surfaces[t]);
    assert SurfaceOk(st.clients, st.nextSurface, st.surfaces[k]);
  }

  /** So a press reaches the topmost window under the pointer exactly if there is only one. */
  lemma PressReachesTopmost(st: State, x: int, y: int, t: nat)
    requires Inv(st) && t == PointerTarget(st.surfaces, st.wm, x, y, |st.surfaces|) < |st.surfaces|
    ensures (forall k: nat :: k < |st.surfaces| && Hit(st.surfaces[k], st.wm, x, y) ==>
               Rank(st.surfaces, k) <= Rank(st.surfaces, t))
            <==> (forall k: nat :: k < |st.surfaces| && Hit(st.surfaces[k], st.wm, x, y) ==> k == t)
  {
    forall k: nat | k < |st.surfaces| && Hit(st.surfaces[k], st.wm, x, y)
      ensures Rank(st.surfaces, t) <= Rank(st.surfaces, k) && (Rank(st.surfaces, t) == Rank(st.surfaces, k) ==> t == k)
    {
      PressReachesLowest(st, x, y, k);
      assert SurfaceOk(st.clients, st.nextSurface, st.surfaces[t]);
      assert SurfaceOk(st.clients, st.nextSurface, st.surfaces[k]);
    }
  }

  /** A run in which it does not: a client opens two windows over the same place and the pointer is pressed there. */
  lemma LowestFromStart(fd: int, uid: int, p: CreateRequest, x: int, y: int)
    requires p.kind == APPLICATION_WINDOW && p.layer == LAYER_APPLICATION && InDisplay(p)
    requires p.x <= x < p.x + p.width && p.y <= y < p.y + p.height
    ensures var st := Run(START, TwoWindows(fd, uid, p));
            && |st.surfaces| == SURFACE_MAX && Hit(st.surfaces[0], st.wm, x, y) && Hit(st.surfaces[1], st.wm, x, y)
            && Rank(st.surfaces, 0) < Rank(st.surfaces, 1) && st.surfaces[0].id == 1
            && st.focusSurface == 2 && Next(st, Pressed(x, y)).focusSurface == 1
  {
    var events := TwoWindows(fd, uid, p);
    var st1 := Next(START, events[0]);
    var st2 := Next(st1, events[1]);
    var st3 := Next(st2, events[2]);
    var st4 := Next(st3, events[3]);
    FourEvents(START, events);
    assert |st1.clients| == 1 && !st1.clients[0].hello && st1.clients[0].session == 1;
    assert |st2.clients| == 1 && st2.clients[0].hello && st2.wm == 0 && st2.surfaces == NO_SURFACES;
    assert FirstFree(st2.surfaces) == 0;
    assert st3.surfaces[0].inUse && forall k :: 1 <= k < SURFACE_MAX ==> st3.surfaces[k] == EMPTY;
    assert FirstFree(st3.surfaces) == 1;
    assert PointerTarget(st4.surfaces, 0, x, y, SURFACE_MAX) == 0;
  }

  function TwoWindows(fd: int, uid: int, p: CreateRequest): seq<Event> {
    [Connected(fd, uid), Message(0, Hello(VERSION_MAJOR, {}, true)),
     Message(0, Create(p, true)), Message(0, Create(p, true))]
  }

  lemma FourEvents(st: State, events: seq<Event>)
    requires |events| == 4
    ensures Run(st, events) == Next(Next(Next(Next(st, events[0]), events[1]), events[2]), events[3])
  {
    var a, b, c := events[1..], events[2..], events[3..];
    assert a[1..] == b && b[1..] == c && c[1..] == [];
    var st3 := Next(Next(Next(st, events[0]), events[1]), events[2]);
    assert Run(st3, c) == Run(Next(st3, c[0]), []);
    assert Run(Next(Next(st, events[0]), events[1]), b) == Run(st3, c);
  }

  // ---------------------------------------------------- first in, first out

  /** The descriptors that an event brings from a session. */
  function SentIn(st: State, ev: Event, session: nat): seq<int> {
    if ev.Received? && ev.c < |st.clients| && st.clients[ev.c].session == session then ev.fds else []
  }

  /** All descriptors that the events bring from a session, in order. */
  function Sent(st: State, events: seq<Event>, session: nat): seq<int>
    decreases |events|
  {
    if events == [] then [] else SentIn(st, events[0], session) + Sent(Next(st, events[0]), events[1..], session)
  }

  /** What a session's queue has seen; nothing if there is no such client. */
  function QueuedOf(clients: seq<Client>, session: nat): seq<int> {
    if clients == [] then []
    else if clients[0].session == session then clients[0].queued
    else QueuedOf(clients[1..], session)
  }

  lemma {:induction false} QueuedOfClient(clients: seq<Client>, next: nat, i: nat)
    requires ClientsOk(clients, next) && i < |clients|
    ensures QueuedOf(clients, clients[i].session) == clients[i].queued
    decreases i
  {
    if i > 0 { QueuedOfClient(clients[1..], next, i - 1); }
  }

  lemma {:induction false} QueuedOfNobody(clients: seq<Client>, session: nat)
    requires forall j :: 0 <= j < |clients| ==> clients[j].session != session
    ensures QueuedOf(clients, session) == []
    decreases |clients|
  {
    if clients != [] { QueuedOfNobody(clients[1..], session); }
  }

  /** The client was there before the event, which may have added to its queue, or it is new. */
  ghost predicate Came(st: State, ev: Event, k: Client) {
    || (k.session >= st.nextSession && k.queued == [])
    || exists j :: 0 <= j < |st.clients| && st.clients[j].session == k.session
                   && k.queued == st.clients[j].queued + SentIn(st, ev, k.session)
  }

  lemma StepCame(st: State, ev: Event, i: nat)
    requires Inv(st) && i < |Next(st, ev).clients|
    ensures Came(st, ev, Next(st, ev).clients[i]) && st.nextSession <= Next(st, ev).nextSession
  {
    var k := Next(st, ev).clients[i];
    match ev
    case Connected(fd, uid) => if i > 0 { Stayed(st, ev, k, i - 1); }
    case NotRegistered => Stayed(st, ev, k, i);
    case Message(c, r) => if c < |st.clients| { MessageCame(st, c, r, i); } else { Stayed(st, ev, k, i); }
    case Received(c, fds, truncated) =>
      if c < |st.clients| { ReceiveCame(st, c, fds, truncated, i); } else { Stayed(st, ev, k, i); }
    case HungUp(c) => Stayed(st, ev, k, if c < |st.clients| && i >= c then i + 1 else i);
    case Pressed(x, y) => Stayed(st, ev, k, i);
  }

  lemma Stayed(st: State, ev: Event, k: Client, j: nat)
    requires j < |st.clients| && st.clients[j].session == k.session
    requires k.queued == st.clients[j].queued + SentIn(st, ev, k.session)
    ensures Came(st, ev, k)
  {
  }

  /** Messages leave the sessions and what their queues have seen alone. */
  lemma MessageCame(st: State, c: nat, r: Request, i: nat)
    requires Inv(st) && c < |st.clients| && i < |Next(st, Message(c, r)).clients|
    ensures Came(st, Message(c, r), Next(st, Message(c, r)).clients[i])
    ensures Next(st, Message(c, r)).nextSession == st.nextSession
  {
    var (st', ok) := Handle(st, c, r);
    SameQueues(st, c, r);
    Stayed(st, Message(c, r), Next(st, Message(c, r)).clients[i], if !ok && i >= c then i + 1 else i);
  }

  lemma SameQueues(st: State, c: nat, r: Request)
    requires c < |st.clients|
    ensures var st' := Handle(st, c, r).0;
            && |st'.clients| == |st.clients| && st'.nextSession == st.nextSession
            && forall j :: 0 <= j < |st.clients| ==>
                 st'.clients[j].session == st.clients[j].session && st'.clients[j].queued == st.clients[j].queued
  {
  }

  lemma ReceiveCame(st: State, c: nat, fds: seq<int>, truncated: bool, i: nat)
    requires Inv(st) && c < |st.clients| && i < |Receive(st, c, fds, truncated).clients|
    ensures Came(st, Received(c, fds, truncated), Receive(st, c, fds, truncated).clients[i])
    ensures Receive(st, c, fds, truncated).nextSession == st.nextSession
  {
    var st', ev := Receive(st, c, fds, truncated), Received(c, fds, truncated);
    if !truncated && Taken(st.clients[c].pending, fds) == |fds| {
      Stayed(st, ev, st'.clients[i], i);
    } else {
      Stayed(st, ev, st'.clients[i], if i >= c then i + 1 else i);
    }
  }

  /** A client's queue has seen, after any events, what it had seen before and what the events brought from it. */
  lemma {:induction false} RunQueues(st: State, events: seq<Event>, i: nat)
    requires Inv(st) && (forall k :: 0 <= k < |events| ==> EventOk(events[k])) && i < |Run(st, events).clients|
    ensures var k := Run(st, events).clients[i];
            && k.queued == QueuedOf(st.clients, k.session) + Sent(st, events, k.session)
            && (k.session < st.nextSession ==> Known(st.clients, k.session))
    decreases |events|
  {
    if events == [] {
      QueuedOfClient(st.clients, st.nextSession, i);
    } else {
      var st', rest := Next(st, events[0]), events[1..];
      EventKeeps(st, events[0]);
      RunQueues(st', rest, i);
      OneMoreEvent(st, events[0], Run(st', rest).clients[i], Sent(st', rest, Run(st', rest).clients[i].session));
    }
  }

  ghost predicate Known(clients: seq<Client>, session: nat) {
    exists j :: 0 <= j < |clients| && clients[j].session == session
  }

  lemma OneMoreEvent(st: State, ev: Event, k: Client, later: seq<int>)
    requires Inv(st) && Inv(Next(st, ev)) && k.queued == QueuedOf(Next(st, ev).clients, k.session) + later
    requires k.session < Next(st, ev).nextSession ==> Known(Next(st, ev).clients, k.session)
    ensures k.queued == QueuedOf(st.clients, k.session) + (SentIn(st, ev, k.session) + later)
    ensures k.session < st.nextSession ==> Known(st.clients, k.session)
  {
    if Known(Next(st, ev).clients, k.session) {
      WasThere(st, ev, Next(st, ev), k.session);
      InOrder(QueuedOf(st.clients, k.session), SentIn(st, ev, k.session), later);
    } else {
      NextSessionGrows(st, ev);
      QueuedOfNobody(Next(st, ev).clients, k.session);
      NotYet(st, ev, k.session);
    }
  }

  lemma WasThere(st: State, ev: Event, st': State, session: nat)
    requires Inv(st) && Inv(st') && st' == Next(st, ev) && Known(st'.clients, session)
    ensures QueuedOf(st'.clients, session) == QueuedOf(st.clients, session) + SentIn(st, ev, session)
    ensures session < st.nextSession ==> Known(st.clients, session)
  {
    var j :| 0 <= j < |st'.clients| && st'.clients[j].session == session;
    QueuedOfClient(st'.clients, st'.nextSession, j);
    StepCame(st, ev, j);
    OldQueue(st, ev, st'.clients[j]);
  }

  lemma NextSessionGrows(st: State, ev: Event)
    requires Inv(st)
    ensures st.nextSession <= Next(st, ev).nextSession
  {
    match ev
    case Message(c, r) => if c < |st.clients| { SameQueues(st, c, r); }
    case _ =>
  }

  /** A session that has not begun has sent nothing. */
  lemma NotYet(st: State, ev: Event, session: nat)
    requires Inv(st) && session >= st.nextSession
    ensures QueuedOf(st.clients, session) == [] && SentIn(st, ev, session) == []
  {
    forall j | 0 <= j < |st.clients| ensures st.clients[j].session != session {
      assert ClientOk(st.clients[j], st.nextSession);
    }
    QueuedOfNobody(st.clients, session);
  }

  lemma OldQueue(st: State, ev: Event, k: Client)
    requires Inv(st) && Came(st, ev, k)
    ensures k.queued == QueuedOf(st.clients, k.session) + SentIn(st, ev, k.session)
    ensures k.session < st.nextSession ==> Known(st.clients, k.session)
  {
    if k.session >= st.nextSession {
      NotYet(st, ev, k.session);
    } else {
      var j :| 0 <= j < |st.clients| && st.clients[j].session == k.session
               && k.queued == st.clients[j].queued + SentIn(st, ev, k.session);
      QueuedOfClient(st.clients, st.nextSession, j);
    }
  }

  /** In every reachable state, the descriptors that a client's commits have used, followed by the pending ones,
      are the descriptors that the client has sent, in the order in which it sent them. */
  lemma FirstInFirstOut(events: seq<Event>, i: nat)
    requires (forall k :: 0 <= k < |events| ==> EventOk(events[k])) && i < |Run(START, events).clients|
    ensures var k := Run(START, events).clients[i]; k.taken + k.pending == Sent(START, events, k.session)
  {
    AlwaysInOrder(events);
    RunQueues(START, events, i);
    var st := Run(START, events);
    assert ClientOk(st.clients[i], st.nextSession);
    assert QueuedOf(START.clients, st.clients[i].session) == [];
  }

  // ------------------------------------------------------ lost descriptors

  /** Descriptors are lost exactly when a read brings two or more than the queue has room for, or is truncated. */
  ghost predicate Lossy(st: State, ev: Event) {
    && ev.Received? && ev.c < |st.clients|
    && if ev.truncated then ev.fds != [] else |st.clients[ev.c].pending| + |ev.fds| > MAX_PENDING_FDS + 1
  }

  lemma LostOnlyThen(st: State, ev: Event)
    requires Inv(st)
    ensures st.ledger.lost <= Next(st, ev).ledger.lost
    ensures Next(st, ev).ledger.lost == st.ledger.lost <==> !Lossy(st, ev)
  {
    match ev
    case Received(c, fds, truncated) => if c < |st.clients| { LostByRead(st, c, fds, truncated); }
    case Message(c, r) => if c < |st.clients| { LedgerOfMessage(st, c, r); }
    case _ =>
  }

  lemma LedgerOfMessage(st: State, c: nat, r: Request)
    requires c < |st.clients|
    ensures var (st', _) := Handle(st, c, r);
            |st'.clients| == |st.clients| && st'.ledger.lost == st.ledger.lost
  {
  }

  lemma LostByRead(st: State, c: nat, fds: seq<int>, truncated: bool)
    requires Inv(st) && c < |st.clients|
    ensures var lost := Receive(st, c, fds, truncated).ledger.lost;
            st.ledger.lost <= lost && (lost == st.ledger.lost <==> !Lossy(st, Received(c, fds, truncated)))
  {
    LostFds(st, c, fds, truncated);
    LostMore(st.ledger.lost, Forgotten(st.clients[c].pending, fds, truncated));
    assert ClientOk(st.clients[c], st.nextSession);
  }

  /** The descriptors of a read that are forgotten. */
  function Forgotten(pending: seq<int>, fds: seq<int>, truncated: bool): seq<int> {
    var n := Taken(pending, fds);
    if truncated then fds else if n < |fds| then fds[n + 1..] else []
  }

  lemma LostFds(st: State, c: nat, fds: seq<int>, truncated: bool)
    requires c < |st.clients|
    ensures Receive(st, c, fds, truncated).ledger.lost
            == st.ledger.lost + multiset(Forgotten(st.clients[c].pending, fds, truncated))
  {
    assert st.ledger.lost + multiset([]) == st.ledger.lost;
  }

  lemma LostMore(lost: multiset<int>, fds: seq<int>)
    ensures lost <= lost + multiset(fds) && (lost + multiset(fds) == lost <==> fds == [])
  {
    if fds != [] { assert (lost + multiset(fds))[fds[0]] > lost[fds[0]]; }
  }

  ghost predicate Lossless(st: State, events: seq<Event>)
    decreases |events|
  {
    events == [] || (!Lossy(st, events[0]) && Lossless(Next(st, events[0]), events[1..]))
  }

  lemma {:induction false} LostInRun(st: State, events: seq<Event>)
    requires Inv(st) && forall k :: 0 <= k < |events| ==> EventOk(events[k])
    ensures st.ledger.lost <= Run(st, events).ledger.lost
    ensures Run(st, events).ledger.lost == st.ledger.lost <==> Lossless(st, events)
    decreases |events|
  {
    if events != [] {
      EventKeeps(st, events[0]);
      LostOnlyThen(st, events[0]);
      LostInRun(Next(st, events[0]), events[1..]);
    }
  }

  /** When the last client has gone, each descriptor that was received has been closed exactly once, provided
      no read was lossy; otherwise some were never closed. */
  lemma ClosedOnce(events: seq<Event>)
    requires forall k :: 0 <= k < |events| ==> EventOk(events[k])
    requires Run(START, events).clients == []
    ensures var ledger := Run(START, events).ledger;
            (ledger.closed == ledger.received <==> Lossless(START, events)) && ledger.closed <= ledger.received
  {
    AlwaysInOrder(events);
    LostInRun(START, events);
    NothingPending(Run(START, events).ledger);
  }

  lemma NothingPending(ledger: Ledger)
    requires ledger.received == ledger.closed + ledger.lost + multiset{}
    ensures ledger.closed == ledger.received <==> ledger.lost == multiset{}
    ensures ledger.closed <= ledger.received
  {
    if ledger.closed == ledger.received {
      forall fd ensures ledger.lost[fd] == 0 {
        assert ledger.received[fd] == ledger.closed[fd] + ledger.lost[fd];
      }
    }
  }

  /** For example, when the queue is full and a read brings two descriptors, the second is never closed. */
  lemma SecondIsLost(st: State, c: nat, fd0: int, fd1: int)
    requires c < |st.clients| && |st.clients[c].pending| == MAX_PENDING_FDS
    ensures var st' := Next(st, Received(c, [fd0, fd1], false));
            && st'.clients == st.clients[..c] + st.clients[c + 1..]
            && st'.ledger.closed == st.ledger.closed + multiset{fd0} + multiset(st.clients[c].pending)
            && st'.ledger.lost == st.ledger.lost + multiset{fd1}
  {
    var fds, client := [fd0, fd1], st.clients[c];
    assert fds[0..1] == [fd0] && fds[1..] == [fd1];
    assert QueuedTo(client, fds[..0]) == client && st.clients[c := client] == st.clients;
    assert Queue(Got(st, fds), c, fds[..0]) == Got(st, fds);
    assert Receive(st, c, fds, false) == Close(Lose(CloseFds(Got(st, fds), [fd0]), [fd1]), c);
  }

  /** A run in which that happens: a client sends as many descriptors as the queue holds, then two more. */
  lemma LostFromStart(fd: int, uid: int, first: seq<int>, fd0: int, fd1: int)
    requires |first| == MAX_PENDING_FDS
    ensures var ledger := Run(START, Overflow(fd, uid, first, fd0, fd1)).ledger;
            && Run(START, Overflow(fd, uid, first, fd0, fd1)).clients == []
            && ledger.closed == multiset{fd0} + multiset(first) && ledger.lost == multiset{fd1}
  {
    var st1 := Next(START, Connected(fd, uid));
    var st2 := Next(st1, Received(0, first, false));
    assert st1.clients == [Client(fd, uid, 1, {}, false, [], [], [])] && st1.ledger == START.ledger;
    QueueFilled(st1, first);
    SecondIsLost(st2, 0, fd0, fd1);
    assert st2.clients[..0] + st2.clients[1..] == [];
    var st3 := Next(st2, Received(0, [fd0, fd1], false));
    assert Run(st3, []) == st3 && Run(st2, [Received(0, [fd0, fd1], false)]) == st3;
    assert [Received(0, first, false), Received(0, [fd0, fd1], false)][1..] == [Received(0, [fd0, fd1], false)];
    assert Overflow(fd, uid, first, fd0, fd1)[1..] == [Received(0, first, false), Received(0, [fd0, fd1], false)];
  }

  function Overflow(fd: int, uid: int, first: seq<int>, fd0: int, fd1: int): seq<Event> {
    [Connected(fd, uid), Received(0, first, false), Received(0, [fd0, fd1], false)]
  }

  lemma QueueFilled(st: State, first: seq<int>)
    requires |st.clients| == 1 && st.clients[0].pending == [] && |first| == MAX_PENDING_FDS
    ensures var st' := Next(st, Received(0, first, false));
            |st'.clients| == 1 && st'.clients[0].pending == first
            && st'.ledger.closed == st.ledger.closed && st'.ledger.lost == st.ledger.lost
  {
    assert [] + first == first;
  }
}
