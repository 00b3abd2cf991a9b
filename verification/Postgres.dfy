/**
 Connection ownership in the PostgreSQL source. An action is one critical section, or one unlocked
 step between two of them, so a run is any interleaving of the threads' work.
 */
module Postgres {
  import opened Wrappers

  type Conn = nat
  type Id = nat

  /** `Closing`: the stream is marked closed but its hook has not run; by the source's close, or another caller. */
  datatype Phase = Live | Closing(bySource: bool) | Released

  datatype Stream = Stream(conn: Conn, phase: Phase)

  datatype State = State(
    owns: bool,
    closed: bool,
    cached: bool,
    primary: Option<Conn>,
    registered: set<Id>,
    scans: map<Id, Conn>,
    streams: map<Id, Stream>,
    queue: set<Id>,
    returned: bool,
    lost: set<Conn>,
    open: set<Conn>,
    next: Conn)

  datatype QueryOutcome = Answered | Failed | NotFound

  /**
   What a thread can do next: scan, read the schema, close a stream or the source. `AbandonScan` is an
   exception between a scan's two locked sections; `Drop` is the server's doing.
   */
  datatype Action =
    | Schema(connects: bool, outcome: QueryOutcome)
    | TakeForScan(scan: Id, connects: bool, executes: bool)
    | RegisterStream(scan: Id, stream: Id)
    | AbandonScan(scan: Id)
    | BeginClose(stream: Id)
    | FinishClose(stream: Id)
    | CloseSource
    | Visit(stream: Id)
    | ReturnFromClose
    | Drop(conn: Conn)

  // ---- one critical section ----------------------------------------------------------------------------

  predicate Alive(s: State, c: Option<Conn>) {
    c.Some? && c.value in s.open
  }

  function CloseQuietly(s: State, c: Option<Conn>): State {
    if c.Some? then s.(open := s.open - {c.value}) else s
  }

  /** Close the primary connection when this source owns it; keep a user's connection open. */
  function ReleasePrimary(s: State): State {
    if !s.owns then s else CloseQuietly(s.(primary := None), s.primary)
  }

  function Opened(s: State): State {
    s.(open := s.open + {s.next}, next := s.next + 1)
  }

  /** The primary connection, opened again when it is gone; None where connecting is refused or fails. */
  function Connect(s: State, connects: bool): (State, Option<Conn>) {
    if s.closed then (s, None)
    else if Alive(s, s.primary) then (s, s.primary)
    else if !s.owns || !connects then (s, None)
    else (Opened(s).(primary := Some(s.next)), Some(s.next))
  }

  /** A scan takes the primary connection away, or opens its own; an injected connection is shared. */
  function TakeConnection(s: State, connects: bool): (State, Option<Conn>) {
    if !s.owns then Connect(s, connects)
    else if s.closed then (s, None)
    else
      var rest := s.(primary := None);
      if Alive(s, s.primary) then (rest, s.primary)
      else if !connects then (rest, None)
      else (Opened(rest), Some(s.next))
  }

  function ReadSchema(s: State, connects: bool, outcome: QueryOutcome): State {
    if s.cached then s
    else
      var (t, c) := Connect(s, connects);
      if c.None? then t
      else if outcome.Answered? then t.(cached := true)
      else ReleasePrimary(t)
  }

  function Take(s: State, scan: Id, connects: bool, executes: bool): State {
    var (t, c) := TakeConnection(s, connects);
    if c.None? then t
    else if executes then t.(scans := t.scans[scan := c.value])
    else if s.owns then CloseQuietly(t, c)
    else t
  }

  function Register(s: State, scan: Id, stream: Id): State
    requires scan in s.scans
  {
    var c, t := s.scans[scan], s.(scans := s.scans - {scan});
    if s.closed then if s.owns then CloseQuietly(t, Some(c)) else t
    else t.(streams := t.streams[stream := Stream(c, Live)], registered := t.registered + {stream})
  }

  /** The connection taken is no longer referred to by anything that would close it. */
  function Abandon(s: State, scan: Id): State
    requires scan in s.scans
  {
    s.(scans := s.scans - {scan}, lost := s.lost + {s.scans[scan]})
  }

  function MarkClosed(s: State, stream: Id, bySource: bool): State
    requires stream in s.streams
  {
    s.(streams := s.streams[stream := s.streams[stream].(phase := Closing(bySource))])
  }

  /** The release hook: forget the stream and close its connection if the source owns it. */
  function Release(s: State, stream: Id): State
    requires stream in s.streams && s.streams[stream].phase.Closing?
  {
    var x := s.streams[stream];
    var t := s.(registered := s.registered - {stream}, streams := s.streams[stream := x.(phase := Released)],
                queue := if x.phase.bySource then s.queue - {stream} else s.queue);
    if s.owns then CloseQuietly(t, Some(x.conn)) else t
  }

  function Close(s: State): State {
    if s.closed then s
    else ReleasePrimary(s.(closed := true, queue := s.registered, registered := {}))
  }

  function VisitStream(s: State, stream: Id): State
    requires stream in s.streams
  {
    if s.streams[stream].phase.Live? then MarkClosed(s, stream, true)
    else if s.streams[stream].phase == Closing(true) then s
    else s.(queue := s.queue - {stream})
  }

  /** An action that is not enabled changes nothing. */
  function Apply(s: State, a: Action): State {
    match a
    case Schema(connects, outcome) => ReadSchema(s, connects, outcome)
    case TakeForScan(scan, connects, executes) => if scan in s.scans then s else Take(s, scan, connects, executes)
    case RegisterStream(scan, stream) => if scan in s.scans && stream !in s.streams then Register(s, scan, stream) else s
    case AbandonScan(scan) => if scan in s.scans then Abandon(s, scan) else s
    case BeginClose(i) => if i in s.streams && s.streams[i].phase.Live? then MarkClosed(s, i, false) else s
    case FinishClose(i) => if i in s.streams && s.streams[i].phase.Closing? then Release(s, i) else s
    case CloseSource => Close(s)
    case Visit(i) => if i in s.queue && i in s.streams then VisitStream(s, i) else s
    case ReturnFromClose => if s.closed && s.queue == {} then s.(returned := true) else s
    case Drop(c) => s.(open := s.open - {c})
  }

  function Run(s: State, actions: seq<Action>): State
    decreases |actions|
  {
    if actions == [] then s else Run(Apply(s, actions[0]), actions[1..])
  }

  // ---- who holds a connection ---------------------------------------------------------------------------

  datatype Holder = Primary | InFlight(scan: Id) | Streaming(stream: Id) | Nobody

  predicate Holds(s: State, h: Holder, c: Conn) {
    match h
    case Primary => s.primary == Some(c)
    case InFlight(i) => i in s.scans && s.scans[i] == c
    case Streaming(i) => i in s.streams && s.streams[i].conn == c && !s.streams[i].phase.Released?
    case Nobody => c in s.lost
  }

  ghost predicate Held(s: State, c: Conn) {
    exists h :: Holds(s, h, c)
  }

  /** No connection has two holders. */
  ghost predicate Exclusive(s: State) {
    forall h: Holder, g: Holder, c: Conn :: Holds(s, h, c) && Holds(s, g, c) ==> h == g
  }

  ghost predicate Known(s: State) {
    && (forall c | c in s.open :: c < s.next)
    && (forall h: Holder, c: Conn :: Holds(s, h, c) ==> c < s.next)
  }

  /** Every stream nobody closed yet is where the source's close will find it. */
  ghost predicate Findable(s: State) {
    && s.registered <= s.streams.Keys && s.queue <= s.streams.Keys
    && (s.closed ==> s.registered == {} && (s.owns ==> s.primary.None?))
    && (!s.closed ==> s.queue == {})
    && (s.returned ==> s.closed && s.queue == {})
    && (forall i | i in s.streams && s.streams[i].phase.Live? :: i in s.registered || i in s.queue)
    && (forall i | i in s.streams && s.streams[i].phase == Closing(true) :: i in s.queue)
  }

  ghost predicate Inv(s: State) {
    && Findable(s)
    && Known(s)
    && (s.owns ==> Exclusive(s) && forall c | c in s.open :: Held(s, c))
  }

  function Owning(): State {
    State(true, false, false, None, {}, map[], map[], {}, false, {}, {}, 0)
  }

  function Injected(): State {
    State(false, false, false, Some(0), {}, map[], map[], {}, false, {}, {0}, 1)
  }

  lemma StartsValid()
    ensures Inv(Owning()) && Inv(Injected())
  {
  }

  // ---- every step keeps the invariant --------------------------------------------------------------------

  lemma DropKeeps(s: State, c: Conn)
    requires Inv(s)
    ensures Inv(s.(open := s.open - {c}))
  {
    var t := s.(open := s.open - {c});
    assert forall h: Holder, x: Conn :: Holds(t, h, x) <==> Holds(s, h, x);
  }

  /** Opening a connection as the primary, when there was none alive. */
  lemma ConnectKeeps(s: State, connects: bool)
    requires Inv(s)
    ensures Inv(Connect(s, connects).0)
  {
    var (t, c) := Connect(s, connects);
    if t != s {
      assert forall h: Holder, x: Conn :: h != Primary ==> (Holds(t, h, x) <==> Holds(s, h, x));
      assert Holds(t, Primary, s.next);
      forall x | x in t.open
        ensures Held(t, x)
      {
        if x != s.next {
          var h :| Holds(s, h, x);
          assert Holds(t, h, x);
        }
      }
    }
  }

  lemma ReleaseKeeps(s: State)
    requires Inv(s)
    ensures Inv(ReleasePrimary(s))
  {
    var t := ReleasePrimary(s);
    assert forall h: Holder, x: Conn :: Holds(t, h, x) <==> Holds(s, h, x) && !(s.owns && h == Primary);
    if s.owns {
      forall x | x in t.open
        ensures Held(t, x)
      {
        var h :| Holds(s, h, x);
        assert Holds(t, h, x);
      }
    }
  }

  lemma TakeSharedKeeps(s: State, scan: Id, connects: bool, executes: bool)
    requires Inv(s) && scan !in s.scans && !s.owns
    ensures Inv(Take(s, scan, connects, executes))
  {
    var u := Take(s, scan, connects, executes);
    assert forall h: Holder, x: Conn :: h != InFlight(scan) ==> (Holds(u, h, x) <==> Holds(s, h, x));
    assert forall x: Conn :: Holds(u, InFlight(scan), x) ==> x in s.open;
  }

  /** A taken connection is held by nobody but, at most, by the injected primary slot. */
  lemma TakeKeeps(s: State, scan: Id, connects: bool, executes: bool)
    requires Inv(s) && scan !in s.scans
    ensures Inv(Take(s, scan, connects, executes))
  {
    var (t, c) := TakeConnection(s, connects);
    if !s.owns {
      TakeSharedKeeps(s, scan, connects, executes);
      return;
    }
    if s.closed {
      return;
    }
    var u := Take(s, scan, connects, executes);
    TakenHolders(s, scan, connects, executes);
    TakenFrame(s, scan, connects, executes);
    hide Take, TakeConnection, Findable;
    forall x | x in u.open
      ensures Held(u, x)
    {
      if x in s.open {
        var h :| Holds(s, h, x);
        assert h != Primary && h != InFlight(scan) ==> Holds(u, h, x);
      }
    }
  }

  lemma TakenFrame(s: State, scan: Id, connects: bool, executes: bool)
    requires Inv(s) && scan !in s.scans && s.owns && !s.closed
    ensures var u := Take(s, scan, connects, executes); var (_, c) := TakeConnection(s, connects);
            && Findable(u) && u.owns && s.next <= u.next && u.primary == None
            && (c.Some? ==> c.value < u.next && forall h: Holder :: Holds(s, h, c.value) ==> h == Primary)
            && (forall x | x in u.open :: x < u.next)
  {
    var (_, c) := TakeConnection(s, connects);
    if c.Some? {
      assert Alive(s, s.primary) ==> Holds(s, Primary, c.value);
    }
  }

  /** Who holds what after an owning, open source took a connection for a scan. */
  lemma TakenHolders(s: State, scan: Id, connects: bool, executes: bool)
    requires Inv(s) && scan !in s.scans && s.owns && !s.closed
    ensures var u := Take(s, scan, connects, executes); var (_, c) := TakeConnection(s, connects);
            && (forall h: Holder, x: Conn :: h != Primary && h != InFlight(scan) ==> (Holds(u, h, x) <==> Holds(s, h, x)))
            && (forall x: Conn | x in u.open :: (c == Some(x) && executes) || (x in s.open && s.primary != Some(x)))
            && (forall x: Conn :: Holds(u, InFlight(scan), x) <==> c == Some(x) && executes)
  {
    var u := Take(s, scan, connects, executes);
    assert forall h: Holder, x: Conn :: h != Primary && h != InFlight(scan) ==> (Holds(u, h, x) <==> Holds(s, h, x));
    if s.primary.Some? {
      assert Holds(s, Primary, s.primary.value);
    }
  }

  lemma RegisterKeeps(s: State, scan: Id, stream: Id)
    requires Inv(s) && scan in s.scans && stream !in s.streams
    ensures Inv(Register(s, scan, stream))
  {
    var c, t := s.scans[scan], Register(s, scan, stream);
    assert Holds(s, InFlight(scan), c);
    assert forall h: Holder, x: Conn :: h != InFlight(scan) && h != Streaming(stream) ==> (Holds(t, h, x) <==> Holds(s, h, x));
    assert forall x: Conn :: !Holds(t, InFlight(scan), x);
    assert forall x: Conn :: Holds(t, Streaming(stream), x) <==> x == c && !s.closed;
    if s.owns {
      forall x | x in t.open
        ensures Held(t, x)
      {
        if x == c {
          assert Holds(t, Streaming(stream), x);
        } else {
          var h :| Holds(s, h, x);
          assert Holds(t, h, x);
        }
      }
    }
  }

  lemma AbandonKeeps(s: State, scan: Id)
    requires Inv(s) && scan in s.scans
    ensures Inv(Abandon(s, scan))
  {
    var c, t := s.scans[scan], Abandon(s, scan);
    assert Holds(s, InFlight(scan), c);
    assert forall h: Holder, x: Conn :: h != InFlight(scan) && h != Nobody ==> (Holds(t, h, x) <==> Holds(s, h, x));
    assert forall x: Conn :: !Holds(t, InFlight(scan), x);
    assert forall x: Conn :: Holds(t, Nobody, x) <==> x == c || Holds(s, Nobody, x);
    if s.owns {
      forall x | x in t.open
        ensures Held(t, x)
      {
        if x == c {
          assert Holds(t, Nobody, x);
        } else {
          var h :| Holds(s, h, x);
          assert Holds(t, h, x);
        }
      }
    }
  }

  lemma MarkKeeps(s: State, stream: Id, bySource: bool)
    requires Inv(s) && stream in s.streams && s.streams[stream].phase.Live? && (bySource ==> stream in s.queue)
    ensures Inv(MarkClosed(s, stream, bySource))
  {
    var t := MarkClosed(s, stream, bySource);
    assert forall h: Holder, x: Conn :: Holds(t, h, x) <==> Holds(s, h, x);
    if s.owns {
      forall x | x in t.open
        ensures Held(t, x)
      {
        var h :| Holds(s, h, x);
        assert Holds(t, h, x);
      }
    }
  }

  lemma HookKeeps(s: State, stream: Id)
    requires Inv(s) && stream in s.streams && s.streams[stream].phase.Closing?
    ensures Inv(Release(s, stream))
  {
    var t := Release(s, stream);
    assert forall h: Holder, x: Conn :: Holds(t, h, x) <==> Holds(s, h, x) && h != Streaming(stream);
    assert Holds(s, Streaming(stream), s.streams[stream].conn);
    if s.owns {
      forall x | x in t.open
        ensures Held(t, x)
      {
        var h :| Holds(s, h, x);
        assert Holds(t, h, x);
      }
    }
  }

  lemma CloseKeeps(s: State)
    requires Inv(s)
    ensures Inv(Close(s))
  {
    var t := Close(s);
    if !s.closed {
      assert forall h: Holder, x: Conn :: Holds(t, h, x) <==> Holds(s, h, x) && !(s.owns && h == Primary);
      if s.owns {
        forall x | x in t.open
          ensures Held(t, x)
        {
          var h :| Holds(s, h, x);
          assert Holds(t, h, x);
        }
      }
    }
  }

  lemma SameHoldersKeep(s: State, t: State)
    requires Inv(s) && Findable(t) && t.owns == s.owns && t.open == s.open && t.next == s.next
    requires t.primary == s.primary && t.scans == s.scans && t.streams == s.streams && t.lost == s.lost
    ensures Inv(t)
  {
    assert forall h: Holder, x: Conn :: Holds(t, h, x) <==> Holds(s, h, x);
    if s.owns {
      forall x | x in t.open
        ensures Held(t, x)
      {
        var h :| Holds(s, h, x);
        assert Holds(t, h, x);
      }
    }
  }

  lemma SchemaKeeps(s: State, connects: bool, outcome: QueryOutcome)
    requires Inv(s)
    ensures Inv(ReadSchema(s, connects, outcome))
  {
    ConnectKeeps(s, connects);
    var t := Connect(s, connects).0;
    SameHoldersKeep(t, t.(cached := true));
    ReleaseKeeps(t);
  }

  /** One action, by any thread, keeps the invariant. */
  lemma StepKeepsInv(s: State, a: Action)
    requires Inv(s)
    ensures Inv(Apply(s, a))
  {
    hide Inv;
    match a
    case Schema(connects, outcome) => SchemaKeeps(s, connects, outcome);
    case TakeForScan(scan, connects, executes) => if scan !in s.scans { TakeKeeps(s, scan, connects, executes); }
    case RegisterStream(scan, stream) => if scan in s.scans && stream !in s.streams { RegisterKeeps(s, scan, stream); }
    case AbandonScan(scan) => if scan in s.scans { AbandonKeeps(s, scan); }
    case BeginClose(i) => if i in s.streams && s.streams[i].phase.Live? { MarkKeeps(s, i, false); }
    case FinishClose(i) => if i in s.streams && s.streams[i].phase.Closing? { HookKeeps(s, i); }
    case CloseSource => CloseKeeps(s);
    case Visit(i) => if i in s.queue && i in s.streams { VisitKeeps(s, i); }
    case ReturnFromClose => if s.closed && s.queue == {} { ReturnKeeps(s); }
    case Drop(c) => DropKeeps(s, c);
  }

  lemma VisitKeeps(s: State, stream: Id)
    requires Inv(s) && stream in s.queue && stream in s.streams
    ensures Inv(VisitStream(s, stream))
  {
    if s.streams[stream].phase.Live? {
      MarkKeeps(s, stream, true);
    } else {
      SameHoldersKeep(s, VisitStream(s, stream));
    }
  }

  lemma ReturnKeeps(s: State)
    requires Inv(s) && s.closed && s.queue == {}
    ensures Inv(s.(returned := true))
  {
    SameHoldersKeep(s, s.(returned := true));
  }

  /** Over every interleaving. */
  lemma {:induction false} RunKeepsInv(s: State, actions: seq<Action>)
    requires Inv(s)
    ensures Inv(Run(s, actions))
    decreases |actions|
  {
    hide Inv, Apply;
    if actions != [] {
      StepKeepsInv(s, actions[0]);
      RunKeepsInv(Apply(s, actions[0]), actions[1..]);
    }
  }

  // ---- what the protocol guarantees ------------------------------------------------------------------------

  predicate Continues(s: State, t: State) {
    t.owns == s.owns && (s.closed ==> t.closed) && (s.returned ==> t.returned)
  }

  lemma SchemaContinues(s: State, connects: bool, outcome: QueryOutcome)
    ensures Continues(s, ReadSchema(s, connects, outcome))
  {
  }

  lemma TakeContinues(s: State, scan: Id, connects: bool, executes: bool)
    ensures Continues(s, Take(s, scan, connects, executes))
  {
  }

  /** No action makes a source forget whether it owns its connections, or reopen. */
  lemma OwnershipIsFixed(s: State, a: Action)
    ensures Continues(s, Apply(s, a))
  {
    hide ReadSchema, Take;
    match a
    case Schema(connects, outcome) => SchemaContinues(s, connects, outcome);
    case TakeForScan(scan, connects, executes) => TakeContinues(s, scan, connects, executes);
    case _ =>
  }

  lemma {:induction false} RunKeepsOwnership(s: State, actions: seq<Action>)
    ensures Run(s, actions).owns == s.owns && (s.closed ==> Run(s, actions).closed)
    decreases |actions|
  {
    hide Apply;
    if actions != [] {
      OwnershipIsFixed(s, actions[0]);
      RunKeepsOwnership(Apply(s, actions[0]), actions[1..]);
    }
  }

  /**
   On an owning source, every open connection of every run has exactly one holder; it is nobody only
   if a scan was abandoned.
   */
  lemma OneHolderEach(actions: seq<Action>, c: Conn)
    requires c in Run(Owning(), actions).open
    ensures var s := Run(Owning(), actions);
            && Held(s, c) && (forall h: Holder, g: Holder :: Holds(s, h, c) && Holds(s, g, c) ==> h == g)
            && ((forall a | a in actions :: !a.AbandonScan?) ==> !Holds(s, Nobody, c))
  {
    StartsValid();
    RunKeepsInv(Owning(), actions);
    RunKeepsOwnership(Owning(), actions);
    if forall a | a in actions :: !a.AbandonScan? {
      NothingLostUnlessAbandoned(Owning(), actions);
    }
  }

  /** After the close nothing new is opened and no scan starts, so the scans in flight only run out. */
  lemma NothingOpensAfterClose(s: State, a: Action)
    requires Inv(s) && s.closed
    ensures Apply(s, a).next == s.next && Apply(s, a).open <= s.open
    ensures Apply(s, a).scans.Keys <= s.scans.Keys
  {
  }

  lemma {:induction false} NothingOpensInRunsAfterClose(s: State, actions: seq<Action>)
    requires Inv(s) && s.closed
    ensures Run(s, actions).open <= s.open && Run(s, actions).scans.Keys <= s.scans.Keys
    decreases |actions|
  {
    hide Apply, Inv;
    if actions != [] {
      NothingOpensAfterClose(s, actions[0]);
      OwnershipIsFixed(s, actions[0]);
      StepKeepsInv(s, actions[0]);
      NothingOpensInRunsAfterClose(Apply(s, actions[0]), actions[1..]);
    }
  }

  /** Nothing of the source's own making is under way: closed, no scan, and no stream being closed. */
  predicate AtRest(s: State) {
    s.returned && s.scans == map[] && forall i | i in s.streams :: s.streams[i].phase != Closing(false)
  }

  /** Once the close has returned, an open connection belongs to a scan in flight, a close in progress, or nobody. */
  lemma OpenAfterClose(s: State, c: Conn)
    requires Inv(s) && s.owns && s.returned && c in s.open
    ensures (exists i :: Holds(s, InFlight(i), c))
            || (exists i :: i in s.streams && s.streams[i].phase == Closing(false) && s.streams[i].conn == c)
            || c in s.lost
  {
    var h :| Holds(s, h, c);
    match h
    case Primary =>
    case InFlight(i) =>
    case Streaming(i) =>
    case Nobody =>
  }

  /** An abandoned connection stays open until the server drops it: nothing else refers to it. */
  lemma LostStayOpen(s: State, a: Action, c: Conn)
    requires Inv(s) && s.owns && c in s.lost && c in s.open && a != Drop(c)
    ensures c in Apply(s, a).lost && c in Apply(s, a).open
  {
    assert Holds(s, Nobody, c);
    if c !in Apply(s, a).open {
      OnlyTheHolderCloses(s, a, Nobody, c);
    }
    OnlyAbandonLoses(s, a);
  }

  /** A connection is lost only by abandoning the scan that took it. */
  lemma OnlyAbandonLoses(s: State, a: Action)
    ensures s.lost <= Apply(s, a).lost
    ensures Apply(s, a).lost == if a.AbandonScan? && a.scan in s.scans then s.lost + {s.scans[a.scan]} else s.lost
  {
    hide ReadSchema, Take;
    match a
    case Schema(connects, outcome) => SchemaLosesNothing(s, connects, outcome);
    case TakeForScan(scan, connects, executes) => TakeLosesNothing(s, scan, connects, executes);
    case _ =>
  }

  lemma SchemaLosesNothing(s: State, connects: bool, outcome: QueryOutcome)
    ensures ReadSchema(s, connects, outcome).lost == s.lost && ReadSchema(s, connects, outcome).scans == s.scans
  {
  }

  lemma TakeLosesNothing(s: State, scan: Id, connects: bool, executes: bool)
    ensures Take(s, scan, connects, executes).lost == s.lost
    ensures forall i | i in s.scans && i != scan ::
              i in Take(s, scan, connects, executes).scans && Take(s, scan, connects, executes).scans[i] == s.scans[i]
  {
  }

  predicate ServerStays(actions: seq<Action>) {
    forall a | a in actions :: !a.Drop?
  }

  ghost predicate InFlightOpen(s: State) {
    forall i | i in s.scans :: s.scans[i] in s.open
  }

  /** While the server keeps connections, those under a scan in flight and those lost are open. */
  lemma {:induction false} LostAreOpen(s: State, actions: seq<Action>)
    requires Inv(s) && s.owns && s.lost <= s.open && InFlightOpen(s) && ServerStays(actions)
    ensures Run(s, actions).lost <= Run(s, actions).open
    decreases |actions|
  {
    hide Inv, Apply, InFlightOpen;
    if actions != [] {
      var a := actions[0];
      assert a in actions && forall x | x in actions[1..] :: x in actions;
      LostAreOpenStep(s, a);
      StepKeepsInv(s, a);
      OwnershipIsFixed(s, a);
      LostAreOpen(Apply(s, a), actions[1..]);
    }
  }

  lemma LostAreOpenStep(s: State, a: Action)
    requires Inv(s) && s.owns && s.lost <= s.open && InFlightOpen(s) && !a.Drop?
    ensures Apply(s, a).lost <= Apply(s, a).open && InFlightOpen(Apply(s, a))
  {
    var t := Apply(s, a);
    OnlyAbandonLoses(s, a);
    forall c | c in s.lost
      ensures c in t.open
    {
      LostStayOpen(s, a, c);
    }
    forall i | i in t.scans
      ensures t.scans[i] in t.open
    {
      InFlightStaysOpen(s, a, i);
    }
  }

  lemma TakenIsOpen(s: State, scan: Id, connects: bool, executes: bool)
    requires scan !in s.scans
    ensures var t := Take(s, scan, connects, executes); scan in t.scans ==> t.scans[scan] in t.open
    ensures forall i | i in Take(s, scan, connects, executes).scans :: i == scan || i in s.scans
  {
  }

  lemma InFlightStaysOpen(s: State, a: Action, i: Id)
    requires Inv(s) && s.owns && InFlightOpen(s) && !a.Drop? && i in Apply(s, a).scans
    ensures Apply(s, a).scans[i] in Apply(s, a).open
  {
    hide ReadSchema, Take;
    if a.TakeForScan? && a.scan !in s.scans {
      TakeLosesNothing(s, a.scan, a.connects, a.executes);
      TakenIsOpen(s, a.scan, a.connects, a.executes);
    }
    if a.Schema? {
      SchemaLosesNothing(s, a.connects, a.outcome);
    }
    if i in s.scans {
      var c := s.scans[i];
      assert Holds(s, InFlight(i), c);
      hide Inv;
      if c !in Apply(s, a).open {
        OnlyTheHolderCloses(s, a, InFlight(i), c);
      }
    }
  }

  lemma {:induction false} NothingLostUnlessAbandoned(s: State, actions: seq<Action>)
    requires forall a | a in actions :: !a.AbandonScan?
    ensures Run(s, actions).lost == s.lost
    decreases |actions|
  {
    hide Apply;
    if actions != [] {
      assert actions[0] in actions;
      OnlyAbandonLoses(s, actions[0]);
      NothingLostUnlessAbandoned(Apply(s, actions[0]), actions[1..]);
    }
  }

  /**
   An owning source at rest has nothing open but what was abandoned: nothing at all when no scan was,
   and, while the server drops nothing, exactly the abandoned connections.
   */
  lemma NothingLeaks(actions: seq<Action>)
    ensures var s := Run(Owning(), actions);
            AtRest(s) ==>
              && s.open <= s.lost
              && ((forall a | a in actions :: !a.AbandonScan?) ==> s.open == {})
              && (ServerStays(actions) ==> s.open == s.lost)
  {
    var s := Run(Owning(), actions);
    StartsValid();
    RunKeepsInv(Owning(), actions);
    RunKeepsOwnership(Owning(), actions);
    if AtRest(s) {
      forall c | c in s.open
        ensures c in s.lost
      {
        OpenAfterClose(s, c);
      }
      if forall a | a in actions :: !a.AbandonScan? {
        NothingLostUnlessAbandoned(Owning(), actions);
      }
      if ServerStays(actions) {
        LostAreOpen(Owning(), actions);
      }
    }
  }

  /** The shortest leak: one scan takes a connection and raises before it registers; the close then returns. */
  lemma AbandonedScanLeaks()
    ensures var actions := [TakeForScan(0, true, true), AbandonScan(0), CloseSource, ReturnFromClose];
            var s := Run(Owning(), actions);
            AtRest(s) && s.open == {0} && 0 in s.lost
  {
  }

  /**
   A connection under a scan or a stream is closed only by that scan's own end or that stream's own
   hook, or by the server: no other scan, stream, schema read or close touches it.
   */
  lemma OnlyTheHolderCloses(s: State, a: Action, h: Holder, c: Conn)
    requires Inv(s) && s.owns && Holds(s, h, c) && h != Primary
    requires c in s.open && c !in Apply(s, a).open
    ensures a == Drop(c)
            || (h.InFlight? && a.RegisterStream? && a.scan == h.scan && s.closed)
            || (h.Streaming? && a == FinishClose(h.stream))
  {
    assert !Holds(s, Primary, c);
    assert a.RegisterStream? && Holds(s, InFlight(a.scan), c) ==> h == InFlight(a.scan);
    assert a.FinishClose? && Holds(s, Streaming(a.stream), c) ==> h == Streaming(a.stream);
  }

  /** A connection the user supplied is never opened, replaced or closed by the source. */
  lemma InjectedIsUntouched(s: State, a: Action)
    requires !s.owns && !a.Drop?
    ensures Apply(s, a).open == s.open && Apply(s, a).primary == s.primary && Apply(s, a).next == s.next
  {
  }

  lemma {:induction false} InjectedSurvives(s: State, actions: seq<Action>)
    requires !s.owns && forall a | a in actions :: !a.Drop?
    ensures Run(s, actions).open == s.open && Run(s, actions).primary == s.primary
    decreases |actions|
  {
    hide Apply;
    if actions != [] {
      assert actions[0] in actions;
      InjectedIsUntouched(s, actions[0]);
      OwnershipIsFixed(s, actions[0]);
      InjectedSurvives(Apply(s, actions[0]), actions[1..]);
    }
  }

  // ---- the source object -------------------------------------------------------------------------------------

  /** The fields of the source, and the connections, scans and streams around it. */
  class PostgresSource {
    const ownsConnection: bool
    var connection: Option<Conn>
    var closed: bool
    var schemaCached: bool
    var streams: set<Id>
    var inFlight: map<Id, Conn>
    var handles: map<Id, Stream>
    var toVisit: set<Id>
    var closeReturned: bool
    ghost var lost: set<Conn>
    var open: set<Conn>
    var next: Conn

    ghost function Snapshot(): State
      reads this
    {
      State(ownsConnection, closed, schemaCached, connection, streams, inFlight, handles, toVisit, closeReturned, lost, open, next)
    }

    constructor Owned()
      ensures Snapshot() == Owning()
    {
      ownsConnection, connection, closed, schemaCached := true, None, false, false;
      streams, inFlight, handles, toVisit, closeReturned, lost, open, next := {}, map[], map[], {}, false, {}, {}, 0;
    }

    constructor Supplied()
      ensures Snapshot() == Injected()
    {
      ownsConnection, connection, closed, schemaCached := false, Some(0), false, false;
      streams, inFlight, handles, toVisit, closeReturned, lost, open, next := {}, map[], map[], {}, false, {}, {0}, 1;
    }

    method CloseResource(c: Option<Conn>)
      modifies this`open
      ensures Snapshot() == CloseQuietly(old(Snapshot()), c)
    {
      if c.Some? {
        open := open - {c.value};
      }
    }

    method ReleaseConnection()
      modifies this`connection, this`open
      ensures Snapshot() == ReleasePrimary(old(Snapshot()))
    {
      if !ownsConnection {
        return;
      }
      var released := connection;
      connection := None;
      CloseResource(released);
    }

    method OpenConnection() returns (c: Conn)
      modifies this`open, this`next
      ensures Snapshot() == Opened(old(Snapshot())) && c == old(next)
    {
      c := next;
      open, next := open + {c}, next + 1;
    }

    method ConnectPrimary(connects: bool) returns (c: Option<Conn>)
      modifies this`connection, this`open, this`next
      ensures (Snapshot(), c) == Connect(old(Snapshot()), connects)
    {
      if closed {
        return None;
      }
      if connection.Some? && connection.value in open {
        return connection;
      }
      if !ownsConnection || !connects {
        return None;
      }
      var newest := OpenConnection();
      connection := Some(newest);
      c := connection;
    }

    method TakeScanConnection(connects: bool) returns (c: Option<Conn>)
      modifies this`connection, this`open, this`next
      ensures (Snapshot(), c) == TakeConnection(old(Snapshot()), connects)
    {
      if !ownsConnection {
        c := ConnectPrimary(connects);
        return;
      }
      if closed {
        return None;
      }
      var taken := connection;
      connection := None;
      if taken.Some? && taken.value in open {
        return taken;
      }
      if !connects {
        return None;
      }
      var newest := OpenConnection();
      c := Some(newest);
    }

    /** The locked body of `schema`. */
    method SchemaSection(connects: bool, outcome: QueryOutcome)
      modifies this
      ensures Snapshot() == Apply(old(Snapshot()), Schema(connects, outcome))
    {
      if schemaCached {
        return;
      }
      var c := ConnectPrimary(connects);
      if c.None? {
        return;
      }
      match outcome
      case Answered => schemaCached := true;
      case Failed => ReleaseConnection();
      case NotFound => ReleaseConnection();
    }

    /** The first locked section of `scan`: take a connection and execute on it. */
    method ScanSection(scan: Id, connects: bool, executes: bool)
      requires scan !in inFlight
      modifies this
      ensures Snapshot() == Apply(old(Snapshot()), TakeForScan(scan, connects, executes))
    {
      var c := TakeScanConnection(connects);
      if c.None? {
        return;
      }
      if executes {
        inFlight := inFlight[scan := c.value];
      } else if ownsConnection {
        CloseResource(c);
      }
    }

    /** The second locked section of `scan`: hand the stream out, unless the source closed meanwhile. */
    method RegisterSection(scan: Id, stream: Id)
      requires scan in inFlight && stream !in handles
      modifies this
      ensures Snapshot() == Apply(old(Snapshot()), RegisterStream(scan, stream))
    {
      var c := inFlight[scan];
      inFlight := inFlight - {scan};
      if closed {
        if ownsConnection {
          CloseResource(Some(c));
        }
        return;
      }
      handles := handles[stream := Stream(c, Live)];
      streams := streams + {stream};
    }

    /** The hook a closing stream runs under the lock. */
    method ReleaseStream(stream: Id)
      requires stream in handles && handles[stream].phase.Closing?
      modifies this
      ensures Snapshot() == Apply(old(Snapshot()), FinishClose(stream))
    {
      var handle := handles[stream];
      streams := streams - {stream};
      handles := handles[stream := handle.(phase := Released)];
      if handle.phase.bySource {
        toVisit := toVisit - {stream};
      }
      if ownsConnection {
        CloseResource(Some(handle.conn));
      }
    }

    /** The locked section of `close`: the streams to visit are those registered at this moment. */
    method CloseSection()
      modifies this
      ensures Snapshot() == Apply(old(Snapshot()), CloseSource)
    {
      if closed {
        return;
      }
      closed := true;
      toVisit, streams := streams, {};
      ReleaseConnection();
    }
  }
}
