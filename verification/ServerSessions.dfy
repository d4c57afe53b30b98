/** Streams, client sessions and shutdown of the server (client/src/server/server.cpp:223-255, 319-356,
    611-634), one locked section or callback a step. */
module ServerSessions {

  type Stream = nat
  type Client = string

  /** Where the handler of a stream stands. */
  datatype Pc =
    | Launching     // registered, thread not started
    | Handshaking
    | Authed        // not yet counted
    | Entering      // counted, callback still to make when it was the client's first
    | Serving
    | Leaving       // stream closed
    | Exiting       // no longer counted, callback still to make when it was the client's last
    | Finishing     // still registered

  datatype Handler = Handler(pc: Pc, client: Client, authed: bool, edge: bool)

  /** Where a call of stop stands; one that found the server stopped has returned at once. */
  datatype StopPc = Flipped | Closing | Joined | Drained | Stopped | TurnedAway

  /** A call of stop: whether it found the server running, what was registered when it began, its snapshot
      and what of that is still open. */
  datatype Stop = Stop(pc: StopPc, found: bool, before: set<Stream>, snapshot: set<Stream>, todo: set<Stream>)

  datatype State = State(
    running: bool, active: set<Stream>, connCount: int, sessions: map<Client, int>,
    handlers: map<Stream, Handler>, closed: set<Stream>, seen: set<Stream>,
    ups: nat, downs: nat, fired: nat, stops: map<nat, Stop>)

  datatype Event =
    | Launch(s: Stream)
    | StartThread(s: Stream, ok: bool)
    | Handshake(s: Stream, ok: bool, client: Client)
    | CountIn(s: Stream)
    | FireIn(s: Stream)
    | EndServe(s: Stream)
    | CountOut(s: Stream)
    | FireOut(s: Stream)
    | Finish(s: Stream)
    | StopBegin(k: nat)
    | Snapshot(k: nat)
    | CloseStream(k: nat, s: Stream)
    | CloseDone(k: nat)
    | AwaitNone(k: nat)
    | ClearSessions(k: nat)

  predicate At(g: State, s: Stream, pc: Pc) { s in g.handlers && g.handlers[s].pc == pc }

  predicate StopAt(g: State, k: nat, pc: StopPc) { k in g.stops && g.stops[k].pc == pc }

  predicate Enabled(g: State, e: Event) {
    match e
    case Launch(s) => s !in g.seen
    case StartThread(s, _) => At(g, s, Launching)
    case Handshake(s, _, _) => At(g, s, Handshaking)
    case CountIn(s) => At(g, s, Authed)
    case FireIn(s) => At(g, s, Entering)
    case EndServe(s) => At(g, s, Serving)
    case CountOut(s) => At(g, s, Leaving)
    case FireOut(s) => At(g, s, Exiting)
    case Finish(s) => At(g, s, Finishing)
    case StopBegin(k) => k !in g.stops
    case Snapshot(k) => StopAt(g, k, Flipped)
    case CloseStream(k, s) => StopAt(g, k, Closing) && s in g.stops[k].todo
    case CloseDone(k) => StopAt(g, k, Closing) && g.stops[k].todo == {}
    case AwaitNone(k) => StopAt(g, k, Joined) && g.connCount == 0
    case ClearSessions(k) => StopAt(g, k, Drained)
  }

  function Put(g: State, s: Stream, h: Handler): State { g.(handlers := g.handlers[s := h]) }

  /** A stream leaves the registry, and with it its handler. */
  function Gone(g: State, s: Stream): State {
    g.(active := g.active - {s}, connCount := g.connCount - 1, handlers := g.handlers - {s})
  }

  function SetStop(g: State, k: nat, t: Stop): State { g.(stops := g.stops[k := t]) }

  function Sessions(g: State, c: Client): int { if c in g.sessions then g.sessions[c] else 0 }

  function Apply(g: State, e: Event): State
    requires Enabled(g, e)
  {
    match e
    case Launch(s) =>
      var u := g.(seen := g.seen + {s});
      if !g.running then u.(closed := u.closed + {s})
      else Put(u.(active := u.active + {s}, connCount := u.connCount + 1), s, Handler(Launching, "", false, false))
    case StartThread(s, ok) =>
      if ok then Put(g, s, g.handlers[s].(pc := Handshaking)) else Gone(g, s).(closed := g.closed + {s})
    case Handshake(s, ok, client) =>
      if ok then Put(g, s, g.handlers[s].(pc := Authed, client := client, authed := true))
      else Put(g.(closed := g.closed + {s}), s, g.handlers[s].(pc := Leaving))
    case CountIn(s) =>
      var c := g.handlers[s].client;
      var first := Sessions(g, c) == 0;
      Put(g.(sessions := g.sessions[c := Sessions(g, c) + 1], ups := g.ups + (if first then 1 else 0)),
          s, g.handlers[s].(pc := Entering, edge := first))
    case FireIn(s) =>
      Put(g.(fired := g.fired + (if g.handlers[s].edge then 1 else 0)), s, g.handlers[s].(pc := Serving, edge := false))
    case EndServe(s) => Put(g.(closed := g.closed + {s}), s, g.handlers[s].(pc := Leaving))
    case CountOut(s) =>
      var h := g.handlers[s];
      if !h.authed then Put(g, s, h.(pc := Finishing))
      else if h.client !in g.sessions then Put(g, s, h.(pc := Exiting))
      else if g.sessions[h.client] - 1 <= 0 then
        Put(g.(sessions := g.sessions - {h.client}, downs := g.downs + 1), s, h.(pc := Exiting, edge := true))
      else
        Put(g.(sessions := g.sessions[h.client := g.sessions[h.client] - 1]), s, h.(pc := Exiting))
    case FireOut(s) =>
      Put(g.(fired := g.fired + (if g.handlers[s].edge then 1 else 0)), s,
          g.handlers[s].(pc := Finishing, edge := false))
    case Finish(s) => Gone(g, s)
    case StopBegin(k) =>
      if g.running then SetStop(g.(running := false), k, Stop(Flipped, true, g.active, {}, {}))
      else SetStop(g, k, Stop(TurnedAway, false, g.active, {}, {}))
    case Snapshot(k) => SetStop(g, k, g.stops[k].(pc := Closing, snapshot := g.active, todo := g.active))
    case CloseStream(k, s) =>
      SetStop(g.(closed := g.closed + {s}), k, g.stops[k].(todo := g.stops[k].todo - {s}))
    case CloseDone(k) => SetStop(g, k, g.stops[k].(pc := Joined))
    case AwaitNone(k) => SetStop(g, k, g.stops[k].(pc := Drained))
    case ClearSessions(k) => SetStop(g.(sessions := map[]), k, g.stops[k].(pc := Stopped))
  }

  // ---- the invariant -------------------------------------------------------------------

  predicate Counted(h: Handler) { h.pc == Entering || h.pc == Serving || (h.pc == Leaving && h.authed) }

  ghost function StreamsOf(g: State, c: Client): set<Stream> {
    set s | s in g.handlers && Counted(g.handlers[s]) && g.handlers[s].client == c
  }

  /** Handlers with a callback still to make. */
  ghost function Owing(g: State): set<Stream> { set s | s in g.handlers && g.handlers[s].edge }

  /** The registry is the live handlers, and the count their number. */
  ghost predicate Registered(g: State) {
    && g.active == g.handlers.Keys && g.connCount == |g.active| && g.active <= g.seen
  }

  /** A handler is authenticated from its handshake on. */
  predicate ProperHandler(h: Handler) {
    && (h.pc == Launching || h.pc == Handshaking ==> !h.authed)
    && (h.pc == Authed || h.pc == Entering || h.pc == Serving ==> h.authed)
    && (h.edge ==> h.pc == Entering || h.pc == Exiting)
  }

  ghost predicate Proper(g: State) { forall s | s in g.handlers :: ProperHandler(g.handlers[s]) }

  /** The count of a client is positive, and the number of its live authenticated streams. */
  ghost predicate CountsRight(g: State) {
    forall c :: Sessions(g, c) == |StreamsOf(g, c)| && (c in g.sessions ==> g.sessions[c] > 0)
  }

  /** Every change between none and some has been reported or is about to be. */
  ghost predicate Reported(g: State) {
    && g.ups - g.downs == |g.sessions|
    && g.fired + |Owing(g)| == g.ups + g.downs
  }

  ghost predicate StopKnows(g: State, t: Stop) {
    && !g.running
    && g.active <= t.before && (t.found <==> t.pc != TurnedAway)
    && (t.found && t.pc != Flipped ==> g.active <= t.snapshot)
    && (t.pc == Closing ==> t.snapshot - t.todo <= g.closed)
    && (t.pc == Joined || t.pc == Drained || t.pc == Stopped ==> g.active <= g.closed)
    && (t.pc == Drained || t.pc == Stopped ==> g.active == {})
  }

  /** A stop has what is still registered in its snapshot, then closed, then gone. */
  ghost predicate Stopping(g: State) { forall k | k in g.stops :: StopKnows(g, g.stops[k]) }

  ghost predicate Inv(g: State) { Registered(g) && Proper(g) && CountsRight(g) && Reported(g) && Stopping(g) }

  ghost function Initial(): State { State(true, {}, 0, map[], map[], {}, {}, 0, 0, 0, map[]) }

  lemma InitialInv()
    ensures Inv(Initial())
  {
    assert forall c :: StreamsOf(Initial(), c) == {};
    assert Owing(Initial()) == {};
  }

  // ---- every step keeps it ---------------------------------------------------------------

  lemma KeepsRegistered(g: State, e: Event)
    requires Enabled(g, e) && Registered(g)
    ensures Registered(Apply(g, e))
  {
    if e.Launch? {
      LaunchRegistered(g, e.s);
    } else if e.StartThread? || e.Finish? {
      EndRegistered(g, e);
    } else if StopEvent(e) {
      StopsElsewhere(g, e);
    } else {
      SameHandlers(g, e);
    }
  }

  lemma LaunchRegistered(g: State, s: Stream)
    requires Enabled(g, Launch(s)) && Registered(g)
    ensures Registered(Apply(g, Launch(s)))
  {
    assert s !in g.active;
  }

  lemma EndRegistered(g: State, e: Event)
    requires Enabled(g, e) && Registered(g) && (e.StartThread? || e.Finish?)
    ensures Registered(Apply(g, e))
  {
    assert e.s in g.active;
  }

  lemma SameHandlers(g: State, e: Event)
    requires Enabled(g, e) && !StopEvent(e) && !e.Launch? && !e.StartThread? && !e.Finish?
    ensures var u := Apply(g, e);
            u.handlers.Keys == g.handlers.Keys && u.active == g.active && u.connCount == g.connCount && u.seen == g.seen
  {}

  lemma KeepsStopping(g: State, e: Event)
    requires Enabled(g, e) && Registered(g) && Stopping(g)
    ensures Stopping(Apply(g, e))
  {
    if StopEvent(e) {
      StoppingHere(g, e);
    } else {
      StoppingElsewhere(g, e);
    }
  }

  lemma StoppingHere(g: State, e: Event)
    requires Enabled(g, e) && StopEvent(e) && Registered(g) && Stopping(g)
    ensures Stopping(Apply(g, e))
  {}

  lemma StoppingElsewhere(g: State, e: Event)
    requires Enabled(g, e) && !StopEvent(e) && Registered(g) && Stopping(g)
    ensures Stopping(Apply(g, e))
  {}

  /** Only counting in and counting out change who is counted, one stream of one client at a time. */
  lemma CountedStreams(g: State, e: Event, c: Client)
    requires Enabled(g, e) && Registered(g) && Proper(g)
    ensures var u := Apply(g, e);
            StreamsOf(u, c) ==
              if e.CountIn? && g.handlers[e.s].client == c then StreamsOf(g, c) + {e.s}
              else if e.CountOut? && g.handlers[e.s].authed && g.handlers[e.s].client == c then StreamsOf(g, c) - {e.s}
              else StreamsOf(g, c)
  {
    hide Apply, Counted, Enabled, Registered, Proper;
    if StopEvent(e) {
      StopsElsewhere(g, e);
    } else {
      SameElsewhere(g, e);
      CountedHere(g, e, c);
      hide CountedFor, StreamsOf;
      OneStream(g, Apply(g, e), e.s, c);
    }
  }

  /** Two states with the same handlers but for one stream. */
  ghost predicate SameBut(g: State, u: State, s: Stream) {
    forall x | x != s ::
      (x in u.handlers <==> x in g.handlers) && (x in g.handlers ==> u.handlers[x] == g.handlers[x])
  }

  lemma OneStream(g: State, u: State, s: Stream, c: Client)
    requires SameBut(g, u, s)
    ensures StreamsOf(u, c) == if CountedFor(u, s, c) then StreamsOf(g, c) + {s} else StreamsOf(g, c) - {s}
    ensures CountedFor(g, s, c) ==> StreamsOf(g, c) + {s} == StreamsOf(g, c)
    ensures !CountedFor(g, s, c) ==> StreamsOf(g, c) - {s} == StreamsOf(g, c)
  {
    hide Counted;
  }

  predicate StopEvent(e: Event) {
    e.StopBegin? || e.Snapshot? || e.CloseStream? || e.CloseDone? || e.AwaitNone? || e.ClearSessions?
  }

  lemma StopsElsewhere(g: State, e: Event)
    requires Enabled(g, e) && StopEvent(e)
    ensures var u := Apply(g, e);
            u.handlers == g.handlers && u.active == g.active && u.connCount == g.connCount && u.seen == g.seen
  {}

  lemma SameElsewhere(g: State, e: Event)
    requires Enabled(g, e) && !StopEvent(e)
    ensures SameBut(g, Apply(g, e), e.s)
  {
    hide Sessions;
  }

  /** Whether the stream of a step is counted for a client after it. */
  lemma CountedHere(g: State, e: Event, c: Client)
    requires Enabled(g, e) && Registered(g) && Proper(g) && !StopEvent(e)
    ensures CountedFor(Apply(g, e), e.s, c) <==>
              if e.CountIn? && g.handlers[e.s].client == c then true
              else if e.CountOut? && g.handlers[e.s].authed && g.handlers[e.s].client == c then false
              else CountedFor(g, e.s, c)
  {
    hide Apply, Counted;
    if e.CountIn? {
      CountedIntoHere(g, e.s, c);
    } else if e.CountOut? {
      CountedOutHere(g, e.s, c);
    } else if Registry(e) {
      RegistryHere(g, e, c);
    } else {
      HandlerHere(g, e, c);
    }
  }

  ghost predicate CountedFor(g: State, s: Stream, c: Client) {
    s in g.handlers && Counted(g.handlers[s]) && g.handlers[s].client == c
  }

  /** The steps that add or remove a stream. */
  predicate Registry(e: Event) { e.Launch? || e.StartThread? || e.Finish? }

  lemma CountedIntoHere(g: State, s: Stream, c: Client)
    requires Enabled(g, CountIn(s)) && Proper(g)
    ensures CountedFor(Apply(g, CountIn(s)), s, c) <==> g.handlers[s].client == c
    ensures !CountedFor(g, s, c)
  {}

  lemma CountedOutHere(g: State, s: Stream, c: Client)
    requires Enabled(g, CountOut(s))
    ensures !CountedFor(Apply(g, CountOut(s)), s, c)
    ensures CountedFor(g, s, c) <==> g.handlers[s].authed && g.handlers[s].client == c
  {}

  lemma RegistryHere(g: State, e: Event, c: Client)
    requires Enabled(g, e) && Registered(g) && Registry(e)
    ensures !CountedFor(Apply(g, e), e.s, c) && !CountedFor(g, e.s, c)
  {
    hide Sessions;
  }

  lemma HandlerHere(g: State, e: Event, c: Client)
    requires Enabled(g, e) && Proper(g) && (e.Handshake? || e.FireIn? || e.EndServe? || e.FireOut?)
    ensures CountedFor(Apply(g, e), e.s, c) <==> CountedFor(g, e.s, c)
  {
    hide Sessions;
  }

  lemma KeepsCounts(g: State, e: Event)
    requires Enabled(g, e) && Inv(g)
    ensures CountsRight(Apply(g, e))
  {
    hide Apply, Registered, Proper, Reported, Stopping;
    var u := Apply(g, e);
    forall c ensures Sessions(u, c) == |StreamsOf(u, c)| && (c in u.sessions ==> u.sessions[c] > 0) {
      CountedStreams(g, e, c);
      assert Sessions(g, c) == |StreamsOf(g, c)|;
      SessionsChange(g, e, c);
      if e.CountIn? {
        assert e.s !in StreamsOf(g, c);
      } else if e.CountOut? && g.handlers[e.s].authed && g.handlers[e.s].client == c {
        assert e.s in StreamsOf(g, c);
      } else if e.ClearSessions? {
        NoneLeft(g, e.k, c);
      }
    }
  }

  lemma NoneLeft(g: State, k: nat, c: Client)
    requires Inv(g) && StopAt(g, k, Drained)
    ensures StreamsOf(g, c) == {} && Sessions(g, c) == 0 && c !in g.sessions
  {
    assert StopKnows(g, g.stops[k]);
    assert StreamsOf(g, c) == {};
  }

  lemma SessionsChange(g: State, e: Event, c: Client)
    requires Enabled(g, e) && CountsRight(g)
    ensures var u := Apply(g, e);
            && (if e.CountIn? && g.handlers[e.s].client == c then Sessions(u, c) == Sessions(g, c) + 1
                else if e.CountOut? && g.handlers[e.s].authed && g.handlers[e.s].client == c && c in g.sessions then
                  Sessions(u, c) == Sessions(g, c) - 1
                else e.ClearSessions? || Sessions(u, c) == Sessions(g, c))
            && (c in u.sessions ==> u.sessions[c] > 0)
            && (e.ClearSessions? ==> c !in u.sessions)
  {
    assert Sessions(g, c) == |StreamsOf(g, c)|;
    hide StreamsOf;
  }

  lemma KeepsProper(g: State, e: Event)
    requires Enabled(g, e) && Proper(g)
    ensures Proper(Apply(g, e))
  {
    if StopEvent(e) {
      StopsElsewhere(g, e);
      hide Apply;
    } else {
      SameElsewhere(g, e);
      ProperHere(g, e);
      hide Apply;
    }
  }

  lemma ProperHere(g: State, e: Event)
    requires Enabled(g, e) && Proper(g) && !StopEvent(e)
    ensures var u := Apply(g, e); e.s in u.handlers ==> ProperHandler(u.handlers[e.s])
  {
    if Registry(e) {
      ProperRegistry(g, e);
    } else {
      ProperMove(g, e);
    }
    hide Apply;
  }

  lemma ProperRegistry(g: State, e: Event)
    requires Enabled(g, e) && Proper(g) && Registry(e)
    ensures var u := Apply(g, e); e.s in u.handlers ==> ProperHandler(u.handlers[e.s])
  {
    hide Sessions;
  }

  lemma ProperMove(g: State, e: Event)
    requires Enabled(g, e) && Proper(g) && !StopEvent(e) && !Registry(e)
    ensures var u := Apply(g, e); e.s in u.handlers ==> ProperHandler(u.handlers[e.s])
  {
    hide Sessions, Gone;
  }

  // ---- callbacks ---------------------------------------------------------------------------

  /** Who owes a callback, and how the changes were counted. */
  lemma OwingChange(g: State, e: Event)
    requires Enabled(g, e) && Registered(g) && Proper(g)
    ensures var u := Apply(g, e);
            Owing(u) ==
              if e.CountIn? && Sessions(g, g.handlers[e.s].client) == 0 then Owing(g) + {e.s}
              else if e.CountOut? && u.downs == g.downs + 1 then Owing(g) + {e.s}
              else if e.FireIn? || e.FireOut? then Owing(g) - {e.s}
              else Owing(g)
  {
    hide Apply, Sessions, Registered, Proper, Enabled;
    if StopEvent(e) {
      StopsElsewhere(g, e);
    } else {
      SameElsewhere(g, e);
      EdgeHere(g, e);
      OneOwing(g, Apply(g, e), e.s);
    }
  }

  lemma OneOwing(g: State, u: State, s: Stream)
    requires SameBut(g, u, s)
    ensures Owing(u) == if s in u.handlers && u.handlers[s].edge then Owing(g) + {s} else Owing(g) - {s}
  {}

  lemma EdgeHere(g: State, e: Event)
    requires Enabled(g, e) && Registered(g) && Proper(g) && !StopEvent(e)
    ensures var u := Apply(g, e);
            (e.s in u.handlers && u.handlers[e.s].edge) <==>
              if e.CountIn? then Sessions(g, g.handlers[e.s].client) == 0
              else if e.CountOut? then u.downs == g.downs + 1
              else false
    ensures !e.FireIn? && !e.FireOut? ==> e.s !in Owing(g)
  {
    if e.CountIn? || e.CountOut? {
      EdgeAtCount(g, e);
    } else {
      EdgeElse(g, e);
    }
    hide Apply, Sessions;
  }

  lemma EdgeAtCount(g: State, e: Event)
    requires Enabled(g, e) && Proper(g) && (e.CountIn? || e.CountOut?)
    ensures var u := Apply(g, e);
            (e.s in u.handlers && u.handlers[e.s].edge) <==>
              if e.CountIn? then Sessions(g, g.handlers[e.s].client) == 0 else u.downs == g.downs + 1
    ensures e.s !in Owing(g)
  {}

  lemma EdgeElse(g: State, e: Event)
    requires Enabled(g, e) && Registered(g) && Proper(g) && !StopEvent(e) && !e.CountIn? && !e.CountOut?
    ensures var u := Apply(g, e); !(e.s in u.handlers && u.handlers[e.s].edge)
    ensures !e.FireIn? && !e.FireOut? ==> e.s !in Owing(g)
  {
    hide Sessions;
  }

  /** The numbers of changes and callbacks after a step. */
  lemma TalliesChange(g: State, e: Event)
    requires Enabled(g, e)
    ensures var u := Apply(g, e);
            && u.ups == g.ups + (if e.CountIn? && Sessions(g, g.handlers[e.s].client) == 0 then 1 else 0)
            && (u.downs == g.downs || (e.CountOut? && u.downs == g.downs + 1))
            && u.fired == g.fired + (if (e.FireIn? || e.FireOut?) && g.handlers[e.s].edge then 1 else 0)
  {}

  lemma KeepsOwed(g: State, e: Event)
    requires Enabled(g, e) && Inv(g)
    ensures var u := Apply(g, e); u.fired + |Owing(u)| == u.ups + u.downs
  {
    hide Apply, Sessions, Registered, Proper, Stopping, CountsRight;
    OwingChange(g, e);
    TalliesChange(g, e);
    if !StopEvent(e) {
      EdgeHere(g, e);
      assert e.FireIn? || e.FireOut? ==> (g.handlers[e.s].edge <==> e.s in Owing(g));
    }
  }

  /** How many clients have a session after a step. */
  lemma ClientsChange(g: State, e: Event)
    requires Enabled(g, e) && Inv(g)
    ensures var u := Apply(g, e); u.ups - u.downs == |u.sessions|
  {
    match e
    case CountIn(s) =>
      CountedIn(g, s);
    case CountOut(s) =>
      CountedOut(g, s);
    case ClearSessions(k) =>
      forall c ensures c !in g.sessions {
        NoneLeft(g, k, c);
      }
      assert g.sessions == map[];
    case _ =>
  }

  lemma CountedIn(g: State, s: Stream)
    requires Enabled(g, CountIn(s)) && Inv(g)
    ensures var u := Apply(g, CountIn(s)); u.ups - u.downs == |u.sessions|
  {
    var c := g.handlers[s].client;
    PositiveCounts(g, c);
    GrowsByOne(g.sessions, c, Sessions(g, c) + 1);
    hide StreamsOf, Owing, Stopping, Registered, Proper, CountsRight;
  }

  lemma PositiveCounts(g: State, c: Client)
    requires CountsRight(g)
    ensures Sessions(g, c) == 0 <==> c !in g.sessions
  {
    hide StreamsOf;
    assert c in g.sessions ==> Sessions(g, c) == g.sessions[c] > 0;
  }

  lemma GrowsByOne(m: map<Client, int>, c: Client, v: int)
    ensures |m[c := v]| == |m| + (if c in m then 0 else 1)
  {
    assert m[c := v].Keys == m.Keys + {c};
    assert |m[c := v]| == |m[c := v].Keys| && |m| == |m.Keys|;
  }

  lemma CountedOut(g: State, s: Stream)
    requires Enabled(g, CountOut(s)) && Inv(g)
    ensures var u := Apply(g, CountOut(s)); u.ups - u.downs == |u.sessions|
  {
    var c := g.handlers[s].client;
    var u := Apply(g, CountOut(s));
    assert |u.sessions| == |u.sessions.Keys| && |g.sessions| == |g.sessions.Keys|;
    if g.handlers[s].authed && c in g.sessions {
      assert u.sessions.Keys == if g.sessions[c] - 1 <= 0 then g.sessions.Keys - {c} else g.sessions.Keys;
    }
  }

  lemma KeepsInv(g: State, e: Event)
    requires Inv(g) && Enabled(g, e)
    ensures Inv(Apply(g, e))
  {
    KeepsRegistered(g, e);
    KeepsProper(g, e);
    KeepsCounts(g, e);
    KeepsOwed(g, e);
    ClientsChange(g, e);
    KeepsStopping(g, e);
    hide Apply, Enabled, Registered, Proper, CountsRight, Stopping;
  }

  // ---- every run -----------------------------------------------------------------------------

  /** Any interleaving of connections, handlers and calls of stop. */
  ghost predicate Schedule(g: State, es: seq<Event>)
    decreases |es|
  {
    es == [] || (Enabled(g, es[0]) && Schedule(Apply(g, es[0]), es[1..]))
  }

  ghost function After(g: State, es: seq<Event>): State
    requires Schedule(g, es)
    decreases |es|
  {
    if es == [] then g else After(Apply(g, es[0]), es[1..])
  }

  lemma {:induction false} Run(g: State, es: seq<Event>)
    requires Inv(g) && Schedule(g, es)
    ensures Inv(After(g, es))
    decreases |es|
  {
    if es != [] {
      KeepsInv(g, es[0]);
      Run(Apply(g, es[0]), es[1..]);
    }
  }

  /** The streams launched in a run while the server was running, without those whose handler could not start
      or has finished. */
  ghost function LiveAfter(es: seq<Event>, running: bool, live: set<Stream>): set<Stream>
    decreases |es|
  {
    if es == [] then live
    else
      match es[0]
      case Launch(s) => LiveAfter(es[1..], running, if running then live + {s} else live)
      case StartThread(s, ok) => LiveAfter(es[1..], running, if ok then live else live - {s})
      case Finish(s) => LiveAfter(es[1..], running, live - {s})
      case StopBegin(_) => LiveAfter(es[1..], false, live)
      case _ => LiveAfter(es[1..], running, live)
  }

  /** In every interleaving those are the registered ones: no stream is turned away while the server runs, and
      none is given up but by its own handler. */
  lemma {:induction false} EveryStreamServed(g: State, es: seq<Event>)
    requires Schedule(g, es)
    ensures After(g, es).active == LiveAfter(es, g.running, g.active)
    decreases |es|
  {
    if es != [] {
      ActiveAfter(g, es[0]);
      hide Apply, Enabled;
      EveryStreamServed(Apply(g, es[0]), es[1..]);
    }
  }

  lemma ActiveAfter(g: State, e: Event)
    requires Enabled(g, e)
    ensures Apply(g, e).running == (g.running && !e.StopBegin?)
    ensures Apply(g, e).active == match e
                                  case Launch(s) => if g.running then g.active + {s} else g.active
                                  case StartThread(s, ok) => if ok then g.active else g.active - {s}
                                  case Finish(s) => g.active - {s}
                                  case _ => g.active
  {
    hide Sessions;
  }

  /** A state some interleaving leads to. */
  ghost predicate Reachable(g: State) {
    exists es :: Schedule(Initial(), es) && After(Initial(), es) == g
  }

  lemma ReachableInv(g: State)
    requires Reachable(g)
    ensures Inv(g)
  {
    hide Inv;
    var es :| Schedule(Initial(), es) && After(Initial(), es) == g;
    InitialInv();
    Run(Initial(), es);
  }

  /** In every interleaving: the connection count is the number of live handlers; a client has a session
      exactly while it has live authenticated streams, and its count is their number; and every change
      of a client between none and some has been reported once, except those just being reported. */
  lemma SessionsAndCallbacks(g: State, c: Client)
    requires Reachable(g)
    ensures g.active == g.handlers.Keys && g.connCount == |g.active|
    ensures c in g.sessions <==> StreamsOf(g, c) != {}
    ensures c in g.sessions ==> g.sessions[c] == |StreamsOf(g, c)|
    ensures g.ups - g.downs == |g.sessions| && g.fired + |Owing(g)| == g.ups + g.downs
  {
    hide Reachable;
    ReachableInv(g);
    hide Owing, StreamsOf, Stopping, Proper;
    assert Sessions(g, c) == |StreamsOf(g, c)|;
  }

  /** A call of stop that found the server running: what is still registered after it closed its
      snapshot is closed, nothing is registered any more once it has waited, and clearing the sessions
      then changes nothing. */
  lemma StopIsClean(g: State, k: nat)
    requires Reachable(g) && k in g.stops
    ensures var t := g.stops[k];
            && !g.running
            && (t.found && t.pc != Flipped ==> g.active <= t.snapshot)
            && (t.pc == Joined ==> g.active <= g.closed)
            && (t.pc == Drained || t.pc == Stopped ==> g.active == {} && g.connCount == 0)
            && (t.pc == Drained ==> g.sessions == map[])
  {
    hide Reachable;
    ReachableInv(g);
    hide Owing, StreamsOf, CountsRight, Proper, Reported;
    assert StopKnows(g, g.stops[k]);
    if g.stops[k].pc == Drained {
      ClearsNothing(g, k);
    }
  }

  lemma ClearsNothing(g: State, k: nat)
    requires Inv(g) && StopAt(g, k, Drained)
    ensures g.sessions == map[]
  {
    hide StreamsOf, Sessions;
    forall c ensures c !in g.sessions {
      NoneLeft(g, k, c);
    }
    assert g.sessions == map[];
  }

  /** Nothing is registered after a call of stop has begun, in any continuation. */
  lemma {:induction false} NothingNew(g: State, es: seq<Event>)
    requires Schedule(g, es) && !g.running && Registered(g)
    ensures var u := After(g, es); !u.running && u.active <= g.active
    decreases |es|
  {
    if es != [] {
      KeepsRegistered(g, es[0]);
      Shrinks(g, es[0]);
      NothingNew(Apply(g, es[0]), es[1..]);
    }
  }

  lemma Shrinks(g: State, e: Event)
    requires Enabled(g, e) && !g.running
    ensures !Apply(g, e).running && Apply(g, e).active <= g.active
  {}

  /** The step with which a call of stop returns. */
  predicate Returns(g: State, e: Event, k: nat) {
    e == ClearSessions(k) || (e == StopBegin(k) && !g.running)
  }

  /** What a caller of stop may rely on: when its call returns, no stream is registered exactly if the call
      found the server running or none was registered when it began. */
  lemma ReturnsWithNone(g: State, e: Event, k: nat)
    requires Reachable(g) && Enabled(g, e) && Returns(g, e, k)
    ensures var u := Apply(g, e);
            k in u.stops && (u.active == {} <==> u.stops[k].found || u.stops[k].before == {})
  {
    hide Reachable;
    if e.ClearSessions? {
      StopIsClean(g, k);
      ReachableInv(g);
      assert StopKnows(g, g.stops[k]);
    }
    hide Inv;
  }

  /** A run in which the second of two calls returns while a stream is registered. */
  lemma SecondStopTooEarly()
    ensures var es := [Launch(0), StopBegin(0), StopBegin(1)];
            Schedule(Initial(), es)
            && var g := After(Initial(), es);
               g.active == {0} && g.stops[1] == Stop(TurnedAway, false, {0}, {}, {})
  {
    var a, b, c := Launch(0), StopBegin(0), StopBegin(1);
    var es := [a, b, c];
    var g1 := Apply(Initial(), a);
    var g2 := Apply(g1, b);
    var g3 := Apply(g2, c);
    assert es[1..] == [b, c] && es[1..][1..] == [c] && es[1..][1..][1..] == [];
    assert Schedule(g3, []) && Schedule(g2, [c]) && Schedule(g1, [b, c]);
    assert After(g2, [c]) == After(g3, []) && After(g1, [b, c]) == After(g2, [c]);
    assert {} + {0} == {0};
  }

  // ---- the locked sections -----------------------------------------------------------------

  /** The server's tables; where handlers and stops stand is only followed in the proof. */
  class Server {
    var running: bool
    var activeStreams: set<Stream>
    var connCount: int
    var sessions: map<Client, int>
    ghost var handlers: map<Stream, Handler>
    ghost var closed: set<Stream>
    ghost var seen: set<Stream>
    ghost var ups: nat
    ghost var downs: nat
    ghost var fired: nat
    ghost var stops: map<nat, Stop>

    ghost function Abs(): State
      reads this
    {
      State(running, activeStreams, connCount, sessions, handlers, closed, seen, ups, downs, fired, stops)
    }

    constructor ()
      ensures Abs() == Initial()
    {
      running, activeStreams, connCount, sessions := true, {}, 0, map[];
      handlers, closed, seen, ups, downs, fired, stops := map[], {}, {}, 0, 0, 0, map[];
    }

    /** Registers a stream, or closes it when the server is stopping. */
    method LaunchStream(s: Stream) returns (registered: bool)
      requires Enabled(Abs(), Launch(s))
      modifies this
      ensures Abs() == Apply(old(Abs()), Launch(s)) && registered == running
    {
      seen := seen + {s};
      if !running {
        closed := closed + {s};
        return false;
      }
      activeStreams := activeStreams + {s};
      connCount := connCount + 1;
      handlers := handlers[s := Handler(Launching, "", false, false)];
      return true;
    }

    /** Counts an authenticated stream; tells whether it is the client's first. */
    method AddSession(s: Stream, client: Client) returns (clientAdded: bool)
      requires Enabled(Abs(), CountIn(s)) && handlers[s].client == client
      modifies this
      ensures Abs() == Apply(old(Abs()), CountIn(s))
      ensures clientAdded <==> Sessions(old(Abs()), client) == 0
    {
      var count := if client in sessions then sessions[client] else 0;
      sessions := sessions[client := count + 1];
      clientAdded := count == 0;
      ups := ups + (if clientAdded then 1 else 0);
      handlers := handlers[s := handlers[s].(pc := Entering, edge := clientAdded)];
    }

    /** Uncounts it; tells whether it was the client's last. */
    method DropSession(s: Stream, client: Client) returns (clientRemoved: bool)
      requires Enabled(Abs(), CountOut(s)) && handlers[s].authed && handlers[s].client == client
      modifies this
      ensures Abs() == Apply(old(Abs()), CountOut(s))
      ensures clientRemoved <==> client in old(sessions) && old(sessions)[client] <= 1
    {
      clientRemoved := false;
      if client in sessions {
        var left := sessions[client] - 1;
        if left <= 0 {
          sessions := sessions - {client};
          clientRemoved := true;
          downs := downs + 1;
        } else {
          sessions := sessions[client := left];
        }
      }
      handlers := handlers[s := handlers[s].(pc := Exiting, edge := handlers[s].edge || clientRemoved)];
    }

    method Unregister(s: Stream) returns (none: bool)
      requires Enabled(Abs(), Finish(s))
      modifies this
      ensures Abs() == Apply(old(Abs()), Finish(s)) && none == (connCount == 0)
    {
      activeStreams := activeStreams - {s};
      connCount := connCount - 1;
      handlers := handlers - {s};
      none := connCount == 0;
    }

    method BeginStop(k: nat) returns (mine: bool)
      requires Enabled(Abs(), StopBegin(k))
      modifies this
      ensures Abs() == Apply(old(Abs()), StopBegin(k)) && mine == old(running)
    {
      mine := running;
      if running {
        stops := stops[k := Stop(Flipped, true, activeStreams, {}, {})];
      } else {
        stops := stops[k := Stop(TurnedAway, false, activeStreams, {}, {})];
      }
      running := false;
    }

    /** Closes the streams of a snapshot one after the other. */
    method CloseAll(k: nat)
      requires Enabled(Abs(), Snapshot(k))
      modifies this
      ensures Enabled(Abs(), CloseDone(k)) && stops[k].snapshot == old(activeStreams)
      ensures closed == old(closed) + old(activeStreams)
      ensures activeStreams == old(activeStreams) && connCount == old(connCount) && sessions == old(sessions)
    {
      var todo := activeStreams;
      ghost var snapshot := activeStreams;
      ghost var call := stops[k];
      stops := stops[k := call.(pc := Closing, snapshot := snapshot, todo := snapshot)];
      while todo != {}
        invariant todo <= snapshot && k in stops && stops[k] == call.(pc := Closing, snapshot := snapshot, todo := todo)
        invariant closed == old(closed) + (snapshot - todo)
        invariant activeStreams == old(activeStreams) && connCount == old(connCount) && sessions == old(sessions)
        decreases |todo|
      {
        var s :| s in todo;
        todo := todo - {s};
        closed := closed + {s};
        stops := stops[k := call.(pc := Closing, snapshot := snapshot, todo := todo)];
      }
    }
  }
}
