/** The bounded invalidation queues of the server (client/src/server/server.cpp:636-706). */
module Broadcast {

  const MAX_QUEUED: nat := 256

  type Paths = seq<string>

  /** One session with its queue and worker; `since` are the broadcasts made since it was registered,
      `inflight` what the worker has taken and not yet sent. */
  datatype Session = Session(stopping: bool, queue: Paths, since: Paths, inflight: Paths, delivered: Paths,
                             dropped: nat)

  datatype Event = Push(path: string) | Take | Sent | StopSession

  ghost predicate Enabled(s: Session, e: Event) {
    match e
    case Push(_) => true
    case Take => !s.stopping && s.queue != [] && s.inflight == []
    case Sent => |s.inflight| == 1
    case StopSession => true
  }

  /** A full queue sheds its oldest entry; a session being taken down gets nothing. */
  function Pushed(s: Session, path: string): Session {
    if s.stopping then s
    else
      var full := |s.queue| >= MAX_QUEUED;
      s.(queue := (if full then s.queue[1..] else s.queue) + [path],
         dropped := s.dropped + (if full then 1 else 0),
         since := s.since + [path])
  }

  function Apply(s: Session, e: Event): Session
    requires Enabled(s, e)
  {
    match e
    case Push(path) => Pushed(s, path)
    case Take => s.(queue := s.queue[1..], inflight := [s.queue[0]])
    case Sent => s.(inflight := [], delivered := s.delivered + s.inflight)
    case StopSession => s.(stopping := true)
  }

  // ---- subsequences ----------------------------------------------------------------

  /** The one is left of the other after leaving out some elements. */
  ghost predicate Sub(a: Paths, b: Paths)
    decreases |b|
  {
    if a == [] then true
    else if b == [] then false
    else if a[|a| - 1] == b[|b| - 1] && Sub(a[..|a| - 1], b[..|b| - 1]) then true
    else Sub(a, b[..|b| - 1])
  }

  lemma SubGrow(a: Paths, b: Paths, x: string)
    requires Sub(a, b)
    ensures Sub(a, b + [x]) && Sub(a + [x], b + [x])
  {
    assert (b + [x])[..|b|] == b && (a + [x])[..|a|] == a;
  }

  /** Leaving out one more element. */
  lemma {:induction false} SubShrink(a: Paths, b: Paths, i: nat)
    requires i < |a| && Sub(a, b)
    ensures Sub(a[..i] + a[i + 1..], b)
    decreases |b|
  {
    var n, c, d := |a| - 1, a[..i] + a[i + 1..], b[..|b| - 1];
    if a[n] == b[|b| - 1] && Sub(a[..n], d) {
      if i == n {
        assert c == a[..n];
        SubWider(c, d, b);
      } else {
        SubShrink(a[..n], d, i);
        assert c[..|c| - 1] == a[..n][..i] + a[..n][i + 1..];
      }
    } else {
      SubShrink(a, d, i);
      SubWider(c, d, b);
    }
  }

  lemma SubWider(a: Paths, d: Paths, b: Paths)
    requires Sub(a, d) && b != [] && d == b[..|b| - 1]
    ensures Sub(a, b)
  {}

  // ---- the invariant ---------------------------------------------------------------

  /** What was or will be delivered, unless more is dropped. */
  function Kept(s: Session): Paths { s.delivered + s.inflight + s.queue }

  ghost predicate Inv(s: Session) {
    && |s.queue| <= MAX_QUEUED && |s.inflight| <= 1
    && |s.queue| <= |s.since| && s.queue == s.since[|s.since| - |s.queue|..]
    && Sub(Kept(s), s.since)
    && |s.since| == |Kept(s)| + s.dropped
  }

  function Fresh(): Session { Session(false, [], [], [], [], 0) }

  lemma FreshInv()
    ensures Inv(Fresh())
  {}

  lemma KeepsInv(s: Session, e: Event)
    requires Inv(s) && Enabled(s, e)
    ensures Inv(Apply(s, e))
  {
    hide Sub;
    var u := Apply(s, e);
    match e
    case Push(path) =>
      if !s.stopping {
        PushKeeps(s, path);
      }
    case Take => assert Kept(u) == Kept(s);
    case Sent => assert Kept(u) == Kept(s);
    case StopSession =>
  }

  lemma PushKeeps(s: Session, path: string)
    requires Inv(s) && !s.stopping
    ensures Inv(Pushed(s, path))
  {
    hide Sub;
    SuffixGrows(s.queue, s.since, path);
    PushSub(s, path);
    PushCounts(s, path);
    hide Kept;
  }

  /** What is kept stays in order. */
  lemma PushSub(s: Session, path: string)
    requires Sub(Kept(s), s.since) && !s.stopping
    ensures Sub(Kept(Pushed(s, path)), s.since + [path])
  {
    hide Sub;
    var sent, q := s.delivered + s.inflight, s.queue;
    if |q| >= MAX_QUEUED {
      WithoutOldest(sent, q);
      SubShrink(sent + q, s.since, |sent|);
      SubGrow(sent + q[1..], s.since, path);
      assert sent + (q[1..] + [path]) == (sent + q[1..]) + [path];
    } else {
      SubGrow(sent + q, s.since, path);
      assert sent + (q + [path]) == (sent + q) + [path];
    }
  }

  lemma WithoutOldest(sent: Paths, q: Paths)
    requires q != []
    ensures (sent + q)[..|sent|] + (sent + q)[|sent| + 1..] == sent + q[1..]
  {}

  /** Every broadcast is kept or counted as dropped. */
  lemma PushCounts(s: Session, path: string)
    requires |s.since| == |Kept(s)| + s.dropped && |s.queue| <= MAX_QUEUED && !s.stopping
    ensures var u := Pushed(s, path);
            |u.since| == |Kept(u)| + u.dropped && |u.queue| <= MAX_QUEUED
  {}

  /** Adding at the end keeps a queue the end of the broadcasts, with or without its oldest entry. */
  lemma SuffixGrows(q: Paths, all: Paths, x: string)
    requires |q| <= |all| && q == all[|all| - |q|..]
    ensures q + [x] == (all + [x])[|all| - |q|..]
    ensures q != [] ==> q[1..] + [x] == (all + [x])[|all| - |q| + 1..]
  {
    assert (all + [x])[|all| - |q|..] == all[|all| - |q|..] + [x];
    if q != [] {
      assert (all + [x])[|all| - |q| + 1..] == all[|all| - |q| + 1..] + [x] && all[|all| - |q| + 1..] == q[1..];
    }
  }

  // ---- every run -------------------------------------------------------------------

  ghost predicate Schedule(s: Session, es: seq<Event>)
    decreases |es|
  {
    es == [] || (Enabled(s, es[0]) && Schedule(Apply(s, es[0]), es[1..]))
  }

  ghost function After(s: Session, es: seq<Event>): Session
    requires Schedule(s, es)
    decreases |es|
  {
    if es == [] then s else After(Apply(s, es[0]), es[1..])
  }

  /** How many broadcasts found the queue full. */
  ghost function Overflows(s: Session, es: seq<Event>): nat
    requires Schedule(s, es)
    decreases |es|
  {
    if es == [] then 0
    else (if es[0].Push? && !s.stopping && |s.queue| >= MAX_QUEUED then 1 else 0) + Overflows(Apply(s, es[0]), es[1..])
  }

  lemma DropsCounted(s: Session, e: Event)
    requires Enabled(s, e)
    ensures Apply(s, e).dropped
         == s.dropped + (if e.Push? && !s.stopping && |s.queue| >= MAX_QUEUED then 1 else 0)
  {}

  lemma {:induction false} Run(s: Session, es: seq<Event>)
    requires Inv(s) && Schedule(s, es)
    ensures Inv(After(s, es)) && After(s, es).dropped == s.dropped + Overflows(s, es)
    decreases |es|
  {
    if es != [] {
      hide Inv;
      KeepsInv(s, es[0]);
      DropsCounted(s, es[0]);
      hide Apply;
      Run(Apply(s, es[0]), es[1..]);
    }
  }

  /** What is broadcast in a run until the session is told to stop. */
  ghost function BroadcastIn(es: seq<Event>, stopping: bool): Paths
    decreases |es|
  {
    if es == [] || stopping then []
    else (if es[0].Push? then [es[0].path] else []) + BroadcastIn(es[1..], es[0].StopSession?)
  }

  lemma {:induction false} History(s: Session, es: seq<Event>)
    requires Schedule(s, es)
    ensures After(s, es).since == s.since + BroadcastIn(es, s.stopping)
    decreases |es|
  {
    if es == [] {
      assert s.since + [] == s.since;
    } else {
      var u := Apply(s, es[0]);
      StepHistory(s, es[0]);
      hide Apply;
      History(u, es[1..]);
      assert u.since + BroadcastIn(es[1..], u.stopping) == s.since + BroadcastIn(es, s.stopping);
    }
  }

  lemma StepHistory(s: Session, e: Event)
    requires Enabled(s, e)
    ensures Apply(s, e).since == s.since + (if e.Push? && !s.stopping then [e.path] else [])
    ensures Apply(s, e).stopping == (s.stopping || e.StopSession?)
  {}

  /** The worker alone empties the queue: from any state of a session that has not been told to stop, one step
      for what it has taken and two for each entry, and all that was kept is delivered. */
  lemma {:induction false} Drains(s: Session) returns (es: seq<Event>)
    requires Inv(s) && !s.stopping
    ensures Schedule(s, es) && |es| == |s.inflight| + 2 * |s.queue|
    ensures var u := After(s, es);
            u.queue == [] && u.inflight == [] && u.delivered == Kept(s) && u.dropped == s.dropped
    decreases |s.inflight| + 2 * |s.queue|
  {
    if s.inflight == [] && s.queue == [] {
      es := [];
      assert Kept(s) == s.delivered;
    } else {
      var e := if s.inflight == [] then Take else Sent;
      var u := Apply(s, e);
      WorkerStep(s, e);
      hide Inv, Apply, Kept, Enabled;
      var rest := Drains(u);
      es := [e] + rest;
      assert es[1..] == rest;
    }
  }

  lemma WorkerStep(s: Session, e: Event)
    requires Inv(s) && !s.stopping && (s.inflight != [] || s.queue != [])
    requires e == if s.inflight == [] then Take else Sent
    ensures Enabled(s, e) && Inv(Apply(s, e)) && Kept(Apply(s, e)) == Kept(s)
    ensures var u := Apply(s, e);
            && !u.stopping && u.dropped == s.dropped
            && |u.inflight| + 2 * |u.queue| == |s.inflight| + 2 * |s.queue| - 1
  {
    assert |s.inflight| <= 1;
    KeepsInv(s, e);
    SameKept(s, e);
    hide Inv, Kept;
  }

  lemma SameKept(s: Session, e: Event)
    requires Enabled(s, e) && (e.Take? || e.Sent?)
    ensures Kept(Apply(s, e)) == Kept(s)
  {
    if e.Take? {
      assert [s.queue[0]] + s.queue[1..] == s.queue;
      assert s.delivered + [s.queue[0]] + s.queue[1..] == s.delivered + [] + ([s.queue[0]] + s.queue[1..]);
    }
  }

  /** In every interleaving of broadcasts and the worker: the queue is bounded and holds the newest
      broadcasts, what is delivered comes in their order, and nothing is lost exactly when the bound was
      never hit. */
  lemma Delivery(es: seq<Event>)
    requires Schedule(Fresh(), es)
    ensures var s := After(Fresh(), es);
            && s.since == BroadcastIn(es, false)
            && |s.queue| <= MAX_QUEUED && |s.queue| <= |s.since|
            && s.queue == s.since[|s.since| - |s.queue|..]
            && Sub(Kept(s), s.since)
            && (Kept(s) == s.since <==> Overflows(Fresh(), es) == 0)
  {
    FreshInv();
    Run(Fresh(), es);
    History(Fresh(), es);
    var s := After(Fresh(), es);
    assert [] + BroadcastIn(es, false) == BroadcastIn(es, false);
    hide Schedule, After, Overflows, Sub, BroadcastIn;
    if s.dropped == 0 {
      SubWhole(Kept(s), s.since);
    }
  }

  lemma {:induction false} SubWhole(a: Paths, b: Paths)
    requires Sub(a, b) && |a| >= |b|
    ensures a == b
    decreases |b|
  {
    if a != [] {
      var n, m := |a| - 1, |b| - 1;
      if a[n] == b[m] && Sub(a[..n], b[..m]) {
        SubWhole(a[..n], b[..m]);
        assert a == a[..n] + [a[n]] && b == b[..m] + [b[m]];
      } else {
        SubWhole(a, b[..m]);
      }
    }
  }

  lemma ListedElsewhere(order: seq<nat>, i: nat)
    requires i < |order| && forall j, k | 0 <= j < k < |order| :: order[j] != order[k]
    ensures var rest := order[..i] + order[i + 1..];
            && (forall x :: x in rest <==> x in order && x != order[i])
            && (forall j, k | 0 <= j < k < |rest| :: rest[j] != rest[k])
  {
    var rest := order[..i] + order[i + 1..];
    assert forall k | 0 <= k < |rest| :: rest[k] == order[if k < i then k else k + 1];
    forall x | x in order && x != order[i] ensures x in rest {
      var k :| 0 <= k < |order| && order[k] == x;
      assert rest[if k < i then k else k - 1] == x;
    }
  }

  // ---- all sessions ----------------------------------------------------------------

  class Broadcaster {
    var order: seq<nat>            // the registered sessions
    var sessions: map<nat, Session>

    ghost predicate Valid()
      reads this
    {
      && (forall i | 0 <= i < |order| :: order[i] in sessions)
      && (forall i, j | 0 <= i < j < |order| :: order[i] != order[j])
      && (forall id | id in sessions :: Inv(sessions[id]))
    }

    constructor ()
      ensures Valid() && order == []
    {
      order, sessions := [], map[];
    }

    method RegisterSession(id: nat)
      requires Valid() && id !in sessions
      modifies this
      ensures Valid() && order == old(order) + [id] && sessions == old(sessions)[id := Fresh()]
    {
      FreshInv();
      hide Inv, Fresh;
      sessions := sessions[id := Fresh()];
      order := order + [id];
    }

    /** Off the list first, then told to stop. */
    method UnregisterSession(id: nat)
      requires Valid()
      modifies this
      ensures Valid() && id !in order && forall x :: x != id ==> (x in order <==> x in old(order))
      ensures sessions == if id in old(order) then old(sessions)[id := Apply(old(sessions)[id], StopSession)]
                          else old(sessions)
    {
      hide Inv;
      var i := 0;
      while i < |order| && order[i] != id
        invariant 0 <= i <= |order| && id !in order[..i]
      {
        i := i + 1;
      }
      if i < |order| {
        KeepsInv(sessions[id], StopSession);
        ListedElsewhere(order, i);
        order := order[..i] + order[i + 1..];
        sessions := sessions[id := sessions[id].(stopping := true)];
      }
    }

    /** Queues a path at every registered session. */
    method BroadcastInvalidate(path: string)
      requires Valid()
      modifies `sessions
      ensures Valid() && sessions.Keys == old(sessions).Keys
      ensures forall id | id in sessions ::
                sessions[id] == if id in order then Pushed(old(sessions)[id], path) else old(sessions)[id]
    {
      hide Inv;
      for i := 0 to |order|
        invariant sessions.Keys == old(sessions).Keys
        invariant forall id | id in sessions ::
                    sessions[id] == if id in order[..i] then Pushed(old(sessions)[id], path) else old(sessions)[id]
        invariant forall id | id in sessions :: Inv(sessions[id])
      {
        var id := order[i];
        KeepsInv(sessions[id], Push(path));
        sessions := sessions[id := Pushed(sessions[id], path)];
      }
      assert order[..|order|] == order;
    }

    /** The worker of a session takes the oldest entry. */
    method TakeFront(id: nat) returns (path: string)
      requires Valid() && id in sessions && Enabled(sessions[id], Take)
      modifies `sessions
      ensures Valid() && sessions == old(sessions)[id := Apply(old(sessions)[id], Take)]
      ensures path == old(sessions)[id].queue[0]
    {
      var s := sessions[id];
      KeepsInv(s, Take);
      path := s.queue[0];
      sessions := sessions[id := s.(queue := s.queue[1..], inflight := [path])];
    }
  }
}
