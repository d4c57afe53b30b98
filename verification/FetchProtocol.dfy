/** Concurrent block fetches and handle closing in the RAM cache, one locked section a step
    (client/src/fs/ram_cache.cpp:370-391, 481-518, 775-783). */
module FetchProtocol {
  import opened BlockStore

  type Thread = nat

  /** Where a thread is between two locked sections. */
  datatype Phase =
    | Want(key: Key, h: nat)          // about to look the block up
    | Waiting(key: Key, h: nat)       // asleep until some fetch finishes
    | Claimed(key: Key, h: nat)       // owns the fetch, has not asked for the handle
    | Reading(key: Key, h: nat)       // its READ is at the host
    | Fetched(key: Key, h: nat)       // has an answer or was refused the handle
    | CloseWaiting(h: nat)            // asleep until the reads on the handle are done
    | CloseWoken(h: nat)              // about to check again
    | Closing(h: nat)                 // about to forward RELEASE
    | Releasing(h: nat)               // RELEASE is at the host

  datatype Fh = Fh(activeReads: int, closing: bool)

  /** `used` are the handles ever opened, `released` those whose RELEASE was forwarded. */
  datatype State = State(inflight: set<Key>, fh: map<nat, Fh>, threads: map<Thread, Phase>,
                         used: set<nat>, released: set<nat>)

  /** The steps. Whether a lookup hits is up to the store: blocks come and go under other threads. */
  datatype Event =
    | Open(newFh: nat)
    | Start(t: Thread, key: Key, h: nat)
    | Look(t: Thread, hit: bool)
    | Wake(t: Thread)                 // a wakeup nobody signalled
    | BeginRead(t: Thread)
    | EndRead(t: Thread)
    | Finish(t: Thread)
    | BeginClose(t: Thread, h: nat)
    | CheckClose(t: Thread)
    | Release(t: Thread)
    | Remove(t: Thread)

  ghost predicate Enabled(s: State, e: Event) {
    match e
    case Open(h) => h !in s.used
    case Start(t, _, _) => t !in s.threads
    case BeginClose(t, h) => t !in s.threads && h in s.used
    case Look(t, _) => t in s.threads && s.threads[t].Want?
    case Wake(t) => t in s.threads && (s.threads[t].Waiting? || s.threads[t].CloseWaiting?)
    case BeginRead(t) => t in s.threads && s.threads[t].Claimed?
    case EndRead(t) => t in s.threads && s.threads[t].Reading?
    case Finish(t) => t in s.threads && s.threads[t].Fetched?
    case CheckClose(t) => t in s.threads && s.threads[t].CloseWoken?
    case Release(t) => t in s.threads && s.threads[t].Closing?
    case Remove(t) => t in s.threads && s.threads[t].Releasing?
  }

  function Awake(p: Phase): Phase {
    match p
    case Waiting(k, h) => Want(k, h)
    case CloseWaiting(h) => CloseWoken(h)
    case _ => p
  }

  /** notify_all on the condition variable of the block table. */
  function WakeFetchers(m: map<Thread, Phase>): map<Thread, Phase> {
    map t | t in m :: if m[t].Waiting? then Awake(m[t]) else m[t]
  }

  /** notify_all on the condition variable of the handle table. */
  function WakeClosers(m: map<Thread, Phase>): map<Thread, Phase> {
    map t | t in m :: if m[t].CloseWaiting? then Awake(m[t]) else m[t]
  }

  predicate MayRead(fh: map<nat, Fh>, h: nat) { h in fh && !fh[h].closing }

  predicate Drained(fh: map<nat, Fh>, h: nat) { h !in fh || fh[h].activeReads == 0 }

  function Goto(s: State, t: Thread, p: Phase): State { s.(threads := s.threads[t := p]) }

  function Leave(s: State, t: Thread): State { s.(threads := s.threads - {t}) }

  function Apply(s: State, e: Event): State
    requires Enabled(s, e)
  {
    match e
    case Open(h) => s.(fh := s.fh[h := Fh(0, false)], used := s.used + {h})
    case Start(t, key, h) => Goto(s, t, Want(key, h))
    case Look(t, hit) =>
      var p := s.threads[t];
      if hit then Leave(s, t)
      else if p.key in s.inflight then Goto(s, t, Waiting(p.key, p.h))
      else Goto(s.(inflight := s.inflight + {p.key}), t, Claimed(p.key, p.h))
    case Wake(t) => Goto(s, t, Awake(s.threads[t]))
    case BeginRead(t) =>
      var p := s.threads[t];
      if MayRead(s.fh, p.h) then
        Goto(s.(fh := s.fh[p.h := s.fh[p.h].(activeReads := s.fh[p.h].activeReads + 1)]), t, Reading(p.key, p.h))
      else Goto(s, t, Fetched(p.key, p.h))
    case EndRead(t) =>
      var p := s.threads[t];
      if p.h !in s.fh then Goto(s, t, Fetched(p.key, p.h))
      else
        var left := s.fh[p.h].activeReads - 1;
        var u := Goto(s.(fh := s.fh[p.h := s.fh[p.h].(activeReads := left)]), t, Fetched(p.key, p.h));
        if left <= 0 then u.(threads := WakeClosers(u.threads)) else u
    case Finish(t) =>
      var u := Leave(s.(inflight := s.inflight - {s.threads[t].key}), t);
      u.(threads := WakeFetchers(u.threads))
    case BeginClose(t, h) =>
      if h !in s.fh then Goto(s, t, Closing(h))
      else
        var u := s.(fh := s.fh[h := s.fh[h].(closing := true)]);
        Goto(u, t, if s.fh[h].activeReads == 0 then Closing(h) else CloseWaiting(h))
    case CheckClose(t) =>
      var h := s.threads[t].h;
      Goto(s, t, if Drained(s.fh, h) then Closing(h) else CloseWaiting(h))
    case Release(t) =>
      var h := s.threads[t].h;
      Goto(s.(released := s.released + {h}), t, Releasing(h))
    case Remove(t) => Leave(s.(fh := s.fh - {s.threads[t].h}), t)
  }

  // ---- the invariant -------------------------------------------------------------

  predicate Owner(p: Phase) { p.Claimed? || p.Reading? || p.Fetched? }

  ghost function Readers(s: State, h: nat): set<Thread> {
    set t | t in s.threads && s.threads[t].Reading? && s.threads[t].h == h
  }

  /** Fetches in flight and the threads that own them correspond one to one. */
  ghost predicate SingleFlight(s: State) {
    && (forall t | t in s.threads && Owner(s.threads[t]) :: s.threads[t].key in s.inflight)
    && (forall t, u | t in s.threads && u in s.threads && Owner(s.threads[t]) && Owner(s.threads[u])
                      && s.threads[t].key == s.threads[u].key :: t == u)
    && (forall k | k in s.inflight :: exists t :: t in s.threads && Owner(s.threads[t]) && s.threads[t].key == k)
  }

  /** The count of a handle is the number of its reads at the host. */
  ghost predicate Counted(s: State) {
    && (forall h | h in s.fh :: s.fh[h].activeReads == |Readers(s, h)|)
    && (forall t | t in s.threads && s.threads[t].Reading? :: s.threads[t].h in s.fh)
  }

  /** Whoever sleeps waits for something still to happen. */
  ghost predicate NoLostWakeup(s: State) {
    && (forall t | t in s.threads && s.threads[t].Waiting? :: s.threads[t].key in s.inflight)
    && (forall t | t in s.threads && s.threads[t].CloseWaiting? :: !Drained(s.fh, s.threads[t].h))
  }

  ghost predicate Stopped(s: State, h: nat) {
    h in s.used && (h in s.fh ==> s.fh[h].closing)
  }

  /** A closer has stopped new reads, and one past its wait has seen the last read end. */
  ghost predicate Closed(s: State) {
    && (forall h | h in s.fh :: h in s.used)
    && (forall t | t in s.threads && (s.threads[t].CloseWaiting? || s.threads[t].CloseWoken?) ::
          Stopped(s, s.threads[t].h))
    && (forall t | t in s.threads && (s.threads[t].Closing? || s.threads[t].Releasing?) ::
          Stopped(s, s.threads[t].h) && Drained(s.fh, s.threads[t].h))
    && (forall h | h in s.released :: Stopped(s, h) && Drained(s.fh, h))
  }

  ghost predicate Inv(s: State) { SingleFlight(s) && Counted(s) && NoLostWakeup(s) && Closed(s) }

  // ---- every step keeps it ---------------------------------------------------------

  ghost function Initial(): State { State({}, map[], map[], {}, {}) }

  lemma InitialInv()
    ensures Inv(Initial())
  {}

  lemma KeepsSingleFlight(s: State, e: Event)
    requires Enabled(s, e) && SingleFlight(s)
    ensures SingleFlight(Apply(s, e))
  {
    hide SingleFlight;
    match e
    case Look(t, hit) => LookSingleFlight(s, t, hit);
    case Finish(t) => FinishSingleFlight(s, t);
    case _ => SameOwners(s, Apply(s, e));
  }

  ghost predicate Owns(s: State, t: Thread, k: Key) {
    t in s.threads && Owner(s.threads[t]) && s.threads[t].key == k
  }

  /** The same, as a statement about who owns what. */
  ghost predicate OneOwner(s: State) {
    && (forall t, k | Owns(s, t, k) :: k in s.inflight)
    && (forall t, u, k | Owns(s, t, k) && Owns(s, u, k) :: t == u)
    && (forall k | k in s.inflight :: exists t :: Owns(s, t, k))
  }

  lemma OneOwnerEach(s: State)
    ensures OneOwner(s) <==> SingleFlight(s)
  {
    if SingleFlight(s) {
      forall k | k in s.inflight ensures exists t :: Owns(s, t, k) {
        var t :| t in s.threads && Owner(s.threads[t]) && s.threads[t].key == k;
        assert Owns(s, t, k);
      }
    }
    if OneOwner(s) {
      forall t | t in s.threads && Owner(s.threads[t]) ensures s.threads[t].key in s.inflight {
        assert Owns(s, t, s.threads[t].key);
      }
      forall t, u | t in s.threads && u in s.threads && Owner(s.threads[t]) && Owner(s.threads[u])
                    && s.threads[t].key == s.threads[u].key
        ensures t == u
      {
        assert Owns(s, t, s.threads[t].key) && Owns(s, u, s.threads[t].key);
      }
      forall k | k in s.inflight ensures exists t :: t in s.threads && Owner(s.threads[t]) && s.threads[t].key == k {
        var t :| Owns(s, t, k);
      }
    }
  }

  lemma SameOwners(s: State, u: State)
    requires SingleFlight(s) && u.inflight == s.inflight
    requires forall t, k :: Owns(s, t, k) <==> Owns(u, t, k)
    ensures SingleFlight(u)
  {
    hide SingleFlight, Owns;
    OneOwnerEach(s);
    OneOwnerEach(u);
  }

  lemma LookSingleFlight(s: State, t: Thread, hit: bool)
    requires Enabled(s, Look(t, hit)) && SingleFlight(s)
    ensures SingleFlight(Apply(s, Look(t, hit)))
  {
    hide SingleFlight;
    var u, key := Apply(s, Look(t, hit)), s.threads[t].key;
    OneOwnerEach(s);
    OneOwnerEach(u);
    LookOthers(s, t, hit);
    assert forall k :: !Owns(s, t, k);
    assert forall k :: Owns(u, t, k) <==> !hit && key !in s.inflight && k == key;
    hide Owns;
    forall k | k in u.inflight ensures exists x :: Owns(u, x, k) {
      if k in s.inflight {
        var x :| Owns(s, x, k);
        assert x != t && Owns(u, x, k);
      } else {
        assert Owns(u, t, k);
      }
    }
  }

  lemma LookOthers(s: State, t: Thread, hit: bool)
    requires Enabled(s, Look(t, hit))
    ensures forall x, k | x != t :: Owns(s, x, k) <==> Owns(Apply(s, Look(t, hit)), x, k)
  {
    var u := Apply(s, Look(t, hit));
    assert forall x | x != t :: x in s.threads <==> x in u.threads;
    assert forall x | x != t && x in s.threads :: u.threads[x] == s.threads[x];
  }

  lemma FinishSingleFlight(s: State, t: Thread)
    requires Enabled(s, Finish(t)) && SingleFlight(s)
    ensures SingleFlight(Apply(s, Finish(t)))
  {
    hide SingleFlight;
    var u, key := Apply(s, Finish(t)), s.threads[t].key;
    OneOwnerEach(s);
    OneOwnerEach(u);
    forall x, k | x != t ensures Owns(s, x, k) <==> Owns(u, x, k) {
      assert x in s.threads ==> u.threads[x] == if s.threads[x].Waiting? then Awake(s.threads[x]) else s.threads[x];
    }
    assert Owns(s, t, key) && forall k :: !Owns(u, t, k);
    hide Owns;
    forall k | k in u.inflight ensures exists x :: Owns(u, x, k) {
      var x :| Owns(s, x, k);
      assert x != t ==> Owns(u, x, k);
      assert x == t ==> k == key by { OwnsOne(s, t, k, key); }
    }
  }

  lemma OwnsOne(s: State, t: Thread, k: Key, l: Key)
    ensures Owns(s, t, k) && Owns(s, t, l) ==> k == l
  {}

  lemma KeepsCounted(s: State, e: Event)
    requires Enabled(s, e) && Counted(s) && Closed(s)
    ensures Counted(Apply(s, e))
  {
    match e
    case BeginRead(t) => BeginCounted(s, t);
    case EndRead(t) => EndCounted(s, t);
    case _ => KeepsReaders(s, e);
  }

  /** Only the start and the end of a read change who is reading. */
  lemma KeepsReaders(s: State, e: Event)
    requires Enabled(s, e) && Counted(s) && Closed(s) && !e.BeginRead? && !e.EndRead?
    ensures Counted(Apply(s, e))
  {
    var u := Apply(s, e);
    SameReads(s, e);
    SameCounts(s, e);
    hide Apply;
    forall h ensures Readers(u, h) == Readers(s, h) {}
    forall t | e.Remove? && t in s.threads && s.threads[t].Reading? ensures s.threads[t].h != s.threads[e.t].h {
      ReaderCounts(s, t);
    }
  }

  lemma SameReads(s: State, e: Event)
    requires Enabled(s, e) && !e.BeginRead? && !e.EndRead?
    ensures var u := Apply(s, e);
            && (forall t :: t in u.threads && u.threads[t].Reading? <==> t in s.threads && s.threads[t].Reading?)
            && (forall t | t in u.threads && u.threads[t].Reading? :: u.threads[t] == s.threads[t])
  {}

  lemma SameCounts(s: State, e: Event)
    requires Enabled(s, e) && !e.BeginRead? && !e.EndRead?
    ensures var u := Apply(s, e);
            && (forall h | h in u.fh :: if e.Open? && h == e.newFh then u.fh[h].activeReads == 0
                                        else h in s.fh && u.fh[h].activeReads == s.fh[h].activeReads)
            && (forall h | h in s.fh :: h in u.fh || (e.Remove? && h == s.threads[e.t].h))
  {}

  lemma BeginCounted(s: State, t: Thread)
    requires Enabled(s, BeginRead(t)) && Counted(s)
    ensures Counted(Apply(s, BeginRead(t)))
  {
    hide Readers;
    var u := Apply(s, BeginRead(t));
    forall h | h in u.fh ensures u.fh[h].activeReads == |Readers(u, h)| {
      ReadersWith(s, u, t, h);
    }
  }

  /** Who reads on a handle when one thread has moved on. */
  lemma ReadersWith(s: State, u: State, t: Thread, h: nat)
    requires t in u.threads && u.threads == s.threads[t := u.threads[t]]
    requires t in s.threads && !s.threads[t].Reading?
    ensures var more := u.threads[t].Reading? && u.threads[t].h == h;
            |Readers(u, h)| == |Readers(s, h)| + if more then 1 else 0
  {
    assert t !in Readers(s, h);
    assert Readers(u, h) == if u.threads[t].Reading? && u.threads[t].h == h then Readers(s, h) + {t} else Readers(s, h);
  }

  lemma EndCounted(s: State, t: Thread)
    requires Enabled(s, EndRead(t)) && Counted(s)
    ensures Counted(Apply(s, EndRead(t)))
  {
    var u, p := Apply(s, EndRead(t)), s.threads[t];
    forall h | h in u.fh ensures u.fh[h].activeReads == |Readers(u, h)| {
      if h == p.h {
        assert Readers(u, h) == Readers(s, h) - {t};
      } else {
        assert Readers(u, h) == Readers(s, h);
      }
    }
  }

  /** A thread that reads is counted. */
  lemma ReaderCounts(s: State, t: Thread)
    requires Counted(s) && t in s.threads && s.threads[t].Reading?
    ensures s.threads[t].h in s.fh && s.fh[s.threads[t].h].activeReads > 0
  {
    assert t in Readers(s, s.threads[t].h);
  }

  /** Once a handle is closing it stays so, and its reads only become fewer. */
  lemma StoppedForGood(s: State, e: Event, h: nat)
    requires Enabled(s, e) && Closed(s) && Stopped(s, h)
    ensures var u := Apply(s, e);
            Stopped(u, h) && (h in u.fh ==> h in s.fh && u.fh[h].activeReads <= s.fh[h].activeReads)
  {}

  /** A closing handle without reads stays without. */
  lemma DrainedForGood(s: State, e: Event, h: nat)
    requires Enabled(s, e) && Closed(s) && Counted(s) && Stopped(s, h) && Drained(s.fh, h)
    ensures Drained(Apply(s, e).fh, h)
  {
    if e.EndRead? {
      ReaderCounts(s, e.t);
    }
  }

  lemma KeepsWakeups(s: State, e: Event)
    requires Enabled(s, e) && Inv(s)
    ensures NoLostWakeup(Apply(s, e))
  {
    hide SingleFlight, Counted;
  }

  lemma KeepsClosed(s: State, e: Event)
    requires Enabled(s, e) && Inv(s)
    ensures Closed(Apply(s, e))
  {
    var u := Apply(s, e);
    NewWaiters(s, e);
    NewReleasers(s, e);
    NewReleased(s, e);
    hide SingleFlight, Counted, NoLostWakeup, Apply, Enabled, Drained, Stopped;
    forall h | Stopped(s, h) ensures Stopped(u, h) {
      StoppedForGood(s, e, h);
    }
    forall h | Stopped(s, h) && Drained(s.fh, h) ensures Drained(u.fh, h) {
      DrainedForGood(s, e, h);
    }
  }

  /** Where a closer of the new state was before, or that it has just got there. */
  lemma NewWaiters(s: State, e: Event)
    requires Enabled(s, e) && Closed(s)
    ensures var u := Apply(s, e);
            && (forall h | h in u.fh :: h in u.used)
            && (forall t | t in u.threads && (u.threads[t].CloseWaiting? || u.threads[t].CloseWoken?) ::
                  || Stopped(u, u.threads[t].h)
                  || (t in s.threads && s.threads[t].h == u.threads[t].h
                      && (s.threads[t].CloseWaiting? || s.threads[t].CloseWoken?)))
  {}

  lemma NewReleasers(s: State, e: Event)
    requires Enabled(s, e) && Closed(s)
    ensures var u := Apply(s, e);
            forall t | t in u.threads && (u.threads[t].Closing? || u.threads[t].Releasing?) ::
              || (Stopped(u, u.threads[t].h) && Drained(u.fh, u.threads[t].h))
              || (t in s.threads && s.threads[t].h == u.threads[t].h
                  && (s.threads[t].Closing? || s.threads[t].Releasing?))
  {}

  lemma NewReleased(s: State, e: Event)
    requires Enabled(s, e) && Closed(s)
    ensures forall h | h in Apply(s, e).released ::
              h in s.released || (e.Release? && e.t in s.threads && s.threads[e.t].Closing? && s.threads[e.t].h == h)
  {}

  lemma KeepsInv(s: State, e: Event)
    requires Inv(s) && Enabled(s, e)
    ensures Inv(Apply(s, e))
  {
    KeepsSingleFlight(s, e);
    KeepsCounted(s, e);
    KeepsWakeups(s, e);
    KeepsClosed(s, e);
  }

  // ---- every run -------------------------------------------------------------------

  /** A schedule: any interleaving whose steps are each possible where they happen. */
  ghost predicate Schedule(s: State, es: seq<Event>)
    decreases |es|
  {
    es == [] || (Enabled(s, es[0]) && Schedule(Apply(s, es[0]), es[1..]))
  }

  ghost function After(s: State, es: seq<Event>): State
    requires Schedule(s, es)
    decreases |es|
  {
    if es == [] then s else After(Apply(s, es[0]), es[1..])
  }

  lemma {:induction false} Run(s: State, es: seq<Event>)
    requires Inv(s) && Schedule(s, es)
    ensures Inv(After(s, es))
    decreases |es|
  {
    if es != [] {
      KeepsInv(s, es[0]);
      Run(Apply(s, es[0]), es[1..]);
    }
  }

  // ---- who is let through ------------------------------------------------------------

  /** Nobody begins to close the handle in a run. */
  ghost predicate LeftOpen(es: seq<Event>, h: nat) { forall e | e in es && e.BeginClose? :: e.h != h }

  lemma StaysOpen(s: State, e: Event, h: nat)
    requires Closed(s) && Enabled(s, e) && (e.BeginClose? ==> e.h != h)
    requires MayRead(s.fh, h) || e == Open(h)
    ensures MayRead(Apply(s, e).fh, h)
  {}

  lemma {:induction false} RunOpen(s: State, es: seq<Event>, h: nat)
    requires Inv(s) && Schedule(s, es) && LeftOpen(es, h) && (MayRead(s.fh, h) || Open(h) in es)
    ensures MayRead(After(s, es).fh, h)
    decreases |es|
  {
    if es != [] {
      var e, rest := es[0], es[1..];
      KeepsInv(s, e);
      if MayRead(s.fh, h) || e == Open(h) {
        StaysOpen(s, e, h);
      }
      assert forall x | x in es :: x == e || x in rest;
      hide Inv, Enabled, Apply, MayRead;
      RunOpen(Apply(s, e), rest, h);
    }
  }

  /** In every interleaving a read on a handle that was opened, and that nobody has begun to close, is let
      through, however many others are at the host, and is counted. */
  lemma ReadAdmitted(es: seq<Event>, t: Thread)
    requires Schedule(Initial(), es) && Enabled(After(Initial(), es), BeginRead(t))
    requires var h := After(Initial(), es).threads[t].h; Open(h) in es && LeftOpen(es, h)
    ensures var s := After(Initial(), es);
            var u, p := Apply(s, BeginRead(t)), s.threads[t];
            && u.threads == s.threads[t := Reading(p.key, p.h)]
            && p.h in s.fh && p.h in u.fh && u.fh[p.h].activeReads == s.fh[p.h].activeReads + 1
  {
    InitialInv();
    RunOpen(Initial(), es, After(Initial(), es).threads[t].h);
    hide Schedule, After;
  }

  /** In every interleaving a thread that does not find its block fetches it, exactly if nobody else is at it;
      otherwise it waits for the one who is. */
  lemma MissClaims(es: seq<Event>, t: Thread)
    requires Schedule(Initial(), es) && Enabled(After(Initial(), es), Look(t, false))
    ensures var s := After(Initial(), es);
            var p := s.threads[t];
            Apply(s, Look(t, false)).threads[t]
            == if exists u :: Owns(s, u, p.key) then Waiting(p.key, p.h) else Claimed(p.key, p.h)
  {
    InitialInv();
    Run(Initial(), es);
    var s := After(Initial(), es);
    OneOwnerEach(s);
    hide Schedule, After;
  }

  /** In every interleaving no two fetches of one block are at the host, the count of an open handle
      is the number of its reads there, and a handle whose RELEASE was forwarded has none. */
  lemma Safety(es: seq<Event>)
    requires Schedule(Initial(), es)
    ensures var s := After(Initial(), es);
            && (forall t, u | t in s.threads && u in s.threads && s.threads[t].Reading? && s.threads[u].Reading?
                              && s.threads[t].key == s.threads[u].key :: t == u)
            && (forall h | h in s.fh :: s.fh[h].activeReads == |Readers(s, h)|)
            && (forall h | h in s.released :: Readers(s, h) == {})
  {
    InitialInv();
    Run(Initial(), es);
    var s := After(Initial(), es);
    forall h, t | h in s.released && t in Readers(s, h) ensures false {
      ReaderCounts(s, t);
    }
  }

  /** Once RELEASE of a handle is forwarded no read on it starts in any continuation. */
  lemma {:induction false} ReleasedForGood(s: State, es: seq<Event>, h: nat)
    requires Inv(s) && Schedule(s, es) && h in s.released
    ensures Readers(After(s, es), h) == {}
    decreases |es|
  {
    if es == [] {
      forall t | t in Readers(s, h) ensures false {
        ReaderCounts(s, t);
      }
    } else {
      KeepsInv(s, es[0]);
      ReleasedForGood(Apply(s, es[0]), es[1..], h);
    }
  }

  /** The reads on a closing handle never grow in any continuation: closing drains. */
  lemma {:induction false} ClosingDrains(s: State, es: seq<Event>, h: nat)
    requires Inv(s) && Schedule(s, es) && Stopped(s, h)
    ensures var u := After(s, es);
            Stopped(u, h) && |Readers(u, h)| <= |Readers(s, h)|
    decreases |es|
  {
    if es != [] {
      var v := Apply(s, es[0]);
      KeepsInv(s, es[0]);
      StoppedForGood(s, es[0], h);
      FewerReaders(s, v, h);
      ClosingDrains(v, es[1..], h);
    }
  }

  lemma FewerReaders(s: State, u: State, h: nat)
    requires Counted(s) && Counted(u)
    requires h in u.fh ==> h in s.fh && u.fh[h].activeReads <= s.fh[h].activeReads
    ensures |Readers(u, h)| <= |Readers(s, h)|
  {
    if h !in u.fh {
      assert Readers(u, h) == {};
    }
  }

  predicate Asleep(p: Phase) { p.Waiting? || p.CloseWaiting? }

  /** As long as a thread is in the protocol, one that is not asleep is, so the run can go on; and a
      thread asleep has one at work whose end wakes it. */
  lemma NoDeadlock(s: State, t: Thread)
    requires Inv(s) && t in s.threads
    ensures exists u :: u in s.threads && !Asleep(s.threads[u])
    ensures s.threads[t].Waiting? ==>
              exists u :: u in s.threads && Owner(s.threads[u]) && s.threads[u].key == s.threads[t].key
    ensures s.threads[t].CloseWaiting? ==> Readers(s, s.threads[t].h) != {}
  {
    if s.threads[t].Waiting? {
      var u :| u in s.threads && Owner(s.threads[u]) && s.threads[u].key == s.threads[t].key;
      assert !Asleep(s.threads[u]);
    } else if s.threads[t].CloseWaiting? {
      var readers := Readers(s, s.threads[t].h);
      assert |readers| != 0;
      var u :| u in readers;
      assert !Asleep(s.threads[u]);
    }
  }

  /** The end of a fetch wakes everyone who waits for a block. */
  lemma FinishWakes(s: State, t: Thread)
    requires Enabled(s, Finish(t))
    ensures var u := Apply(s, Finish(t)); forall x | x in u.threads :: !u.threads[x].Waiting?
  {}

  /** The end of the last read on a handle wakes everyone who waits to close one. */
  lemma LastReadWakes(s: State, t: Thread)
    requires Inv(s) && Enabled(s, EndRead(t)) && Readers(s, s.threads[t].h) == {t}
    ensures var u := Apply(s, EndRead(t)); forall x | x in u.threads :: !u.threads[x].CloseWaiting?
  {
    hide SingleFlight, NoLostWakeup, Closed;
    ReaderCounts(s, t);
  }

  // ---- the locked sections -----------------------------------------------------------

  /** The two tables the sections change; where each thread stands is only followed in the proof. */
  class Tables {
    var inflight: set<Key>
    var fh: map<nat, Fh>
    ghost var threads: map<Thread, Phase>
    ghost var used: set<nat>
    ghost var released: set<nat>

    ghost function Abs(): State
      reads this
    {
      State(inflight, fh, threads, used, released)
    }

    constructor ()
      ensures Abs() == Initial()
    {
      inflight, fh, threads, used, released := {}, map[], map[], {}, {};
    }

    method FhAdd(id: nat)
      requires Enabled(Abs(), Open(id))
      modifies this
      ensures Abs() == Apply(old(Abs()), Open(id))
    {
      fh := fh[id := Fh(0, false)];
      used := used + {id};
    }

    /** One turn of the lookup loop: a hit is done, a miss waits for the fetch of another or claims it. */
    method Look(ghost t: Thread, key: Key, hit: bool) returns (claimed: bool)
      requires Enabled(Abs(), Event.Look(t, hit)) && threads[t].key == key
      modifies this
      ensures Abs() == Apply(old(Abs()), Event.Look(t, hit))
      ensures claimed <==> !hit && key !in old(inflight)
    {
      ghost var h := threads[t].h;
      if hit {
        threads := threads - {t};
        return false;
      }
      if key in inflight {
        threads := threads[t := Waiting(key, h)];
        return false;
      }
      inflight := inflight + {key};
      threads := threads[t := Claimed(key, h)];
      return true;
    }

    method FhBeginRead(ghost t: Thread, id: nat) returns (ok: bool)
      requires Enabled(Abs(), BeginRead(t)) && threads[t].h == id
      modifies this
      ensures Abs() == Apply(old(Abs()), BeginRead(t))
      ensures ok <==> MayRead(old(fh), id)
    {
      ghost var key := threads[t].key;
      if id !in fh || fh[id].closing {
        threads := threads[t := Fetched(key, id)];
        return false;
      }
      fh := fh[id := fh[id].(activeReads := fh[id].activeReads + 1)];
      threads := threads[t := Reading(key, id)];
      return true;
    }

    method FhEndRead(ghost t: Thread, id: nat)
      requires Enabled(Abs(), EndRead(t)) && threads[t].h == id
      modifies this
      ensures Abs() == Apply(old(Abs()), EndRead(t))
    {
      threads := threads[t := Fetched(threads[t].key, id)];
      if id in fh {
        var left := fh[id].activeReads - 1;
        fh := fh[id := fh[id].(activeReads := left)];
        if left <= 0 {
          threads := WakeClosers(threads);
        }
      }
    }

    method FinishFetch(ghost t: Thread, key: Key)
      requires Enabled(Abs(), Finish(t)) && threads[t].key == key
      modifies this
      ensures Abs() == Apply(old(Abs()), Finish(t))
    {
      inflight := inflight - {key};
      threads := WakeFetchers(threads - {t});
    }

    method FhBeginClose(ghost t: Thread, id: nat) returns (mustWait: bool)
      requires Enabled(Abs(), BeginClose(t, id))
      modifies this
      ensures Abs() == Apply(old(Abs()), BeginClose(t, id))
      ensures mustWait <==> !Drained(old(fh), id)
    {
      if id !in fh {
        threads := threads[t := Closing(id)];
        return false;
      }
      fh := fh[id := fh[id].(closing := true)];
      mustWait := fh[id].activeReads != 0;
      threads := threads[t := if mustWait then CloseWaiting(id) else Closing(id)];
    }

    method FhRemove(ghost t: Thread, id: nat)
      requires Enabled(Abs(), Remove(t)) && threads[t].h == id
      modifies this
      ensures Abs() == Apply(old(Abs()), Remove(t))
    {
      fh := fh - {id};
      threads := threads - {t};
    }
  }
}
