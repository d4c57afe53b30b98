/** Many requests over one connection (client/src/clients/client.cpp:226-306): registration, delivery
    by the reader thread, and the drain when the connection dies. One locked section a step. */
module ClientMux {
  import opened Words

  const EIO: int := 5

  /** A request in progress; also the name of the record it shares with the reader. */
  type Ref = nat

  datatype Msg = Msg(invalidate: bool, reqId: nat, status: int, data: bytes)

  /** What a requester and the reader share. */
  datatype Pending = Pending(done: bool, status: int, data: bytes)

  /** Where a request stands. */
  datatype Pc =
    | Checked      // saw the connection alive
    | HasId        // has its number and record
    | Registered   // listed, sending
    | Sent         // waiting for the record to be done
    | Waited       // woken, or out of time
    | Unlisted
    | HaveStatus   // the record is read after the lock is gone
    | Returned
    | Refused      // EIO without a reply

  /** A request with what it has noted so far. */
  datatype Req = Req(pc: Pc, id: nat, done: bool, status: int, data: bytes)

  datatype Reader =
    | Receiving
    | Looking(m: Msg)
    | Found(m: Msg, ref: Ref)                   // keeps the record alive
    | Dying                                     // the loop has ended
    | Draining                                  // alive is false
    | Dead

  /** `arrived` are the messages the reader has received. */
  datatype State = State(alive: bool, nextId: nat, pend: map<nat, Ref>, records: map<Ref, Pending>,
                         reqs: map<Ref, Req>, reader: Reader, arrived: set<Msg>)

  datatype Event =
    | Begin(t: Ref)
    | TakeId(t: Ref)
    | Register(t: Ref)
    | Send(t: Ref, ok: bool)
    | Wait(t: Ref)                              // the record is done, or ten seconds are over
    | Unlist(t: Ref)
    | ReadStatus(t: Ref)
    | ReadData(t: Ref)
    | Receive(m: Msg)
    | Lookup
    | Deliver
    | EndLoop
    | MarkDead
    | Drain
    | Disconnect

  ghost predicate At(s: State, t: Ref, pc: Pc) { t in s.reqs && s.reqs[t].pc == pc }

  ghost predicate Enabled(s: State, e: Event) {
    match e
    case Begin(t) => t !in s.reqs
    case TakeId(t) => At(s, t, Checked)
    case Register(t) => At(s, t, HasId)
    case Send(t, _) => At(s, t, Registered)
    case Wait(t) => At(s, t, Sent) && t in s.records
    case Unlist(t) => At(s, t, Waited)
    case ReadStatus(t) => At(s, t, Unlisted) && t in s.records
    case ReadData(t) => At(s, t, HaveStatus) && t in s.records
    case Receive(_) => s.reader.Receiving?   // alive may have been cleared while the reader was blocked
    case Lookup => s.reader.Looking?
    case Deliver => s.reader.Found?
    case EndLoop => s.reader.Receiving?
    case MarkDead => s.reader.Dying?
    case Drain => s.reader.Draining?
    case Disconnect => true
  }

  /** Every listed record fails. */
  function Failed(pend: map<nat, Ref>, records: map<Ref, Pending>): map<Ref, Pending> {
    map r | r in records :: if r in pend.Values then records[r].(status := EIO, done := true) else records[r]
  }

  function Goto(s: State, t: Ref, pc: Pc): State
    requires t in s.reqs
  {
    s.(reqs := s.reqs[t := s.reqs[t].(pc := pc)])
  }

  function Apply(s: State, e: Event): State
    requires Enabled(s, e)
  {
    match e
    case Begin(t) => s.(reqs := s.reqs[t := Req(if s.alive then Checked else Refused, 0, false, EIO, [])])
    case TakeId(t) =>
      s.(nextId := s.nextId + 1, records := s.records[t := Pending(false, EIO, [])],
         reqs := s.reqs[t := s.reqs[t].(pc := HasId, id := s.nextId)])
    case Register(t) =>
      if s.alive then Goto(s.(pend := s.pend[s.reqs[t].id := t]), t, Registered) else Goto(s, t, Refused)
    case Send(t, ok) =>
      if ok then Goto(s, t, Sent) else Goto(s.(pend := s.pend - {s.reqs[t].id}), t, Refused)
    case Wait(t) => s.(reqs := s.reqs[t := s.reqs[t].(pc := Waited, done := s.records[t].done)])
    case Unlist(t) => Goto(s.(pend := s.pend - {s.reqs[t].id}), t, Unlisted)
    case ReadStatus(t) =>
      if s.reqs[t].done then s.(reqs := s.reqs[t := s.reqs[t].(pc := HaveStatus, status := s.records[t].status)])
      else Goto(s, t, Refused)
    case ReadData(t) => s.(reqs := s.reqs[t := s.reqs[t].(pc := Returned, data := s.records[t].data)])
    case Receive(m) =>
      s.(arrived := s.arrived + {m}, reader := if m.invalidate then Receiving else Looking(m))
    case Lookup =>
      var m := s.reader.m;
      s.(reader := if m.reqId in s.pend then Found(m, s.pend[m.reqId]) else Receiving)
    case Deliver =>
      var m := s.reader.m;
      s.(records := s.records[s.reader.ref := Pending(true, m.status, m.data)], reader := Receiving)
    case EndLoop => s.(reader := Dying)
    case MarkDead => s.(alive := false, reader := Draining)
    case Drain => s.(records := Failed(s.pend, s.records), reader := Dead)
    case Disconnect => s.(alive := false)
  }

  // ---- the invariant -----------------------------------------------------------------

  predicate Listed(r: Req) { r.pc == Registered || r.pc == Sent || r.pc == Waited }

  ghost predicate Has(s: State, t: Ref, id: nat) { t in s.reqs && s.reqs[t].id == id != 0 }

  ghost predicate InList(s: State, t: Ref) { t in s.reqs && Listed(s.reqs[t]) }

  ghost predicate Lists(s: State, id: nat, t: Ref) { id in s.pend && s.pend[id] == t }

  /** Numbers are given once, and with a record. */
  ghost predicate Distinct(s: State) {
    && (forall t: Ref, id: nat | Has(s, t, id) :: id < s.nextId && t in s.records)
    && (forall t: Ref, u: Ref, id: nat | Has(s, t, id) && Has(s, u, id) :: t == u)
  }

  /** A request has its number from the step that takes it. */
  ghost predicate Numbered(s: State) {
    && s.nextId > 0
    && (forall t | t in s.reqs :: (s.reqs[t].pc == Checked ==> s.reqs[t].id == 0)
                                  && (s.reqs[t].pc != Checked && s.reqs[t].pc != Refused ==> s.reqs[t].id != 0))
  }

  /** The table lists exactly the requests between registration and removal. */
  ghost predicate Table(s: State) {
    && (forall id, t | Lists(s, id, t) :: Has(s, t, id) && InList(s, t))
    && (forall t, id | InList(s, t) && Has(s, t, id) :: Lists(s, id, t))
  }

  /** A reply to the request with this number. */
  ghost predicate Reply(arrived: set<Msg>, m: Msg, id: nat) { m in arrived && !m.invalidate && m.reqId == id }

  ghost predicate HasStatus(arrived: set<Msg>, id: nat, status: int) {
    exists m :: Reply(arrived, m, id) && m.status == status
  }

  ghost predicate HasData(arrived: set<Msg>, id: nat, data: bytes) {
    exists m :: Reply(arrived, m, id) && m.data == data
  }

  ghost predicate FromReply(arrived: set<Msg>, id: nat, r: Pending) {
    exists m :: Reply(arrived, m, id) && m.status == r.status && m.data == r.data
  }

  /** A record is what a reply to its number said, EIO included, unless the drain has failed it; and a request
      answers what its record said. `failed` are the requests that were listed at the drain. */
  ghost predicate HonestReq(s: State, t: Ref, failed: set<Ref>)
    requires t in s.reqs
  {
    var r := s.reqs[t];
    && (if r.id == 0 then !r.done else t in s.records && HonestRecord(s, r, s.records[t], t in failed))
    && (r.pc == HaveStatus || r.pc == Returned ==>
          r.id != 0 && r.done && if t in failed then r.status == EIO else HasStatus(s.arrived, r.id, r.status))
    && (r.pc == Returned && t !in failed ==> HasData(s.arrived, r.id, r.data))
  }

  ghost predicate HonestRecord(s: State, r: Req, rec: Pending, failed: bool) {
    && (r.done ==> rec.done)
    && if failed then rec.done && rec.status == EIO else rec.done ==> FromReply(s.arrived, r.id, rec)
  }

  ghost predicate Honest(s: State, failed: set<Ref>) {
    && (failed != {} ==> s.reader.Dead?)
    && (forall t | t in failed :: t in s.reqs && s.reqs[t].id != 0)
    && (forall t | t in s.reqs :: HonestReq(s, t, failed))
  }

  ghost predicate ReaderKnows(s: State) {
    && (s.reader.Looking? ==> Reply(s.arrived, s.reader.m, s.reader.m.reqId))
    && (s.reader.Found? ==> Reply(s.arrived, s.reader.m, s.reader.m.reqId) && Has(s, s.reader.ref, s.reader.m.reqId))
  }

  ghost predicate Done(s: State, t: Ref) { t in s.records && s.records[t].done }

  /** After the drain nothing listed is still open, and nothing is listed any more. */
  ghost predicate Drained(s: State) {
    && (s.reader.Draining? || s.reader.Dead? ==> !s.alive)
    && (s.reader.Dead? ==> forall id, t | Lists(s, id, t) :: Done(s, t))
  }

  ghost predicate Inv(s: State) { Distinct(s) && Numbered(s) && Table(s) && ReaderKnows(s) && Drained(s) }

  ghost function Initial(): State { State(true, 1, map[], map[], map[], Receiving, {}) }

  // ---- every step keeps it -------------------------------------------------------------

  lemma InitialInv()
    ensures Inv(Initial())
  {}

  ghost predicate SameNumbers(s: State, u: State) { forall x, id :: Has(u, x, id) <==> Has(s, x, id) }

  ghost predicate SameListed(s: State, u: State) { forall x :: InList(u, x) <==> InList(s, x) }

  ghost predicate SameTable(s: State, u: State) { forall id, x :: Lists(u, id, x) <==> Lists(s, id, x) }

  /** What a step does to numbers, listed requests and table. */
  lemma Effects(s: State, e: Event)
    requires Enabled(s, e)
    requires Numbered(s)
    ensures var u := Apply(s, e);
            && (e.TakeId? || SameNumbers(s, u))
            && (e.Register? || e.Send? || e.Unlist? || (SameListed(s, u) && SameTable(s, u)))
  {
    var u := Apply(s, e);
    forall x, id ensures !e.TakeId? ==> (Has(u, x, id) <==> Has(s, x, id)) {}
    forall x ensures !e.Register? && !e.Send? && !e.Unlist? ==> (InList(u, x) <==> InList(s, x)) {}
    forall id, x ensures !e.Register? && !e.Send? && !e.Unlist? ==> (Lists(u, id, x) <==> Lists(s, id, x)) {}
  }

  lemma KeepsNumbered(s: State, e: Event)
    requires Enabled(s, e) && Numbered(s)
    ensures Numbered(Apply(s, e))
  {}

  lemma KeepsDistinct(s: State, e: Event)
    requires Enabled(s, e) && Inv(s)
    ensures Distinct(Apply(s, e))
  {
    var u := Apply(s, e);
    Effects(s, e);
    assert u.nextId >= s.nextId && forall t | t in s.records :: t in u.records;
    if e.TakeId? {
      forall x, id ensures Has(u, x, id) <==> (x != e.t && Has(s, x, id)) || (x == e.t && id == s.nextId) {}
      assert u.nextId == s.nextId + 1 && e.t in u.records;
    }
    hide Has, Apply, Enabled, Table, ReaderKnows, Drained;
  }

  lemma KeepsTable(s: State, e: Event)
    requires Enabled(s, e) && Inv(s)
    ensures Table(Apply(s, e))
  {
    var u := Apply(s, e);
    Effects(s, e);
    if e.TakeId? {
      forall x, id ensures Has(u, x, id) <==> (x != e.t && Has(s, x, id)) || (x == e.t && id == s.nextId) {}
      assert !InList(s, e.t);
    } else if e.Register? && s.alive {
      var mine := s.reqs[e.t].id;
      assert Has(s, e.t, mine) && !InList(s, e.t);
      forall x ensures InList(u, x) <==> InList(s, x) || x == e.t {}
      forall id, x ensures Lists(u, id, x) <==> if id == mine then x == e.t else Lists(s, id, x) {}
    } else if (e.Send? && !e.ok) || e.Unlist? {
      var mine := s.reqs[e.t].id;
      assert Has(s, e.t, mine) && InList(s, e.t);
      forall x ensures InList(u, x) <==> InList(s, x) && x != e.t {}
      forall id, x ensures Lists(u, id, x) <==> Lists(s, id, x) && id != mine {}
    } else if e.Register? || e.Send? {
      forall x ensures InList(u, x) <==> InList(s, x) {}
      forall id, x ensures Lists(u, id, x) <==> Lists(s, id, x) {}
    }
    HasOne(s);
    hide Has, InList, Lists, Apply, Enabled, Numbered, ReaderKnows, Drained;
  }

  lemma HasOne(s: State)
    ensures forall t, i, j | Has(s, t, i) && Has(s, t, j) :: i == j
  {}

  lemma KeepsReader(s: State, e: Event)
    requires Enabled(s, e) && Inv(s)
    ensures ReaderKnows(Apply(s, e))
  {
    Effects(s, e);
    if e.TakeId? {
      assert forall x, id | Has(s, x, id) :: Has(Apply(s, e), x, id);
    }
    if e.Lookup? && s.reader.m.reqId in s.pend {
      assert Lists(s, s.reader.m.reqId, s.pend[s.reader.m.reqId]);
    }
    hide Has, InList, Lists, Numbered, Distinct, Drained, SameListed, SameTable;
  }

  lemma KeepsDrained(s: State, e: Event)
    requires Enabled(s, e) && Inv(s)
    ensures Drained(Apply(s, e))
  {
    var u := Apply(s, e);
    Effects(s, e);
    forall id, t | u.reader.Dead? && Lists(u, id, t) ensures Done(u, t) {
      if e.Drain? {
        assert Lists(s, id, t) && t in s.pend.Values;
      } else {
        assert Lists(s, id, t) && Done(s, t);
      }
    }
  }

  lemma MoreArrived(a: set<Msg>, b: set<Msg>, id: nat, r: Pending)
    requires a <= b
    ensures FromReply(a, id, r) ==> FromReply(b, id, r)
    ensures HasStatus(a, id, r.status) ==> HasStatus(b, id, r.status)
    ensures HasData(a, id, r.data) ==> HasData(b, id, r.data)
  {
    if FromReply(a, id, r) {
      var m :| Reply(a, m, id) && m.status == r.status && m.data == r.data;
      assert Reply(b, m, id);
    }
    if HasStatus(a, id, r.status) {
      var m :| Reply(a, m, id) && m.status == r.status;
      assert Reply(b, m, id);
    }
    if HasData(a, id, r.data) {
      var m :| Reply(a, m, id) && m.data == r.data;
      assert Reply(b, m, id);
    }
  }

  lemma FromReplyHas(a: set<Msg>, id: nat, r: Pending)
    requires FromReply(a, id, r)
    ensures HasStatus(a, id, r.status) && HasData(a, id, r.data)
  {}

  lemma ReceiveHonest(s: State, m: Msg, failed: set<Ref>)
    requires Enabled(s, Receive(m)) && Honest(s, failed)
    ensures Honest(Apply(s, Receive(m)), failed)
  {
    var u := Apply(s, Receive(m));
    hide FromReply, HasStatus, HasData;
    forall t | t in u.reqs ensures HonestReq(u, t, failed) {
      assert HonestReq(s, t, failed);
      var r := s.reqs[t];
      MoreArrived(s.arrived, u.arrived, r.id, Pending(true, r.status, r.data));
      if t in s.records {
        MoreArrived(s.arrived, u.arrived, r.id, s.records[t]);
      }
    }
  }

  lemma DeliverHonest(s: State, failed: set<Ref>)
    requires Enabled(s, Deliver) && Inv(s) && Honest(s, failed)
    ensures Honest(Apply(s, Deliver), failed)
  {
    var u, m := Apply(s, Deliver), s.reader.m;
    var r := u.records[s.reader.ref];
    assert FromReply(u.arrived, m.reqId, r) by { assert Reply(u.arrived, m, m.reqId); }
    hide FromReply, HasStatus, HasData, Distinct, Table, Drained, Numbered;
    forall t | t in u.reqs ensures HonestReq(u, t, failed) {
      assert HonestReq(s, t, failed);
    }
  }

  /** Whatever was listed at the drain fails, and nothing else does. */
  lemma DrainHonest(s: State, failed: set<Ref>)
    requires Enabled(s, Drain) && Inv(s) && Honest(s, failed)
    ensures Honest(Apply(s, Drain), failed + s.pend.Values)
  {
    var u, all := Apply(s, Drain), failed + s.pend.Values;
    hide FromReply, HasStatus, HasData, Drained, Numbered, ReaderKnows;
    forall t | t in s.pend.Values ensures InList(s, t) && s.reqs[t].id != 0 {
      var id :| id in s.pend && s.pend[id] == t;
      assert Lists(s, id, t);
    }
    forall t | t in u.reqs ensures HonestReq(u, t, all) {
      assert HonestReq(s, t, failed);
    }
  }

  lemma KeepsHonest(s: State, e: Event, failed: set<Ref>)
    requires Enabled(s, e) && Inv(s) && Honest(s, failed)
    ensures Honest(Apply(s, e), failed + ListedAt(s, e))
  {
    assert failed + {} == failed;
    if e.Receive? {
      ReceiveHonest(s, e.m, failed);
    } else if e.Deliver? {
      DeliverHonest(s, failed);
    } else if e.Drain? {
      DrainHonest(s, failed);
    } else {
      OthersHonest(s, e, failed);
    }
  }

  lemma OthersHonest(s: State, e: Event, failed: set<Ref>)
    requires Enabled(s, e) && Inv(s) && Honest(s, failed) && !e.Receive? && !e.Deliver? && !e.Drain?
    ensures Honest(Apply(s, e), failed)
  {
    if e.Begin? || e.TakeId? || e.Register? || e.Send? {
      AskingHonest(s, e, failed);
    } else if e.Wait? || e.Unlist? || e.ReadStatus? || e.ReadData? {
      EndingHonest(s, e, failed);
    }
  }

  lemma AskingHonest(s: State, e: Event, failed: set<Ref>)
    requires Enabled(s, e) && Inv(s) && Honest(s, failed) && (e.Begin? || e.TakeId? || e.Register? || e.Send?)
    ensures Honest(Apply(s, e), failed)
  {
    var u := Apply(s, e);
    hide FromReply, HasStatus, HasData, Distinct, Table, Drained, ReaderKnows;
    forall t | t in u.reqs ensures HonestReq(u, t, failed) {
      if t in s.reqs {
        assert HonestReq(s, t, failed);
      }
    }
  }

  lemma EndingHonest(s: State, e: Event, failed: set<Ref>)
    requires Enabled(s, e) && Inv(s) && Honest(s, failed)
    requires e.Wait? || e.Unlist? || e.ReadStatus? || e.ReadData?
    ensures Honest(Apply(s, e), failed)
  {
    var u := Apply(s, e);
    hide FromReply, HasStatus, HasData, Distinct, Table, Drained, ReaderKnows;
    forall t | t in u.reqs ensures HonestReq(u, t, failed) {
      assert HonestReq(s, t, failed);
      if (e.ReadStatus? || e.ReadData?) && e.t == t && t !in failed && s.reqs[t].done {
        FromReplyHas(s.arrived, s.reqs[t].id, s.records[t]);
      }
    }
  }

  /** What a drain fails. */
  ghost function ListedAt(s: State, e: Event): set<Ref> { if e.Drain? then s.pend.Values else {} }

  lemma KeepsInv(s: State, e: Event)
    requires Inv(s) && Enabled(s, e)
    ensures Inv(Apply(s, e))
  {
    hide Apply, Enabled;
    KeepsNumbered(s, e);
    KeepsDistinct(s, e);
    KeepsTable(s, e);
    KeepsReader(s, e);
    KeepsDrained(s, e);
  }

  // ---- every run -------------------------------------------------------------------------

  /** Any interleaving of requesters, the reader and a disconnect. */
  ghost predicate Schedule(s: State, es: seq<Event>)
    decreases |es|
  {
    es == [] || (Enabled(s, es[0]) && Schedule(Apply(s, es[0]), es[1..]))
  }

  ghost function After(s: State, es: seq<Event>): State
    requires Schedule(s, es)
    decreases |es|
  {
    if es == [] then s else After(Apply(s, es[0]), es[1..])
  }

  lemma {:induction false} Run(s: State, es: seq<Event>)
    requires Inv(s) && Schedule(s, es)
    ensures Inv(After(s, es))
    decreases |es|
  {
    if es != [] {
      KeepsInv(s, es[0]);
      Run(Apply(s, es[0]), es[1..]);
    }
  }

  /** Any two replies to this request agree in status or in payload; one reply always does. */
  ghost predicate Consistent(arrived: set<Msg>, id: nat) {
    forall m, n | Reply(arrived, m, id) && Reply(arrived, n, id) :: m.status == n.status || m.data == n.data
  }

  /** The requests that are listed when the connection is drained. */
  ghost function ListedAtDrain(s: State, es: seq<Event>): set<Ref>
    requires Schedule(s, es)
    decreases |es|
  {
    if es == [] then {} else ListedAt(s, es[0]) + ListedAtDrain(Apply(s, es[0]), es[1..])
  }

  lemma {:induction false} RunHonest(s: State, es: seq<Event>, failed: set<Ref>)
    requires Inv(s) && Honest(s, failed) && Schedule(s, es)
    ensures Honest(After(s, es), failed + ListedAtDrain(s, es))
    decreases |es|
  {
    hide Inv, Honest, Enabled, Apply, ListedAt;
    if es == [] {
      assert failed + {} == failed;
    } else {
      var next := failed + ListedAt(s, es[0]);
      KeepsInv(s, es[0]);
      KeepsHonest(s, es[0], failed);
      RunHonest(Apply(s, es[0]), es[1..], next);
      assert next + ListedAtDrain(Apply(s, es[0]), es[1..]) == failed + ListedAtDrain(s, es);
    }
  }

  /** In every interleaving: no two requests share a number. A request that was listed when the connection was
      drained answers EIO. Any other answers with the status of a reply to its own number, never an
      invalidation, and the payload of one; of the same one when the replies to it are consistent. */
  lemma Answers(es: seq<Event>, t: Ref)
    requires Schedule(Initial(), es) && t in After(Initial(), es).reqs
    ensures var s := After(Initial(), es);
            var r := s.reqs[t];
            && (forall u | u in s.reqs && u != t && s.reqs[u].id != 0 :: s.reqs[u].id != r.id)
            && (r.pc == Returned ==>
                  if t in ListedAtDrain(Initial(), es) then r.status == EIO
                  else
                    && HasStatus(s.arrived, r.id, r.status) && HasData(s.arrived, r.id, r.data)
                    && (Consistent(s.arrived, r.id) ==> FromReply(s.arrived, r.id, Pending(true, r.status, r.data))))
  {
    InitialInv();
    Run(Initial(), es);
    RunHonest(Initial(), es, {});
    var s, failed := After(Initial(), es), ListedAtDrain(Initial(), es);
    var r := s.reqs[t];
    assert {} + failed == failed;
    hide Schedule, After, ListedAtDrain, Numbered, Table, ReaderKnows, Drained;
    assert HonestReq(s, t, failed);
    forall u | u in s.reqs && u != t && s.reqs[u].id != 0 ensures s.reqs[u].id != r.id {
      assert Has(s, u, s.reqs[u].id);
      assert r.id == s.reqs[u].id ==> Has(s, t, r.id);
    }
    if r.pc == Returned && t !in failed && Consistent(s.arrived, r.id) {
      OneOfBoth(s.arrived, r.id, r.status, r.data);
    }
  }

  lemma OneOfBoth(arrived: set<Msg>, id: nat, status: int, data: bytes)
    requires HasStatus(arrived, id, status) && HasData(arrived, id, data) && Consistent(arrived, id)
    ensures FromReply(arrived, id, Pending(true, status, data))
  {
    var m :| Reply(arrived, m, id) && m.status == status;
    var n :| Reply(arrived, n, id) && n.data == data;
    assert m.status == n.status || m.data == n.data;
  }

  // ---- requests refused --------------------------------------------------------------------

  /** A step that lets a request end without an answer: the connection was dead when it began or registered,
      it could not be sent, or its wait ended while its record was not done. */
  ghost predicate Excuse(s: State, e: Event, t: Ref) {
    || ((e == Begin(t) || e == Register(t)) && !s.alive)
    || e == Send(t, false)
    || (e == Wait(t) && !Done(s, t))
  }

  ghost predicate Excused(s: State, es: seq<Event>, t: Ref)
    requires Schedule(s, es)
    decreases |es|
  {
    es != [] && (Excuse(s, es[0], t) || Excused(Apply(s, es[0]), es[1..], t))
  }

  ghost predicate RefusedRight(s: State, t: Ref, excused: bool) {
    t in s.reqs ==>
      var r := s.reqs[t];
      r.pc == Refused || ((r.pc == Waited || r.pc == Unlisted) && !r.done) ==> excused
  }

  lemma KeepsRefused(s: State, e: Event, t: Ref, excused: bool)
    requires Enabled(s, e) && RefusedRight(s, t, excused)
    ensures RefusedRight(Apply(s, e), t, excused || Excuse(s, e, t))
  {}

  lemma {:induction false} RunRefused(s: State, es: seq<Event>, t: Ref, excused: bool)
    requires Schedule(s, es) && RefusedRight(s, t, excused)
    ensures RefusedRight(After(s, es), t, excused || Excused(s, es, t))
    decreases |es|
  {
    hide RefusedRight, Enabled, Apply, Excuse;
    if es != [] {
      KeepsRefused(s, es[0], t, excused);
      RunRefused(Apply(s, es[0]), es[1..], t, excused || Excuse(s, es[0], t));
    }
  }

  /** A connection is alive until somebody disconnects or the reader has ended. */
  lemma {:induction false} AliveUntil(s: State, es: seq<Event>)
    requires Schedule(s, es) && s.alive && Disconnect !in es && MarkDead !in es
    ensures After(s, es).alive
    decreases |es|
  {
    if es != [] {
      StaysAlive(s, es[0]);
      hide Apply, Enabled;
      AliveUntil(Apply(s, es[0]), es[1..]);
    }
  }

  lemma StaysAlive(s: State, e: Event)
    requires Enabled(s, e) && s.alive && e != Disconnect && e != MarkDead
    ensures Apply(s, e).alive
  {}

  /** A request that has ended, with no excuse and not listed at the drain, and to which one reply arrived,
      has answered with that reply, status and payload, however many others are listed. */
  lemma OnlyReply(es: seq<Event>, t: Ref, m: Msg)
    requires Schedule(Initial(), es) && !Excused(Initial(), es, t) && t !in ListedAtDrain(Initial(), es)
    requires At(After(Initial(), es), t, Returned) || At(After(Initial(), es), t, Refused)
    requires var s := After(Initial(), es); forall n | Reply(s.arrived, n, s.reqs[t].id) :: n == m
    ensures var s := After(Initial(), es);
            && Reply(s.arrived, m, s.reqs[t].id)
            && s.reqs[t].pc == Returned && s.reqs[t].status == m.status && s.reqs[t].data == m.data
  {
    RunRefused(Initial(), es, t, false);
    Answers(es, t);
    hide Schedule, After, Excused, ListedAtDrain;
  }

  /** Once the reader has drained the table, whoever waits finds its record done. */
  lemma NobodyHangs(s: State, t: Ref)
    requires Inv(s) && s.reader.Dead? && Enabled(s, Wait(t))
    ensures Apply(s, Wait(t)).reqs[t].done
  {
    assert InList(s, t) && Has(s, t, s.reqs[t].id);
    assert Lists(s, s.reqs[t].id, t);
  }

  /** And nothing is registered after the drain: the table only shrinks in any continuation. */
  lemma {:induction false} NoneRegistered(s: State, es: seq<Event>)
    requires Inv(s) && s.reader.Dead? && Schedule(s, es)
    ensures After(s, es).reader.Dead? && After(s, es).pend.Keys <= s.pend.Keys
    decreases |es|
  {
    if es != [] {
      KeepsInv(s, es[0]);
      NoneRegistered(Apply(s, es[0]), es[1..]);
    }
  }

  ghost predicate Leads(s: State, es: seq<Event>, u: State) { Schedule(s, es) && After(s, es) == u }

  lemma {:induction false} LeadsOn(s: State, es: seq<Event>, u: State, fs: seq<Event>, v: State)
    requires Leads(s, es, u) && Leads(u, fs, v)
    ensures Leads(s, es + fs, v)
    decreases |es|
  {
    if es == [] {
      assert es + fs == fs;
    } else {
      LeadsOn(Apply(s, es[0]), es[1..], u, fs, v);
      assert (es + fs)[1..] == es[1..] + fs;
    }
  }

  /** A reply to a request that waits is found, delivered and returned, status and payload, whatever else is
      listed; no other request notices. */
  lemma ReplyReturned(s: State, t: Ref, m: Msg)
    requires Inv(s) && At(s, t, Sent) && s.reader.Receiving? && !m.invalidate && m.reqId == s.reqs[t].id
    ensures var es := [Receive(m), Lookup, Deliver, Wait(t)] + [Unlist(t), ReadStatus(t), ReadData(t)];
            && Schedule(s, es)
            && var u := After(s, es);
               && u.reqs == s.reqs[t := Req(Returned, m.reqId, true, m.status, m.data)]
               && u.records == s.records[t := Pending(true, m.status, m.data)]
               && u.pend == s.pend - {m.reqId} && u.reader.Receiving?
  {
    var d, h := Told(s, t, m), Gone(s, t, m);
    ReplyFound(s, t, m);
    ReplyTaken(s, t, m);
    hide Leads, Schedule, After;
    LeadsOn(s, [Receive(m), Lookup, Deliver, Wait(t)], d, [Unlist(t), ReadStatus(t), ReadData(t)], h);
    LeadsMeans(s, [Receive(m), Lookup, Deliver, Wait(t)] + [Unlist(t), ReadStatus(t), ReadData(t)], h);
  }

  function Told(s: State, t: Ref, m: Msg): State
    requires t in s.reqs
  {
    s.(arrived := s.arrived + {m}, records := s.records[t := Pending(true, m.status, m.data)],
       reqs := s.reqs[t := s.reqs[t].(pc := Waited, done := true)])
  }

  function Gone(s: State, t: Ref, m: Msg): State {
    s.(arrived := s.arrived + {m}, records := s.records[t := Pending(true, m.status, m.data)],
       pend := s.pend - {m.reqId}, reqs := s.reqs[t := Req(Returned, m.reqId, true, m.status, m.data)])
  }

  lemma ReplyFound(s: State, t: Ref, m: Msg)
    requires Inv(s) && At(s, t, Sent) && s.reader.Receiving? && !m.invalidate && m.reqId == s.reqs[t].id
    ensures Leads(s, [Receive(m), Lookup, Deliver, Wait(t)], Told(s, t, m))
  {
    ListedHere(s, t);
    hide Inv;
    var b := s.(arrived := s.arrived + {m}, reader := Found(m, t));
    assert Apply(Apply(s, Receive(m)), Lookup) == b;
    assert Apply(Apply(b, Deliver), Wait(t)) == Told(s, t, m);
    Four(s, Receive(m), Lookup, Deliver, Wait(t));
  }

  lemma ReplyTaken(s: State, t: Ref, m: Msg)
    requires At(s, t, Sent) && m.reqId == s.reqs[t].id
    ensures Leads(Told(s, t, m), [Unlist(t), ReadStatus(t), ReadData(t)], Gone(s, t, m))
  {
    var d, g := Told(s, t, m), Gone(s, t, m);
    var f := Apply(d, Unlist(t));
    assert f == Goto(d.(pend := s.pend - {m.reqId}), t, Unlisted);
    g := g.(reqs := s.reqs[t := s.reqs[t].(pc := HaveStatus, done := true, status := m.status)]);
    assert Apply(f, ReadStatus(t)) == g;
    assert Apply(g, ReadData(t)) == Gone(s, t, m);
    Three(d, Unlist(t), ReadStatus(t), ReadData(t));
  }

  lemma Three(s: State, a: Event, b: Event, c: Event)
    requires Enabled(s, a) && Enabled(Apply(s, a), b) && Enabled(Apply(Apply(s, a), b), c)
    ensures Leads(s, [a, b, c], Apply(Apply(Apply(s, a), b), c))
  {
    hide Apply, Enabled;
    assert [a, b, c][1..] == [b, c] && [b, c][1..] == [c] && [c][1..] == [];
    var one, two, three := Apply(s, a), Apply(Apply(s, a), b), Apply(Apply(Apply(s, a), b), c);
    assert Leads(three, [], three);
    assert Leads(two, [c], three);
    assert Leads(one, [b, c], three);
  }

  lemma ListedHere(s: State, t: Ref)
    requires Inv(s) && At(s, t, Sent)
    ensures s.reqs[t].id != 0 && s.reqs[t].id in s.pend && s.pend[s.reqs[t].id] == t && t in s.records
  {
    assert InList(s, t) && Has(s, t, s.reqs[t].id);
    assert Lists(s, s.reqs[t].id, t);
  }

  lemma Four(s: State, a: Event, b: Event, c: Event, d: Event)
    requires Enabled(s, a) && Enabled(Apply(s, a), b) && Enabled(Apply(Apply(s, a), b), c)
    requires Enabled(Apply(Apply(Apply(s, a), b), c), d)
    ensures Leads(s, [a, b, c, d], Apply(Apply(Apply(Apply(s, a), b), c), d))
  {
    hide Apply, Enabled;
    assert [a, b, c, d][1..] == [b, c, d] && [b, c, d][1..] == [c, d] && [c, d][1..] == [d] && [d][1..] == [];
    var one, two, three := Apply(s, a), Apply(Apply(s, a), b), Apply(Apply(Apply(s, a), b), c);
    assert Leads(Apply(three, d), [], Apply(three, d));
    assert Leads(three, [d], Apply(three, d));
    assert Leads(two, [c, d], Apply(three, d));
    assert Leads(one, [b, c, d], Apply(three, d));
  }

  /** And only then: any two replies that differ in both can lead to an answer that is neither, because
      the record is read after the locks are released. */
  lemma TornReply(m: Msg, n: Msg) returns (es: seq<Event>)
    requires !m.invalidate && !n.invalidate && m.reqId == 1 && n.reqId == 1
    requires m.status != EIO && m.status != n.status && m.data != n.data
    ensures Schedule(Initial(), es)
    ensures var s := After(Initial(), es);
            && s.arrived == {m, n} && 0 in s.reqs && s.reqs[0].pc == Returned && s.reqs[0].id == 1
            && s.reqs[0].status == m.status && s.reqs[0].data == n.data
            && !FromReply(s.arrived, 1, Pending(true, s.reqs[0].status, s.reqs[0].data))
  {
    var a, b, c, d := Asked(), Answered(m), Overtaken(m, n), Torn(m, n);
    AskedFirst();
    AnsweredOnce(m);
    AnsweredTwice(m, n);
    ReadApart(m, n);
    hide Schedule, After, Leads;
    es := [Begin(0), TakeId(0), Register(0), Send(0, true)];
    LeadsOn(Initial(), es, a, [Receive(m), Lookup, Deliver, Wait(0)], b);
    es := es + [Receive(m), Lookup, Deliver, Wait(0)];
    LeadsOn(Initial(), es, b, [Receive(n), Lookup, Unlist(0), ReadStatus(0)], c);
    es := es + [Receive(n), Lookup, Unlist(0), ReadStatus(0)];
    LeadsOn(Initial(), es, c, [Deliver, ReadData(0), Disconnect, Disconnect], d);
    es := es + [Deliver, ReadData(0), Disconnect, Disconnect];
    LeadsMeans(Initial(), es, d);
  }

  /** A reply that was delivered is lost all the same when the connection is drained before the request is off
      the list. */
  lemma DrainedReply(m: Msg)
    requires !m.invalidate && m.reqId == 1
    ensures var es := [Begin(0), TakeId(0), Register(0), Send(0, true)] + [Receive(m), Lookup, Deliver, Wait(0)]
                      + [EndLoop, MarkDead, Drain] + [Unlist(0), ReadStatus(0), ReadData(0)];
            && Schedule(Initial(), es)
            && var s := After(Initial(), es);
               && s.arrived == {m} && At(s, 0, Returned) && s.reqs[0].id == 1 && s.reqs[0].status == EIO
  {
    var a, b, c := Asked(), Answered(m), Answered(m).(alive := false, records := map[0 := Pending(true, EIO, m.data)],
                                                      reader := Dead);
    var d := c.(pend := map[], reqs := map[0 := Req(Returned, 1, true, EIO, m.data)]);
    AskedFirst();
    AnsweredOnce(m);
    DrainedAfter(m, c);
    ReadDrained(c, d);
    hide Schedule, After, Leads;
    var es := [Begin(0), TakeId(0), Register(0), Send(0, true)];
    LeadsOn(Initial(), es, a, [Receive(m), Lookup, Deliver, Wait(0)], b);
    es := es + [Receive(m), Lookup, Deliver, Wait(0)];
    LeadsOn(Initial(), es, b, [EndLoop, MarkDead, Drain], c);
    es := es + [EndLoop, MarkDead, Drain];
    LeadsOn(Initial(), es, c, [Unlist(0), ReadStatus(0), ReadData(0)], d);
    LeadsMeans(Initial(), es + [Unlist(0), ReadStatus(0), ReadData(0)], d);
  }

  lemma DrainedAfter(m: Msg, c: State)
    requires c == Answered(m).(alive := false, records := map[0 := Pending(true, EIO, m.data)], reader := Dead)
    ensures Leads(Answered(m), [EndLoop, MarkDead, Drain], c)
  {
    var a := Answered(m).(alive := false, reader := Draining);
    assert Apply(Apply(Answered(m), EndLoop), MarkDead) == a;
    assert 1 in a.pend && a.pend[1] == 0;
    assert Apply(a, Drain) == c;
    Three(Answered(m), EndLoop, MarkDead, Drain);
  }

  lemma ReadDrained(c: State, d: State)
    requires c.pend == map[1 := 0] && c.reqs == map[0 := Req(Waited, 1, true, EIO, [])] && 0 in c.records
    requires c.records[0].status == EIO
    requires d == c.(pend := map[], reqs := map[0 := Req(Returned, 1, true, EIO, c.records[0].data)])
    ensures Leads(c, [Unlist(0), ReadStatus(0), ReadData(0)], d)
  {
    assert c.pend - {1} == map[];
    assert Apply(Apply(Apply(c, Unlist(0)), ReadStatus(0)), ReadData(0)) == d;
    Three(c, Unlist(0), ReadStatus(0), ReadData(0));
  }

  lemma LeadsMeans(s: State, es: seq<Event>, u: State)
    requires Leads(s, es, u)
    ensures Schedule(s, es) && After(s, es) == u
  {}

  function Asked(): State {
    State(true, 2, map[1 := 0], map[0 := Pending(false, EIO, [])],
          map[0 := Req(Sent, 1, false, EIO, [])], Receiving, {})
  }

  function Answered(m: Msg): State {
    State(true, 2, map[1 := 0], map[0 := Pending(true, m.status, m.data)],
          map[0 := Req(Waited, 1, true, EIO, [])], Receiving, {m})
  }

  function Overtaken(m: Msg, n: Msg): State {
    State(true, 2, map[], map[0 := Pending(true, m.status, m.data)],
          map[0 := Req(HaveStatus, 1, true, m.status, [])], Found(n, 0), {m, n})
  }

  function Torn(m: Msg, n: Msg): State {
    State(false, 2, map[], map[0 := Pending(true, n.status, n.data)],
          map[0 := Req(Returned, 1, true, m.status, n.data)], Receiving, {m, n})
  }

  lemma AskedFirst()
    ensures Leads(Initial(), [Begin(0), TakeId(0), Register(0), Send(0, true)], Asked())
  {
    Four(Initial(), Begin(0), TakeId(0), Register(0), Send(0, true));
  }

  lemma AnsweredOnce(m: Msg)
    requires !m.invalidate && m.reqId == 1
    ensures Leads(Asked(), [Receive(m), Lookup, Deliver, Wait(0)], Answered(m))
  {
    var s := Asked().(arrived := {m}, reader := Found(m, 0));
    assert Apply(Apply(Asked(), Receive(m)), Lookup) == s;
    assert Apply(Apply(s, Deliver), Wait(0)) == Answered(m);
    Four(Asked(), Receive(m), Lookup, Deliver, Wait(0));
  }

  lemma AnsweredTwice(m: Msg, n: Msg)
    requires !n.invalidate && n.reqId == 1
    ensures Leads(Answered(m), [Receive(n), Lookup, Unlist(0), ReadStatus(0)], Overtaken(m, n))
  {
    var s := Answered(m).(arrived := {m, n}, reader := Found(n, 0));
    assert {m} + {n} == {m, n};
    assert Apply(Apply(Answered(m), Receive(n)), Lookup) == s;
    assert Apply(Apply(s, Unlist(0)), ReadStatus(0)) == Overtaken(m, n);
    Four(Answered(m), Receive(n), Lookup, Unlist(0), ReadStatus(0));
  }

  lemma ReadApart(m: Msg, n: Msg)
    ensures Leads(Overtaken(m, n), [Deliver, ReadData(0), Disconnect, Disconnect], Torn(m, n))
  {
    Four(Overtaken(m, n), Deliver, ReadData(0), Disconnect, Disconnect);
  }

  // ---- the locked sections -----------------------------------------------------------------

  /** A connection; where requesters and reader stand is only followed in the proof. */
  class Conn {
    var alive: bool
    var nextId: nat
    var pend: map<nat, Ref>
    var records: map<Ref, Pending>
    ghost var reqs: map<Ref, Req>
    ghost var reader: Reader
    ghost var arrived: set<Msg>

    ghost function Abs(): State
      reads this
    {
      State(alive, nextId, pend, records, reqs, reader, arrived)
    }

    constructor ()
      ensures Abs() == Initial()
    {
      alive, nextId, pend, records := true, 1, map[], map[];
      reqs, reader, arrived := map[], Receiving, {};
    }

    method TakeId(t: Ref) returns (id: nat)
      requires Enabled(Abs(), Event.TakeId(t))
      modifies this
      ensures Abs() == Apply(old(Abs()), Event.TakeId(t)) && id == old(nextId)
    {
      id := nextId;
      nextId := nextId + 1;
      records := records[t := Pending(false, EIO, [])];
      reqs := reqs[t := reqs[t].(pc := HasId, id := id)];
    }

    /** Lists the record, unless the connection has died meanwhile. */
    method Register(t: Ref, id: nat) returns (ok: bool)
      requires Enabled(Abs(), Event.Register(t)) && reqs[t].id == id
      modifies this
      ensures Abs() == Apply(old(Abs()), Event.Register(t)) && ok == alive
    {
      if !alive {
        reqs := reqs[t := reqs[t].(pc := Refused)];
        return false;
      }
      pend := pend[id := t];
      reqs := reqs[t := reqs[t].(pc := Registered)];
      return true;
    }

    method Unlist(ghost t: Ref, id: nat)
      requires Enabled(Abs(), Event.Unlist(t)) && reqs[t].id == id
      modifies this
      ensures Abs() == Apply(old(Abs()), Event.Unlist(t))
    {
      pend := pend - {id};
      reqs := reqs[t := reqs[t].(pc := Unlisted)];
    }

    /** The reader finds the record of a reply, and keeps it though it may be unlisted meanwhile. */
    method FindPending(m: Msg) returns (found: Option<Ref>)
      requires reader == Looking(m)
      modifies this
      ensures Abs() == Apply(old(Abs()), Lookup)
      ensures found == if m.reqId in pend then Some(pend[m.reqId]) else None
    {
      if m.reqId in pend {
        found := Some(pend[m.reqId]);
        reader := Found(m, pend[m.reqId]);
      } else {
        found := None;
        reader := Receiving;
      }
    }

    method Complete(m: Msg, t: Ref)
      requires reader == Found(m, t)
      modifies this
      ensures Abs() == Apply(old(Abs()), Deliver)
    {
      records := records[t := Pending(true, m.status, m.data)];
      reader := Receiving;
    }

    /** Fails every listed request. */
    method FailAll()
      requires Inv(Abs()) && reader.Draining?
      modifies this
      ensures Abs() == Apply(old(Abs()), Drain)
    {
      hide Inv;
      ListedHaveRecords(Abs());
      DrainFails(Abs());
      hide Failed, Apply;
      FailListed();
      reader := Dead;
    }

    method FailListed()
      requires forall id | id in pend :: pend[id] in records
      modifies `records
      ensures records == Failed(pend, old(records))
    {
      hide Failed;
      var todo := pend.Keys;
      NoneFailed(pend, records);
      while todo != {}
        invariant todo <= pend.Keys && records.Keys == old(records).Keys
        invariant records == Failed(pend - todo, old(records))
        decreases |todo|
      {
        var id :| id in todo;
        var t := pend[id];
        OneFailed(pend, todo, id, old(records));
        records := records[t := records[t].(status := EIO, done := true)];
        todo := todo - {id};
      }
      assert pend - {} == pend;
    }
  }

  lemma DrainFails(s: State)
    requires Enabled(s, Drain)
    ensures Apply(s, Drain) == s.(records := Failed(s.pend, s.records), reader := Dead)
  {}

  lemma NoneFailed(pend: map<nat, Ref>, records: map<Ref, Pending>)
    ensures Failed(pend - pend.Keys, records) == records
  {
    assert pend - pend.Keys == map[];
  }

  lemma OneFailed(pend: map<nat, Ref>, todo: set<nat>, id: nat, records: map<Ref, Pending>)
    requires id in todo && todo <= pend.Keys && pend[id] in records
    ensures var u, t := Failed(pend - todo, records), pend[id];
            t in u && Failed(pend - (todo - {id}), records) == u[t := u[t].(status := EIO, done := true)]
  {
    var a, b := pend - todo, pend - (todo - {id});
    assert b.Values == a.Values + {pend[id]} by {
      assert b == a[id := pend[id]];
      forall r | r in a.Values ensures r in b.Values {
        var k :| k in a && a[k] == r;
        assert k in b && b[k] == r;
      }
      assert id in b && b[id] == pend[id];
    }
  }

  lemma ListedHaveRecords(s: State)
    requires Inv(s)
    ensures forall id | id in s.pend :: s.pend[id] in s.records
  {
    forall id | id in s.pend ensures s.pend[id] in s.records {
      assert Lists(s, id, s.pend[id]);
    }
  }
}
