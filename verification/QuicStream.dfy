/** The byte streams of the native QUIC transport and its datagram queue
    (client/src/net/native_quic.cpp:105-157, 231-259, 405-469, 495-504). */
module QuicStream {
  import opened Words

  const CHUNK: nat := 65536

  /** The worker between its two locked sections: it has copied a chunk, then handed it over. */
  datatype Pump = Idle | Copied(chunk: bytes, closeAfter: bool) | Handed(chunk: bytes, closeAfter: bool)

  /** A reader between waits: how much it wants and what it has. */
  datatype Reader = NoRead | Wants(size: nat, got: bytes)

  /** A finished read: what it took off the stream, and whether its caller got it. */
  datatype Piece = Piece(asked: nat, data: bytes, ok: bool)

  /** `written` is what writers were told is sent, `handed` what picoquic took, `fins` how often it was
      told that the stream ends; `received` is what picoquic delivered, `pieces` the finished reads. */
  datatype State = State(
    rx: bytes, tx: bytes, localClosed: bool, remoteClosed: bool, finSent: bool,
    pump: Pump, reader: Reader,
    written: bytes, handed: bytes, fins: nat, received: bytes, pieces: seq<Piece>)

  datatype Event =
    | Write(data: bytes)
    | Close
    | Data(data: bytes, fin: bool)
    | EndRemote                      // reset, stop-sending, or the end of the worker
    | Copy
    | HandOver(ok: bool)
    | Pop
    | Read(size: nat)
    | Take

  predicate Enabled(s: State, e: Event) {
    match e
    case Copy => s.pump.Idle?
    case HandOver(_) => s.pump.Copied?
    case Pop => s.pump.Handed?
    case Read(_) => s.reader.NoRead?
    case Take => s.reader.Wants?
    case _ => true
  }

  function Shut(s: State): bool { s.localClosed || s.remoteClosed }

  predicate ClosesAfter(s: State, count: nat) { s.localClosed && !s.finSent && count == |s.tx| }

  /** The end of a read: enough bytes, or no more to come. */
  function Settle(s: State): State
    requires s.reader.Wants?
  {
    var r := s.reader;
    if |r.got| >= r.size then s.(reader := NoRead, pieces := s.pieces + [Piece(r.size, r.got, true)])
    else if Shut(s) then s.(reader := NoRead, pieces := s.pieces + [Piece(r.size, r.got, false)])
    else s
  }

  function Apply(s: State, e: Event): State
    requires Enabled(s, e)
  {
    match e
    case Write(data) => if Shut(s) then s else s.(tx := s.tx + data, written := s.written + data)
    case Close => s.(localClosed := true)
    case Data(data, fin) => s.(rx := s.rx + data, received := s.received + data, remoteClosed := s.remoteClosed || fin)
    case EndRemote => s.(remoteClosed := true)
    case Copy =>
      var count := Min(CHUNK, |s.tx|);
      if count == 0 && !ClosesAfter(s, count) then s else s.(pump := Copied(s.tx[..count], ClosesAfter(s, count)))
    case HandOver(ok) =>
      var p := s.pump;
      if ok then s.(pump := Handed(p.chunk, p.closeAfter), handed := s.handed + p.chunk,
                    fins := s.fins + (if p.closeAfter then 1 else 0))
      else s.(pump := Idle)
    case Pop =>
      var n := Min(|s.pump.chunk|, |s.tx|);
      s.(pump := Idle, tx := s.tx[n..], finSent := s.finSent || s.pump.closeAfter)
    case Read(size) => s.(reader := Wants(size, []))
    case Take =>
      var r := s.reader;
      var n := Min(if r.size > |r.got| then r.size - |r.got| else 0, |s.rx|);
      Settle(s.(rx := s.rx[n..], reader := Wants(r.size, r.got + s.rx[..n])))
  }

  // ---- the invariant -----------------------------------------------------------------

  /** The bytes accepted from writers are those handed over and those still queued, in order. */
  ghost predicate TxConserved(s: State) {
    match s.pump
    case Idle => s.written == s.handed + s.tx
    case Copied(chunk, _) => s.written == s.handed + s.tx && chunk <= s.tx
    case Handed(chunk, _) => chunk <= s.tx && s.written == s.handed + s.tx[|chunk|..]
  }

  /** The end of the stream is announced once at most, and only when nothing is left or can come. */
  ghost predicate FinOnce(s: State) {
    && (s.pump.Copied? && s.pump.closeAfter ==> s.localClosed && !s.finSent && s.pump.chunk == s.tx)
    && (s.pump.Handed? && s.pump.closeAfter ==> s.localClosed && !s.finSent && s.pump.chunk == s.tx)
    && s.fins == (if s.finSent || (s.pump.Handed? && s.pump.closeAfter) then 1 else 0)
    && (s.finSent ==> s.localClosed && s.tx == [])
  }

  function Taken(pieces: seq<Piece>): bytes
    decreases |pieces|
  {
    if pieces == [] then [] else Taken(pieces[..|pieces| - 1]) + pieces[|pieces| - 1].data
  }

  function Holding(r: Reader): bytes { if r.Wants? then r.got else [] }

  /** What was delivered is what reads took, then what the reader has, then what waits. */
  ghost predicate RxConserved(s: State) {
    s.received == Taken(s.pieces) + Holding(s.reader) + s.rx
  }

  /** A read that got its bytes got as many as it asked for; one that failed did so on a closed stream. */
  ghost predicate ReadsRight(s: State) {
    && (s.reader.Wants? ==> |s.reader.got| <= s.reader.size)
    && (forall p | p in s.pieces :: if p.ok then |p.data| == p.asked else |p.data| < p.asked && Shut(s))
  }

  ghost predicate Inv(s: State) { TxConserved(s) && FinOnce(s) && RxConserved(s) && ReadsRight(s) }

  function Initial(): State { State([], [], false, false, false, Idle, NoRead, [], [], 0, [], []) }

  lemma KeepsTx(s: State, e: Event)
    requires Enabled(s, e) && TxConserved(s)
    ensures TxConserved(Apply(s, e))
  {
    match e
    case Write(data) =>
      if !Shut(s) {
        assert s.handed + (s.tx + data) == (s.handed + s.tx) + data;
        if s.pump.Handed? {
          var n := |s.pump.chunk|;
          assert (s.tx + data)[n..] == s.tx[n..] + data;
          assert s.handed + (s.tx[n..] + data) == (s.handed + s.tx[n..]) + data;
        }
      }
    case HandOver(ok) =>
      if ok {
        var n := |s.pump.chunk|;
        assert s.tx == s.pump.chunk + s.tx[n..];
        assert s.handed + (s.pump.chunk + s.tx[n..]) == (s.handed + s.pump.chunk) + s.tx[n..];
      }
    case _ =>
  }

  lemma KeepsFin(s: State, e: Event)
    requires Enabled(s, e) && TxConserved(s) && FinOnce(s)
    ensures FinOnce(Apply(s, e))
  {}

  lemma KeepsRx(s: State, e: Event)
    requires Enabled(s, e) && RxConserved(s)
    ensures RxConserved(Apply(s, e))
  {
    hide Taken;
    if e.Data? {
      DataRx(s, e.data, e.fin);
    } else if e.Take? {
      TakeRx(s);
    } else {
      RxLeft(s, e);
    }
  }

  lemma RxLeft(s: State, e: Event)
    requires Enabled(s, e) && RxConserved(s) && !e.Data? && !e.Take?
    ensures RxConserved(Apply(s, e))
  {
    hide Taken;
  }

  lemma DataRx(s: State, data: bytes, fin: bool)
    requires RxConserved(s)
    ensures RxConserved(Apply(s, Data(data, fin)))
  {
    hide Taken;
    assert (Taken(s.pieces) + Holding(s.reader) + s.rx) + data == Taken(s.pieces) + Holding(s.reader) + (s.rx + data);
  }

  lemma TakeRx(s: State)
    requires Enabled(s, Take) && RxConserved(s)
    ensures RxConserved(Apply(s, Take))
  {
    var r := s.reader;
    var n := Min(if r.size > |r.got| then r.size - |r.got| else 0, |s.rx|);
    var u := s.(rx := s.rx[n..], reader := Wants(r.size, r.got + s.rx[..n]));
    assert Apply(s, Take) == Settle(u);
    hide Settle, Taken, Apply;
    Moved(Taken(s.pieces), r.got, s.rx, n);
    SettleRx(u);
  }

  lemma Moved(taken: bytes, got: bytes, rx: bytes, n: nat)
    requires n <= |rx|
    ensures taken + got + rx == taken + (got + rx[..n]) + rx[n..]
  {}

  lemma SettleRx(s: State)
    requires s.reader.Wants? && RxConserved(s)
    ensures RxConserved(Settle(s))
  {
    hide Taken;
    var r := s.reader;
    TakenAppend(s.pieces, Piece(r.size, r.got, true));
    TakenAppend(s.pieces, Piece(r.size, r.got, false));
    assert Taken(s.pieces) + r.got + [] + s.rx == Taken(s.pieces) + r.got + s.rx;
  }

  lemma TakenAppend(pieces: seq<Piece>, p: Piece)
    ensures Taken(pieces + [p]) == Taken(pieces) + p.data
  {
    assert (pieces + [p])[..|pieces|] == pieces;
  }

  lemma KeepsReads(s: State, e: Event)
    requires Enabled(s, e) && ReadsRight(s)
    ensures ReadsRight(Apply(s, e))
  {}

  lemma KeepsInv(s: State, e: Event)
    requires Inv(s) && Enabled(s, e)
    ensures Inv(Apply(s, e))
  {
    KeepsTx(s, e);
    KeepsFin(s, e);
    KeepsRx(s, e);
    KeepsReads(s, e);
    hide Apply, Enabled, TxConserved, FinOnce, RxConserved, ReadsRight;
  }

  // ---- every run -----------------------------------------------------------------------

  /** Any interleaving of writers, one reader, the worker, the peer and closing. */
  ghost predicate Schedule(s: State, es: seq<Event>)
    decreases |es|
  {
    es == [] || (Enabled(s, es[0]) && Schedule(Apply(s, es[0]), es[1..]))
  }

  ghost function After(s: State, es: seq<Event>): State
    requires Schedule(s, es)
    decreases |es|
  {
    if es == [] then s else After(Apply(s, es[0]), es[1..])
  }

  lemma {:induction false} Run(s: State, es: seq<Event>)
    requires Inv(s) && Schedule(s, es)
    ensures Inv(After(s, es))
    decreases |es|
  {
    if es != [] {
      KeepsInv(s, es[0]);
      Run(Apply(s, es[0]), es[1..]);
    }
  }

  // ---- what the steps of a run amount to --------------------------------------------------

  /** What picoquic delivers in a run. */
  ghost function Delivered(es: seq<Event>): bytes
    decreases |es|
  {
    if es == [] then [] else (if es[0].Data? then es[0].data else []) + Delivered(es[1..])
  }

  /** A step after which the stream takes no more writes. */
  predicate Shuts(e: Event) { e.Close? || e.EndRemote? || (e.Data? && e.fin) }

  /** What is written in a run while the stream is open. */
  ghost function Accepted(es: seq<Event>, shut: bool): bytes
    decreases |es|
  {
    if es == [] then []
    else (if es[0].Write? && !shut then es[0].data else []) + Accepted(es[1..], shut || Shuts(es[0]))
  }

  lemma {:induction false} History(s: State, es: seq<Event>)
    requires Schedule(s, es)
    ensures After(s, es).received == s.received + Delivered(es)
    ensures After(s, es).written == s.written + Accepted(es, Shut(s))
    decreases |es|
  {
    if es != [] {
      var u := Apply(s, es[0]);
      StepHistory(s, es[0]);
      hide Apply, Shut, Shuts;
      History(u, es[1..]);
      assert u.received + Delivered(es[1..]) == s.received + Delivered(es);
      assert u.written + Accepted(es[1..], Shut(u)) == s.written + Accepted(es, Shut(s));
    }
  }

  lemma StepHistory(s: State, e: Event)
    requires Enabled(s, e)
    ensures var u := Apply(s, e);
            && u.received == s.received + (if e.Data? then e.data else [])
            && u.written == s.written + (if e.Write? && !Shut(s) then e.data else [])
            && (Shut(u) <==> Shut(s) || Shuts(e))
  {}

  /** In every interleaving, in terms of what was delivered and what earlier reads took: a turn of a read
      ends it with the next bytes when there are enough of them, whether the stream is closed or not; with
      all that is left, and failing, when there are not and the stream is closed; and otherwise it waits. */
  lemma Reads(es: seq<Event>)
    requires Schedule(Initial(), es) && After(Initial(), es).reader.Wants?
    ensures var s := After(Initial(), es);
            var u, size := Apply(s, Take), s.reader.size;
            && Taken(s.pieces) <= Delivered(es)
            && var left := Delivered(es)[|Taken(s.pieces)|..];
               if |left| >= size then u.reader.NoRead? && u.pieces == s.pieces + [Piece(size, left[..size], true)]
               else if Shut(s) then
                 && u.reader.NoRead? && u.pieces == s.pieces + [Piece(size, left, false)]
                 && u.rx == [] && Taken(u.pieces) == Delivered(es)
               else u.reader == Wants(size, left) && u.pieces == s.pieces
  {
    InitialHistory(es);
    Run(Initial(), es);
    var s := After(Initial(), es);
    LeftOver(s);
    hide Schedule, After, Taken, Inv, Apply, Shut, Delivered;
    var left := s.reader.got + s.rx;
    OneTake(s, left);
    TakenAppend(s.pieces, Piece(s.reader.size, left, false));
  }

  /** What was delivered and no read has taken is what the reader has and what waits. */
  lemma LeftOver(s: State)
    requires Inv(s) && s.reader.Wants?
    ensures Taken(s.pieces) <= s.received && s.received == Taken(s.pieces) + (s.reader.got + s.rx)
    ensures s.received[|Taken(s.pieces)|..] == s.reader.got + s.rx && |s.reader.got| <= s.reader.size
  {
    hide Taken, TxConserved, FinOnce;
  }

  lemma InitialHistory(es: seq<Event>)
    requires Schedule(Initial(), es)
    ensures After(Initial(), es).received == Delivered(es)
    ensures After(Initial(), es).written == Accepted(es, false)
  {
    hide Schedule, After, Delivered, Accepted;
    History(Initial(), es);
    assert [] + Delivered(es) == Delivered(es) && [] + Accepted(es, false) == Accepted(es, false);
  }

  lemma OneTake(s: State, left: bytes)
    requires s.reader.Wants? && |s.reader.got| <= s.reader.size && left == s.reader.got + s.rx
    ensures var u, size := Apply(s, Take), s.reader.size;
            if |left| >= size then
              u.reader.NoRead? && u.pieces == s.pieces + [Piece(size, left[..size], true)] && u.rx == left[size..]
            else if Shut(s) then
              u.reader.NoRead? && u.pieces == s.pieces + [Piece(size, left, false)] && u.rx == []
            else u.reader == Wants(size, left) && u.pieces == s.pieces && u.rx == []
  {
    var r := s.reader;
    var n := Min(r.size - |r.got|, |s.rx|);
    assert r.got + s.rx[..n] == left[..|r.got| + n];
    assert |left| < r.size ==> s.rx[..n] == s.rx && s.rx[n..] == [];
    assert |left| >= r.size ==> s.rx[n..] == left[r.size..];
  }

  /** The worker alone gets everything out: from any state between its turns, with the transport taking what
      it is handed, it hands over all that was written, in one turn a chunk and one more, and announces the
      end exactly if the stream has been closed. */
  lemma {:induction false} Flushes(s: State) returns (es: seq<Event>)
    requires Inv(s) && s.pump.Idle?
    ensures Schedule(s, es) && |es| <= 3 * (|s.tx| / CHUNK + 1)
    ensures var u := After(s, es);
            && u.pump.Idle? && u.tx == [] && u.handed == s.written == u.written
            && (u.fins == 1 <==> u.localClosed) && u.localClosed == s.localClosed
    decreases |s.tx|
  {
    var count := Min(CHUNK, |s.tx|);
    es := [];
    hide Apply, Enabled, Inv, ClosesAfter;
    if count == 0 && !ClosesAfter(s, count) {
      AllOut(s);
    } else {
      var u := OneTurn(s);
      es := [Copy, HandOver(true), Pop];
      TurnRun(s, u);
      TurnMoves(s);
      hide Turned;
      hide Schedule, After;
      if count < |s.tx| {
        var more := Flushes(u);
        OneTurnLess(|s.tx|);
        RunOn(s, es, more);
        es := es + more;
      } else {
        LastTurn(s);
        AllOut(u);
      }
    }
  }

  lemma AllOut(s: State)
    requires Inv(s) && s.pump.Idle? && s.tx == [] && !ClosesAfter(s, 0)
    ensures s.handed == s.written && (s.fins == 1 <==> s.localClosed)
  {
    hide RxConserved, ReadsRight;
    assert s.handed + [] == s.handed;
  }

  lemma OneTurnLess(n: nat)
    requires n > CHUNK
    ensures 3 + 3 * ((n - CHUNK) / CHUNK + 1) <= 3 * (n / CHUNK + 1)
  {}

  lemma TurnMoves(s: State)
    ensures var u, count := Turned(s), Min(CHUNK, |s.tx|);
            u.pump.Idle? && u.tx == s.tx[count..] && u.written == s.written && u.localClosed == s.localClosed
  {}

  lemma LastTurn(s: State)
    requires |s.tx| <= CHUNK
    ensures Turned(s).tx == [] && !ClosesAfter(Turned(s), 0)
  {}

  /** The state after a turn of the worker. */
  ghost function Turned(s: State): State {
    var count := Min(CHUNK, |s.tx|);
    var last := ClosesAfter(s, count);
    s.(pump := Idle, tx := s.tx[count..], handed := s.handed + s.tx[..count],
       finSent := s.finSent || last, fins := s.fins + if last then 1 else 0)
  }

  lemma OneTurn(s: State) returns (u: State)
    requires Inv(s) && s.pump.Idle? && (s.tx != [] || ClosesAfter(s, 0))
    ensures u == Turned(s) && Inv(u)
    ensures Enabled(s, Copy) && Enabled(Apply(s, Copy), HandOver(true))
    ensures var b := Apply(Apply(s, Copy), HandOver(true)); Enabled(b, Pop) && Apply(b, Pop) == u
  {
    u := Turned(s);
    var a := Apply(s, Copy);
    var b := Apply(a, HandOver(true));
    KeepsInv(s, Copy);
    KeepsInv(a, HandOver(true));
    KeepsInv(b, Pop);
  }

  lemma TurnRun(s: State, u: State)
    requires Enabled(s, Copy) && Enabled(Apply(s, Copy), HandOver(true))
    requires var b := Apply(Apply(s, Copy), HandOver(true)); Enabled(b, Pop) && Apply(b, Pop) == u
    ensures var es := [Copy, HandOver(true), Pop]; Schedule(s, es) && After(s, es) == u
  {
    var es := [Copy, HandOver(true), Pop];
    var a, b := Apply(s, Copy), Apply(Apply(s, Copy), HandOver(true));
    hide Apply, Enabled;
    assert es[1..] == [HandOver(true), Pop] && es[1..][1..] == [Pop] && [Pop][1..] == [];
    assert Schedule(b, [Pop]) && After(b, [Pop]) == u;
    assert Schedule(a, es[1..]) && After(a, es[1..]) == u;
  }

  lemma {:induction false} RunOn(s: State, es: seq<Event>, more: seq<Event>)
    requires Schedule(s, es) && Schedule(After(s, es), more)
    ensures Schedule(s, es + more) && After(s, es + more) == After(After(s, es), more)
    decreases |es|
  {
    hide Apply, Enabled;
    if es == [] {
      assert es + more == more;
    } else {
      assert (es + more)[1..] == es[1..] + more;
      RunOn(Apply(s, es[0]), es[1..], more);
    }
  }

  /** In every interleaving: what picoquic was handed is a prefix of what was written, all of it by the
      time the end is announced, which happens at most once; and reads take consecutive pieces of what
      was received, each caller who gets bytes getting the next ones unless an earlier read failed. */
  lemma Conservation(es: seq<Event>)
    requires Schedule(Initial(), es)
    ensures var s := After(Initial(), es);
            && s.written == Accepted(es, false) && s.received == Delivered(es)
            && s.handed <= s.written && s.fins <= 1
            && (s.fins == 1 ==> s.handed == s.written && s.localClosed)
            && (s.pump.Idle? ==> s.written == s.handed + s.tx)
            && Taken(s.pieces) <= s.received
            && (s.reader.NoRead? ==> s.received == Taken(s.pieces) + s.rx)
            && (forall p | p in s.pieces :: if p.ok then |p.data| == p.asked else |p.data| < p.asked && Shut(s))
  {
    Run(Initial(), es);
    InitialHistory(es);
    var s := After(Initial(), es);
    hide Schedule, After, Taken, Accepted, Delivered;
    assert Taken(s.pieces) + Holding(s.reader) + s.rx == Taken(s.pieces) + (Holding(s.reader) + s.rx);
    if s.pump.Handed? && s.pump.closeAfter {
      assert s.tx[|s.pump.chunk|..] == [];
    }
  }

  /** Once the end is announced nothing more is handed over in any continuation. */
  lemma {:induction false} NothingAfterFin(s: State, es: seq<Event>)
    requires Inv(s) && Schedule(s, es) && s.fins == 1
    ensures After(s, es).handed == s.handed && After(s, es).fins == 1
    decreases |es|
  {
    if es != [] {
      KeepsInv(s, es[0]);
      FinStays(s, es[0]);
      NothingAfterFin(Apply(s, es[0]), es[1..]);
    }
  }

  lemma FinStays(s: State, e: Event)
    requires Inv(s) && Enabled(s, e) && s.fins == 1
    ensures Apply(s, e).handed == s.handed && Apply(s, e).fins == 1
  {
    hide RxConserved, ReadsRight;
  }

  // ---- the locked sections -------------------------------------------------------------

  class StreamState {
    var rx: bytes
    var tx: bytes
    var localClosed: bool
    var remoteClosed: bool
    var finSent: bool

    /** The outer state agrees with the fields of the source. */
    ghost predicate Is(s: State)
      reads this
    {
      rx == s.rx && tx == s.tx && localClosed == s.localClosed && remoteClosed == s.remoteClosed && finSent == s.finSent
    }

    constructor ()
      ensures Is(Initial())
    {
      rx, tx, localClosed, remoteClosed, finSent := [], [], false, false, false;
    }

    method WriteBytes(data: bytes, ghost s: State) returns (ok: bool)
      requires Is(s)
      modifies this
      ensures Is(Apply(s, Write(data))) && ok == !Shut(s)
    {
      if localClosed || remoteClosed {
        return false;
      }
      tx := tx + data;
      return true;
    }

    /** The worker's first section: up to one chunk is copied, byte by byte. */
    method CopyChunk(ghost s: State) returns (chunk: bytes, closeAfter: bool)
      requires Is(s) && s.pump.Idle?
      ensures var u := Apply(s, Copy);
              if u.pump.Copied? then chunk == u.pump.chunk && closeAfter == u.pump.closeAfter
              else chunk == [] && !closeAfter
    {
      var count := Min(CHUNK, |tx|);
      chunk := [];
      for i := 0 to count
        invariant chunk == tx[..i]
      {
        chunk := chunk + [tx[i]];
      }
      closeAfter := localClosed && !finSent && count == |tx|;
    }

    /** Its second: the chunk is popped, whatever was appended meanwhile. */
    method PopChunk(chunk: bytes, closeAfter: bool, ghost s: State)
      requires Is(s) && Inv(s) && s.pump == Handed(chunk, closeAfter)
      modifies this
      ensures Is(Apply(s, Pop))
    {
      assert |chunk| <= |s.tx|;
      hide Inv;
      for i := 0 to |chunk|
        invariant tx == s.tx[i..]
        invariant rx == s.rx && localClosed == s.localClosed && remoteClosed == s.remoteClosed && finSent == s.finSent
      {
        tx := tx[1..];
      }
      if closeAfter {
        finSent := true;
      }
    }

    /** What a reader takes in one turn; done tells whether it returns, and ok what it returns. */
    method TakeAvailable(out: bytes, size: nat, ghost s: State) returns (got: bytes, done: bool, ok: bool)
      requires Is(s) && s.reader == Wants(size, out) && |out| <= size
      modifies this
      ensures var u := Apply(s, Take);
              && Is(u)
              && done == u.reader.NoRead?
              && (!done ==> u.reader == Wants(size, got))
              && (done ==> u.pieces == s.pieces + [Piece(size, got, ok)])
    {
      got := out;
      while |got| < size && rx != []
        invariant |out| <= |got| <= size && |got| - |out| <= |s.rx|
        invariant got == out + s.rx[..|got| - |out|] && rx == s.rx[|got| - |out|..]
        invariant tx == s.tx && localClosed == s.localClosed && remoteClosed == s.remoteClosed && finSent == s.finSent
        decreases |rx|
      {
        got := got + [rx[0]];
        rx := rx[1..];
      }
      ok := |got| >= size;
      done := ok || localClosed || remoteClosed;
    }
  }

  // ---- datagrams -----------------------------------------------------------------------

  datatype Sent = Accepted | Again | Rejected

  /** The worker's datagram queue: `made` is what picoquic generated, `passed` what ICE took, `turnedAway` how
      often it did not. */
  class DatagramQueue {
    var pendingSends: seq<bytes>
    var failed: bool
    ghost var made: seq<bytes>
    ghost var passed: seq<bytes>
    ghost var turnedAway: nat

    /** Without a failure nothing is lost or reordered and at most one datagram waits. */
    ghost predicate Valid()
      reads this
    {
      && |pendingSends| <= 1 && passed <= made
      && (!failed ==> made == passed + pendingSends)
    }

    constructor ()
      ensures Valid() && made == [] && pendingSends == [] && !failed
    {
      pendingSends, failed, made, passed, turnedAway := [], false, [], [], 0;
    }

    method JuiceSend(packet: bytes) returns (r: Sent)
      modifies `passed, `turnedAway
      ensures passed == if r == Accepted then old(passed) + [packet] else old(passed)
      ensures turnedAway == old(turnedAway) + if r == Accepted then 0 else 1
    {
      r := *;
      if r == Accepted {
        passed := passed + [packet];
      } else {
        turnedAway := turnedAway + 1;
      }
    }

    /** Sends what waits, then what picoquic generates, until ICE has enough: all of it, unless ICE turns one
        away. */
    method FlushQuic(ready: seq<bytes>, iceConnected: bool) returns (used: nat)
      requires Valid() && !failed
      modifies this
      ensures Valid() && used <= |ready| && made == old(made) + ready[..used]
      ensures !iceConnected ==> used == 0 && pendingSends == old(pendingSends)
      ensures !failed && used < |ready| && iceConnected ==> |pendingSends| == 1
      ensures iceConnected && turnedAway == old(turnedAway) ==>
                !failed && used == |ready| && pendingSends == [] && passed == old(made) + ready
    {
      used := 0;
      if !iceConnected {
        return;
      }
      while pendingSends != []
        invariant Valid() && !failed && made == old(made) && turnedAway >= old(turnedAway)
        decreases |pendingSends|
      {
        var r := JuiceSend(pendingSends[0]);
        if r == Again {
          return;
        }
        if r == Rejected {
          failed := true;
          return;
        }
        assert [pendingSends[0]] + pendingSends[1..] == pendingSends;
        pendingSends := pendingSends[1..];
      }
      while used < |ready|
        invariant used <= |ready| && pendingSends == [] && !failed && Valid() && turnedAway >= old(turnedAway)
        invariant made == old(made) + ready[..used]
      {
        var packet := ready[used];
        made := made + [packet];
        used := used + 1;
        var r := JuiceSend(packet);
        if r == Again {
          pendingSends := pendingSends + [packet];
          return;
        }
        if r == Rejected {
          failed := true;
          return;
        }
      }
    }
  }
}
