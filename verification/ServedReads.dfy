/** What a hit in the block table is worth when a change comes between the halves of a fetch
    (client/src/fs/ram_cache.cpp:481-570): the late block, the version that finds it, and the runs in which
    whatever is found is current. */
module ServedReads {
  import opened Words
  import opened RemoteFs
  import opened RamCache
  import opened CacheRuns
  import B = BlockStore

  // ---- blocks a write leaves alone -----------------------------------------------------------

  /** The block keeps its bytes: the write makes the file no longer within it, and puts no other byte. */
  predicate Spares(data: bytes, off: nat, put: bytes, idx: nat) {
    put == [] ||
    (&& (off + |put| <= |data| || (idx + 1) * BLOCK <= |data| || off + |put| <= idx * BLOCK)
     && forall i | off <= i < off + |put| && idx * BLOCK <= i < (idx + 1) * BLOCK && i < |data| ::
          put[i - off] == data[i])
  }

  lemma BlockAt(data: bytes, lo: nat, i: nat)
    requires lo <= i < lo + BLOCK && i < |data|
    ensures i - lo < |Slice(data, lo, BLOCK)| && Slice(data, lo, BLOCK)[i - lo] == data[i]
  {}

  lemma BlockSpared(data: bytes, off: nat, put: bytes, idx: nat)
    ensures BlockOf(Overwrite(data, off, put), idx) == BlockOf(data, idx) <==> Spares(data, off, put, idx)
  {
    hide Overwrite, Slice;
    var d, lo := Overwrite(data, off, put), idx * BLOCK;
    var x, y := BlockOf(d, idx), BlockOf(data, idx);
    OverwriteBytes(data, off, put);
    SliceLength(d, lo, BLOCK);
    SliceLength(data, lo, BLOCK);
    if x == y && put != [] {
      forall i | off <= i < off + |put| && lo <= i < lo + BLOCK && i < |data| ensures put[i - off] == data[i] {
        BlockAt(d, lo, i);
        BlockAt(data, lo, i);
        assert d[i] == put[i - off];
      }
    }
    if Spares(data, off, put, idx) {
      assert |x| == |y|;
      forall j | 0 <= j < |x| ensures x[j] == y[j] {
        BlockAt(d, lo, lo + j);
        BlockAt(data, lo, lo + j);
        assert d[lo + j] == data[lo + j];
      }
    }
  }

  // ---- a block that arrives after a write --------------------------------------------------------

  function VersionOf(f: Node): B.Version
    requires f.File?
  {
    B.Version(|f.data|, f.mtime)
  }

  /** A lookup of the block under a version succeeds. */
  predicate Hit(es: seq<B.Entry>, p: string, v: B.Version, idx: nat) {
    B.HasKey(B.AfterGet(es, p, v, idx), B.Key(p, idx))
  }

  /** A block stored in a table that holds nothing of its file is found under its own version only, and
      only if it fits. */
  lemma OnlyBlock(es: seq<B.Entry>, e: B.Entry, budget: nat, w: B.Version)
    requires !B.HasPath(es, e.key.path)
    ensures var u := B.AfterPut(es, e, budget);
            && (Hit(u, e.key.path, w, e.key.idx) <==> w == e.version && |e.data| <= budget)
            && (forall x | x in u && x.key.path == e.key.path :: x == e)
  {
    var p, u := e.key.path, B.AfterPut(es, e, budget);
    assert !B.Stale(es, p, e.version) && !B.HasKey(es, e.key);
    assert u == B.Evict([e] + es, budget);
    NoneOfPath(es, p);
    B.PutMembers(es, e, budget);
    if |e.data| <= budget {
      B.NewestSurvives(es, e, budget);
      FoundUnder(u, e, w);
    } else {
      TooLarge(es, e, budget);
    }
  }

  lemma NoneOfPath(es: seq<B.Entry>, p: string)
    requires !B.HasPath(es, p)
    ensures forall x | x in es :: x.key.path != p
  {}

  lemma TooLarge(es: seq<B.Entry>, e: B.Entry, budget: nat)
    requires |e.data| > budget
    ensures B.Evict([e] + es, budget) == []
  {
    var u := B.Evict([e] + es, budget);
    B.EvictKeepsMostRecent([e] + es, budget);
    FirstCounts(u, [e] + es);
  }

  lemma FirstCounts(u: seq<B.Entry>, all: seq<B.Entry>)
    requires u <= all
    ensures u == [] || (u[0] == all[0] && B.Bytes(u) >= |u[0].data|)
  {}

  lemma FoundUnder(u: seq<B.Entry>, e: B.Entry, w: B.Version)
    requires u != [] && u[0] == e && forall x | x in u && x.key.path == e.key.path :: x == e
    ensures Hit(u, e.key.path, w, e.key.idx) <==> w == e.version
  {
    var p := e.key.path;
    assert B.HasKey(u, e.key);
    if w == e.version {
      assert !B.Stale(u, p, w) by {
        forall i | 0 <= i < |u| && u[i].key.path == p ensures u[i].version == w {
          assert u[i] in u;
        }
      }
      assert B.AfterGet(u, p, w, e.key.idx)[0].key == e.key;
    } else {
      assert B.Stale(u, p, w);
      B.PurgeMembers(u, p);
      assert !B.HasKey(B.Purge(u, p), e.key);
    }
  }

  /** A fetch asked for before a write and stored after it. */
  ghost function Late(id: nat, h: nat, idx: nat, v: B.Version, read: Env, off: nat, put: bytes, env: Env,
                      now: int, budget: nat): seq<Step>
  {
    [AskBlock(id, h, idx, v, read), Own(Write(h, off, put), env), Store(id, now, budget)]
  }

  lemma ThreeSteps(s: State, a: Step, b: Step, c: Step)
    requires Enabled(s, a) && Enabled(Apply(s, a), b) && Enabled(Apply(Apply(s, a), b), c)
    ensures Schedule(s, [a, b, c]) && After(s, [a, b, c]) == Apply(Apply(Apply(s, a), b), c)
  {
    hide Enabled, Apply;
    var s1, s2 := Apply(s, a), Apply(Apply(s, a), b);
    var es := [a, b, c];
    assert es[1..] == [b, c] && [b, c][1..] == [c] && [c][1..] == [];
    assert Schedule(s2, [c]) && After(s2, [c]) == Apply(s2, c);
    assert Schedule(s1, [b, c]) && After(s1, [b, c]) == After(s2, [c]);
  }

  lemma BlockAsked(s: State, id: nat, h: nat, idx: nat, v: B.Version, read: Env)
    requires Handles(s) && h in s.tables.fh && id !in s.onWay && idx < BLOCKS && !Faulty(read)
    ensures var p := s.tables.fh[h].path;
            && IsFile(s.fs, p)
            && Apply(s, AskBlock(id, h, idx, v, read))
            == Asked(s, id, Block(FetchedEntry(p, idx, v, BlockOf(s.fs.tree[p].data, idx))))
  {
    KnownHandle(s.fs, s.tables.fh, h);
    PlainRead(s.fs, h, idx * BLOCK % TWO64, BLOCK, read);
    assert idx * BLOCK % TWO64 == idx * BLOCK;
  }

  /** A write of the mounted folder, as the cache sees it. */
  lemma WriteDone(s: State, h: nat, off: nat, put: bytes, env: Env)
    requires Handles(s) && h in s.tables.fh && !Faulty(env)
    ensures var e, p := Own(Write(h, off, put), env), s.tables.fh[h].path;
            && IsFile(s.fs, p) && Enabled(s, e)
            && var u, f := Apply(s, e), s.fs.tree[p];
               && u.tables == Invalidated(s.tables, p) && u.due == s.due
               && u.onWay.Keys == s.onWay.Keys && (forall id | id in s.onWay :: u.onWay[id].fact == s.onWay[id].fact)
               && u.fs == SetNode(s.fs, p, f.(data := Overwrite(f.data, off, put), mtime := env.now))
  {
    hide Overwrite, Invalidated, Touches;
    KnownHandle(s.fs, s.tables.fh, h);
  }

  /** After it, whatever the cache held before: the block is found under the version it was asked for and no
      other, and it is right exactly when the write spares it. */
  lemma LateBlock(s: State, id: nat, h: nat, idx: nat, v: B.Version, read: Env, off: nat, put: bytes, env: Env,
                  now: int, budget: nat)
    requires Handles(s) && h in s.tables.fh && id !in s.onWay && idx < BLOCKS && !Faulty(read) && !Faulty(env)
    ensures var es := Late(id, h, idx, v, read, off, put, env, now, budget);
            && Schedule(s, es)
            && var p, u := s.tables.fh[h].path, After(s, es);
               && IsFile(s.fs, p)
               && var f := s.fs.tree[p];
                  var e := FetchedEntry(p, idx, v, BlockOf(f.data, idx));
                  && u.fs == SetNode(s.fs, p, f.(data := Overwrite(f.data, off, put), mtime := env.now))
                  && u.tables.fh == Cleared(s.tables.fh, p)
                  && (forall j | j in s.onWay :: j in u.onWay && u.onWay[j].fact == s.onWay[j].fact)
                  && (forall w :: Hit(u.tables.blocks, p, w, idx) <==> w == v && |e.data| <= budget)
                  && (forall x | x in u.tables.blocks && x.key.path == p :: x == e)
                  && (Right(u.fs, Block(e)) <==> Spares(f.data, off, put, idx))
  {
    hide B.AfterPut, Hit, Overwrite, BlockOf, Handles, Spares, Enabled, Apply;
    var es := Late(id, h, idx, v, read, off, put, env, now, budget);
    AskEnabled(s, id, h, idx, v, read);
    BlockAsked(s, id, h, idx, v, read);
    var p := s.tables.fh[h].path;
    var f := s.fs.tree[p];
    var e := FetchedEntry(p, idx, v, BlockOf(f.data, idx));
    var s1 := Apply(s, es[0]);
    StillHandles(s, s1);
    WriteDone(s1, h, off, put, env);
    var s2 := Apply(s1, es[1]);
    FactStored(s2, id, now, budget);
    ThreeSteps(s, es[0], es[1], es[2]);
    B.PurgeMembers(s.tables.blocks, p);
    forall w ensures Hit(B.AfterPut(s2.tables.blocks, e, budget), p, w, idx) <==> w == v && |e.data| <= budget {
      OnlyBlock(s2.tables.blocks, e, budget, w);
    }
    OnlyBlock(s2.tables.blocks, e, budget, v);
    BlockSpared(f.data, off, put, idx);
  }

  lemma StillHandles(s: State, u: State)
    requires Handles(s) && u.fs == s.fs && u.tables == s.tables
    ensures Handles(u)
  {}

  lemma AskEnabled(s: State, id: nat, h: nat, idx: nat, v: B.Version, read: Env)
    requires h in s.tables.fh && id !in s.onWay
    ensures Enabled(s, AskBlock(id, h, idx, v, read))
  {}

  lemma FactStored(s: State, id: nat, now: int, budget: nat)
    requires id in s.onWay
    ensures Enabled(s, Store(id, now, budget))
    ensures Apply(s, Store(id, now, budget)) == s.(tables := Stored(s.tables, s.onWay[id].fact, now, budget))
  {}

  /** A block fetched under the file's own version before a write and stored after it is found under the
      file's new version, and wrong, exactly when the write leaves size and time as they were and puts
      another byte into the block. */
  lemma SplitFetch(s: State, id: nat, h: nat, idx: nat, read: Env, off: nat, put: bytes, env: Env,
                   now: int, budget: nat)
    requires Handles(s) && h in s.tables.fh && id !in s.onWay && idx < BLOCKS && !Faulty(read) && !Faulty(env)
    ensures var p := s.tables.fh[h].path;
            && IsFile(s.fs, p)
            && var f := s.fs.tree[p];
               var es := Late(id, h, idx, VersionOf(f), read, off, put, env, now, budget);
               && Schedule(s, es)
               && var u := After(s, es);
                  && IsFile(u.fs, p)
                  && (Hit(u.tables.blocks, p, VersionOf(u.fs.tree[p]), idx)
                      && !Right(u.fs, Block(FetchedEntry(p, idx, VersionOf(f), BlockOf(f.data, idx))))
                      <==> env.now == f.mtime && off + |put| <= |f.data| && !Spares(f.data, off, put, idx)
                           && |BlockOf(f.data, idx)| <= budget)
  {
    hide Handles, Hit, Right, BlockOf, Spares, Late, Schedule, After, Overwrite;
    OnFile(s, h);
    var f := s.fs.tree[s.tables.fh[h].path];
    LateBlock(s, id, h, idx, VersionOf(f), read, off, put, env, now, budget);
    OverwriteBytes(f.data, off, put);
    NothingPut(f.data, off, idx);
  }

  lemma OnFile(s: State, h: nat)
    requires Handles(s) && h in s.tables.fh
    ensures IsFile(s.fs, s.tables.fh[h].path) && h in s.fs.open && s.fs.open[h] == s.tables.fh[h].path
  {
    KnownHandle(s.fs, s.tables.fh, h);
  }

  lemma NothingPut(data: bytes, off: nat, idx: nat)
    ensures Spares(data, off, [], idx)
  {}

  /** A read through the handle would find the block, and it is wrong. */
  ghost predicate ServedWrong(s: State, h: nat, e: B.Entry) {
    && h in s.tables.fh && s.tables.fh[h].path == e.key.path && s.tables.fh[h].haveVer
    && Hit(s.tables.blocks, e.key.path, B.Version(s.tables.fh[h].size, s.tables.fh[h].mtime), e.key.idx)
    && !Right(s.fs, Block(e))
  }

  /** When the version of the handle is captured across the same write too, size and time make no
      difference: the late block is found, and wrong, exactly when the write puts another byte into it. */
  lemma SplitCapture(s: State, j: nat, id: nat, h: nat, idx: nat, read: Env, off: nat, put: bytes, env: Env,
                     now: int, budget: nat)
    requires Handles(s) && h in s.tables.fh && j !in s.onWay && id !in s.onWay && j != id
    requires idx < BLOCKS && !Faulty(read) && !Faulty(env)
    ensures var p := s.tables.fh[h].path;
            && IsFile(s.fs, p)
            && var f, ask := s.fs.tree[p], AskAttr(j, p, read);
               var es := Late(id, h, idx, VersionOf(f), read, off, put, env, now, budget);
               && Enabled(s, ask) && Schedule(Apply(s, ask), es)
               && var u := After(Apply(s, ask), es);
                  && Enabled(u, Capture(j, h, now))
                  && (ServedWrong(Apply(u, Capture(j, h, now)), h,
                                  FetchedEntry(p, idx, VersionOf(f), BlockOf(f.data, idx)))
                      <==> !Spares(f.data, off, put, idx) && |BlockOf(f.data, idx)| <= budget)
  {
    hide Handles, Hit, Right, BlockOf, Spares, Late, Schedule, After, Overwrite;
    OnFile(s, h);
    var p := s.tables.fh[h].path;
    var f, s1 := s.fs.tree[p], Apply(s, AskAttr(j, p, read));
    assert s1 == Asked(s, j, Attribs(p, AttrOf(f)));
    StillHandles(s, s1);
    LateBlock(s1, id, h, idx, VersionOf(f), read, off, put, env, now, budget);
  }

  /** A write that is carried out while its reply is lost leaves a block of the file in the cache, right
      exactly when the write spares it; the announcement of the path drops it. */
  lemma LostWrite(s: State, h: nat, off: nat, put: bytes, env: Env, e: B.Entry)
    requires Handles(s) && h in s.tables.fh && e.key.path == s.tables.fh[h].path && e.key.idx < BLOCKS
    requires e in s.tables.blocks && Right(s.fs, Block(e)) && !Faulty(env)
    ensures var lost := Lost(Write(h, off, put), env);
            && Enabled(s, lost)
            && var u := Apply(s, lost);
               && e in u.tables.blocks && e.key.path in u.due
               && (Right(u.fs, Block(e)) <==> Spares(s.fs.tree[e.key.path].data, off, put, e.key.idx))
               && forall x | x in Apply(u, Arrive(e.key.path)).tables.blocks :: x.key.path != e.key.path
  {
    hide Overwrite, BlockOf, Spares, Touches;
    KnownHandle(s.fs, s.tables.fh, h);
    var u := Apply(s, Lost(Write(h, off, put), env));
    BlockSpared(s.fs.tree[e.key.path].data, off, put, e.key.idx);
    AnnouncedGone(u.tables, e.key.path);
    assert e.key.path in Announcements(s.fs, Write(h, off, put));
  }

  // ---- one byte ----------------------------------------------------------------------------------

  /** A folder with one file of one byte. */
  function OneByteFile(): Fs { Fs(map["/a" := File([1], 0, 0)], map[], 0) }

  const CALM: Env := Env(0, 0, [])

  /** The file opened through the cache. */
  ghost function OneByteOpen(): (s: State)
    ensures s == Apply(Start(OneByteFile()), Own(Open("/a"), CALM))
    ensures Handles(s) && 0 in s.tables.fh && s.tables.fh[0].path == "/a" && s.onWay == map[]
    ensures s.fs.tree == map["/a" := File([1], 0, 0)]
  {
    var s0 := Start(OneByteFile());
    StartInv(OneByteFile(), Blocks);
    assert Ordinary(s0.fs, Open("/a")) && Expected(s0.fs, s0.tables.fh, Open("/a"));
    KeepsHandles(s0, Own(Open("/a"), CALM), Blocks);
    Apply(s0, Own(Open("/a"), CALM))
  }

  lemma OtherByte()
    ensures !Spares([1], 0, [2], 0) && BlockOf([1], 0) == [1]
  {
    assert [2][0 - 0] != [1][0];
  }

  /** Writing 2 over the 1 at the same time leaves the 1 to be found under the new version. */
  lemma LateByte()
    ensures var es := Late(0, 0, 0, B.Version(1, 0), CALM, 0, [2], CALM, 0, BLOCK);
            && Schedule(OneByteOpen(), es)
            && var u := After(OneByteOpen(), es);
               && IsFile(u.fs, "/a") && VersionOf(u.fs.tree["/a"]) == B.Version(1, 0)
               && Hit(u.tables.blocks, "/a", B.Version(1, 0), 0)
               && !Right(u.fs, Block(FetchedEntry("/a", 0, B.Version(1, 0), [1])))
  {
    hide Handles, Hit, Right, BlockOf, Spares, Late, Schedule, After, Start, Apply;
    OtherByte();
    SplitFetch(OneByteOpen(), 0, 0, 0, CALM, 0, [2], CALM, 0, BLOCK);
    LateBlock(OneByteOpen(), 0, 0, 0, B.Version(1, 0), CALM, 0, [2], CALM, 0, BLOCK);
    OverwriteBytes([1], 0, [2]);
  }

  /** Writing 2 over the 1 at a later time leaves it to be found through a handle whose version was captured
      across the write. */
  lemma LateVersion(later: int)
    ensures var ask, write := AskAttr(1, "/a", CALM), Env(0, later, []);
            var es := Late(0, 0, 0, B.Version(1, 0), CALM, 0, [2], write, 0, BLOCK);
            && Enabled(OneByteOpen(), ask) && Schedule(Apply(OneByteOpen(), ask), es)
            && var u := After(Apply(OneByteOpen(), ask), es);
               && Enabled(u, Capture(1, 0, 0))
               && ServedWrong(Apply(u, Capture(1, 0, 0)), 0, FetchedEntry("/a", 0, B.Version(1, 0), [1]))
  {
    hide Handles, Hit, Right, BlockOf, Spares, Late, Schedule, After, Start, Apply, Enabled, ServedWrong;
    OtherByte();
    SplitCapture(OneByteOpen(), 1, 0, 0, 0, CALM, 0, [2], Env(0, later, []), 0, BLOCK);
  }

  // ---- runs in which what is found is current ---------------------------------------------------

  ghost predicate SameBytes(a: Fs, b: Fs, p: string) {
    IsFile(a, p) && IsFile(b, p) && a.tree[p].data == b.tree[p].data
  }

  /** The versions a file has had since its bytes last changed. */
  ghost function Seen(a: Fs, b: Fs, p: string, seen: set<B.Version>): set<B.Version> {
    if !IsFile(b, p) then {} else (if SameBytes(a, b, p) then seen else {}) + {VersionOf(b.tree[p])}
  }

  /** No block of the file is kept under the version, in the table or on its way; one in the table that an
      announcement is about to drop does not count. */
  ghost predicate Unused(s: State, p: string, v: B.Version) {
    && (p !in s.due ==> forall e | e in s.tables.blocks && e.key.path == p :: e.version != v)
    && (forall id | id in s.onWay && s.onWay[id].fact.Block? ::
          var e := s.onWay[id].fact.entry; e.key.path == p ==> e.version != v)
  }

  /** A version the file takes on anew is not one that the cache keeps blocks of older bytes under. */
  ghost predicate ToldApart(s: State, e: Step, p: string, seen: set<B.Version>)
    requires Enabled(s, e)
  {
    var u := Apply(s, e);
    IsFile(u.fs, p) && !(SameBytes(s.fs, u.fs, p) && VersionOf(u.fs.tree[p]) in seen) ==>
      Unused(u, p, VersionOf(u.fs.tree[p]))
  }

  /** No version is captured after a change has touched it and the cache has dropped what it held. */
  ghost predicate CalmCapture(s: State, e: Step) {
    e.Capture? && e.id in s.onWay ==> s.onWay[e.id].clean || About(s.onWay[e.id].fact, s.due)
  }

  /** What is kept under a version of the present bytes is right, and those are the versions handles have. */
  ghost predicate BlocksApart(s: State, p: string, seen: set<B.Version>) {
    forall e | e in s.tables.blocks && e.key.path == p && e.version in seen :: p in s.due || BlockTrue(s.fs, e)
  }

  ghost predicate WayApart(s: State, p: string, seen: set<B.Version>) {
    forall id | id in s.onWay && s.onWay[id].fact.Block? ::
      var e := s.onWay[id].fact.entry; e.key.path == p && e.version in seen ==> BlockTrue(s.fs, e)
  }

  ghost predicate VersionsSeen(s: State, p: string, seen: set<B.Version>) {
    forall h | h in s.tables.fh && s.tables.fh[h].path == p && s.tables.fh[h].haveVer ::
      p in s.due || B.Version(s.tables.fh[h].size, s.tables.fh[h].mtime) in seen
  }

  ghost predicate Apart(s: State, p: string, seen: set<B.Version>) {
    && (IsFile(s.fs, p) ==> VersionOf(s.fs.tree[p]) in seen)
    && BlocksApart(s, p, seen) && WayApart(s, p, seen) && VersionsSeen(s, p, seen)
  }

  lemma KeepsApart(s: State, e: Step, p: string, seen: set<B.Version>)
    requires Inv(s, Attrs) && Apart(s, p, seen)
    requires Enabled(s, e) && ToldApart(s, e, p, seen) && CalmCapture(s, e)
    ensures Apart(Apply(s, e), p, Seen(s.fs, Apply(s, e).fs, p, seen))
  {
    hide Enabled, ToldApart, CalmCapture, BlocksApart, WayApart, VersionsSeen, Handles, HeldFine, WayFine, Apply;
    var u := Apply(s, e);
    KeepsHandles(s, e, Attrs);
    if !IsFile(u.fs, p) {
      NothingSeen(u, p);
    } else if e.Own? || e.Lost? || e.Others? {
      BlocksAcross(s, e, p, seen);
      WayAcross(s, e, p, seen);
      VersionsAcross(s, e, p, seen);
    } else {
      SameFs(s, e);
      assert Seen(s.fs, s.fs, p, seen) == seen;
      if e.AskBlock? || e.AskAttr? || e.AskNames? || e.Look? {
        AskedApart(s, e, p, seen);
      } else {
        TablesApart(s, e, p, seen);
        VersionsStay(s, e, p, seen);
      }
    }
  }

  lemma NothingSeen(s: State, p: string)
    requires Handles(s) && !IsFile(s.fs, p)
    ensures Apart(s, p, {})
  {}

  lemma SameFs(s: State, e: Step)
    requires Enabled(s, e) && !e.Own? && !e.Lost? && !e.Others?
    ensures Apply(s, e).fs == s.fs
  {
    hide Serve;
  }

  // a step that leaves the filesystem alone

  lemma AskedApart(s: State, e: Step, p: string, seen: set<B.Version>)
    requires Handles(s) && BlocksApart(s, p, seen) && WayApart(s, p, seen) && VersionsSeen(s, p, seen)
    requires Enabled(s, e) && (e.AskBlock? || e.AskAttr? || e.AskNames? || e.Look?)
    ensures BlocksApart(Apply(s, e), p, seen) && WayApart(Apply(s, e), p, seen) && VersionsSeen(Apply(s, e), p, seen)
  {
    hide Serve, BlockTrue, Handles;
    if e.AskBlock? {
      BlockRight(s, e.h, e.idx, e.version, e.env);
    }
  }

  lemma TablesApart(s: State, e: Step, p: string, seen: set<B.Version>)
    requires BlocksApart(s, p, seen) && WayApart(s, p, seen) && Enabled(s, e)
    requires !e.Own? && !e.Lost? && !e.Others? && !e.AskBlock? && !e.AskAttr? && !e.AskNames? && !e.Look?
    ensures BlocksApart(Apply(s, e), p, seen) && WayApart(Apply(s, e), p, seen)
  {
    hide BlockTrue, Stored, Announced;
    var u := Apply(s, e);
    forall x | x in u.tables.blocks && x.key.path == p && x.version in seen ensures p in u.due || BlockTrue(u.fs, x) {
      if e.Store? {
        StoredHolds(s.tables, s.onWay[e.id].fact, e.now, e.budget, Block(x));
      } else if e.Arrive? {
        AnnouncedDrops(s.tables, e.path, Block(x));
      } else {
        StillHeld(s, e, Block(x));
      }
    }
  }

  lemma VersionsStay(s: State, e: Step, p: string, seen: set<B.Version>)
    requires Inv(s, Attrs) && VersionsSeen(s, p, seen) && Enabled(s, e) && CalmCapture(s, e)
    requires IsFile(s.fs, p) && VersionOf(s.fs.tree[p]) in seen
    requires !e.Own? && !e.Lost? && !e.Others? && !e.AskBlock? && !e.AskAttr? && !e.AskNames? && !e.Look?
    ensures VersionsSeen(Apply(s, e), p, seen)
  {
    hide Handles, HeldFine, B.AfterPut;
    if e.Capture? && s.tables.fh[e.h].path == p && s.onWay[e.id].clean {
      assert KindOf(s.onWay[e.id].fact) == Attrs && Right(s.fs, s.onWay[e.id].fact);
    }
  }

  // a request

  lemma BlocksAcross(s: State, e: Step, p: string, seen: set<B.Version>)
    requires Handles(s) && BlocksApart(s, p, seen) && Enabled(s, e) && ToldApart(s, e, p, seen)
    requires (e.Own? || e.Lost? || e.Others?) && IsFile(Apply(s, e).fs, p)
    ensures BlocksApart(Apply(s, e), p, Seen(s.fs, Apply(s, e).fs, p, seen))
  {
    hide Handles, BlockOf, Settled, Serve, Expected, Ordinary;
    var u := Apply(s, e);
    forall x | x in u.tables.blocks && x.key.path == p && x.version in Seen(s.fs, u.fs, p, seen)
      ensures p in u.due || BlockTrue(u.fs, x)
    {
      HeldBefore(s, e, x);
    }
  }

  lemma HeldBefore(s: State, e: Step, x: B.Entry)
    requires Handles(s) && Enabled(s, e) && (e.Own? || e.Lost? || e.Others?) && x in Apply(s, e).tables.blocks
    ensures x in s.tables.blocks && s.due <= Apply(s, e).due
  {
    hide Serve, Expected, Ordinary, Forgetting;
    if e.Own? {
      SettledForgets(s.fs, e.req, Serve(s.fs, e.req, e.env).1, s.tables, Block(x));
    }
  }

  lemma WayAcross(s: State, e: Step, p: string, seen: set<B.Version>)
    requires WayApart(s, p, seen) && Enabled(s, e) && ToldApart(s, e, p, seen)
    requires (e.Own? || e.Lost? || e.Others?) && IsFile(Apply(s, e).fs, p)
    ensures WayApart(Apply(s, e), p, Seen(s.fs, Apply(s, e).fs, p, seen))
  {
    hide BlockOf, Settled, Serve, Expected, Ordinary, Touches;
  }

  lemma VersionsAcross(s: State, e: Step, p: string, seen: set<B.Version>)
    requires Handles(s) && VersionsSeen(s, p, seen) && Enabled(s, e)
    requires (e.Own? || e.Lost? || e.Others?) && IsFile(Apply(s, e).fs, p)
    ensures VersionsSeen(Apply(s, e), p, Seen(s.fs, Apply(s, e).fs, p, seen))
  {
    hide Handles, Settled, Serve, Expected, Ordinary, Touches, Announcements;
    var u := Apply(s, e);
    forall h | h in u.tables.fh && u.tables.fh[h].path == p && u.tables.fh[h].haveVer && p !in u.due
      ensures B.Version(u.tables.fh[h].size, u.tables.fh[h].mtime) in Seen(s.fs, u.fs, p, seen)
    {
      VersionBefore(s, e, h);
      if !SameBytes(s.fs, u.fs, p) {
        VersionGone(s, e, p, h);
      }
    }
  }

  /** A version a handle has after a request it had before. */
  lemma VersionBefore(s: State, e: Step, h: nat)
    requires Enabled(s, e) && (e.Own? || e.Lost? || e.Others?)
    requires h in Apply(s, e).tables.fh && Apply(s, e).tables.fh[h].haveVer
    ensures h in s.tables.fh && s.tables.fh[h] == Apply(s, e).tables.fh[h]
    ensures s.due <= Apply(s, e).due
  {
    hide Serve, Expected, Ordinary, Settled;
    if e.Own? {
      VersionSettled(s.tables, e.req, Serve(s.fs, e.req, e.env).1, h);
    } else if e.Lost? {
      VersionSettled(s.tables, e.req, Failed(EIO), h);
    }
  }

  lemma VersionSettled(t: Tables, req: Request, reply: Reply, h: nat)
    requires h in Settled(t, req, reply).fh && Settled(t, req, reply).fh[h].haveVer
    ensures h in t.fh && t.fh[h] == Settled(t, req, reply).fh[h]
  {
    hide B.Purge, ParentOf;
  }

  /** A request that changes the bytes of an open file takes the version from its handles, or is announced. */
  lemma VersionGone(s: State, e: Step, p: string, h: nat)
    requires Handles(s) && Enabled(s, e) && (e.Own? || e.Lost? || e.Others?)
    requires h in s.tables.fh && s.tables.fh[h].path == p && !SameBytes(s.fs, Apply(s, e).fs, p)
    requires h in Apply(s, e).tables.fh && Apply(s, e).tables.fh[h].haveVer
    ensures p in Apply(s, e).due
  {
    hide Serve, Settled;
    OnFile(s, h);
    var req, env := e.req, e.env;
    ServeFrame(s.fs, req, env);
    assert !KeepsFile(s.fs, Apply(s, e).fs, p);
    assert p in ContentPaths(s.fs, req);
    if e.Own? {
      VersionCleared(s, req, Serve(s.fs, req, env).1, p, h);
    } else {
      TouchedIsAnnounced(s.fs, req, Block(FetchedEntry(p, 0, B.Version(0, 0), [])));
    }
  }

  lemma VersionCleared(s: State, req: Request, reply: Reply, p: string, h: nat)
    requires Handles(s) && Expected(s.fs, s.tables.fh, req) && p in ContentPaths(s.fs, req) && reply.status == 0
    requires h in s.tables.fh && s.tables.fh[h].path == p && h in Settled(s.tables, req, reply).fh
    ensures !Settled(s.tables, req, reply).fh[h].haveVer
  {
    hide B.Purge, ParentOf;
    OnFile(s, h);
    assert Opened(s.fs, p);
    if req.Write? {
      OnFile(s, req.fh);
    }
  }

  // ---- every run ---------------------------------------------------------------------------------

  ghost predicate AllApart(s: State, es: seq<Step>, p: string, seen: set<B.Version>)
    requires Schedule(s, es)
    decreases |es|
  {
    es == [] ||
    (&& ToldApart(s, es[0], p, seen) && CalmCapture(s, es[0])
     && AllApart(Apply(s, es[0]), es[1..], p, Seen(s.fs, Apply(s, es[0]).fs, p, seen)))
  }

  lemma {:induction false} RunApart(s: State, es: seq<Step>, p: string, seen: set<B.Version>)
      returns (last: set<B.Version>)
    requires Inv(s, Attrs) && Apart(s, p, seen)
    requires Schedule(s, es) && AllCalm(s, es, Attrs) && AllApart(s, es, p, seen)
    ensures Inv(After(s, es), Attrs) && Apart(After(s, es), p, last)
    decreases |es|
  {
    hide Inv, Enabled, Apply, Calm, Apart, ToldApart, CalmCapture, Seen;
    if es == [] {
      last := seen;
    } else {
      KeepsInv(s, es[0], Attrs);
      KeepsApart(s, es[0], p, seen);
      last := RunApart(Apply(s, es[0]), es[1..], p, Seen(s.fs, Apply(s, es[0]).fs, p, seen));
    }
  }

  /** Whatever block fetches are disturbed: after any run in which no attributes are stored or captured
      disturbed, and no version a file takes on is one the cache keeps blocks of its older bytes under, what
      a read through any handle finds in the block table is current, unless an announcement about the file
      has yet to arrive. */
  lemma ServedCurrent(fs: Fs, es: seq<Step>, p: string, h: nat, idx: nat, e: B.Entry)
    requires Sound(fs) && Schedule(Start(fs), es) && AllCalm(Start(fs), es, Attrs)
    requires AllApart(Start(fs), es, p, Seen(fs, fs, p, {}))
    requires var s := After(Start(fs), es);
             && h in s.tables.fh && s.tables.fh[h].path == p && s.tables.fh[h].haveVer && p !in s.due
             && e in B.AfterGet(s.tables.blocks, p, B.Version(s.tables.fh[h].size, s.tables.fh[h].mtime), idx)
             && e.key == B.Key(p, idx) && idx < BLOCKS
    ensures var now := After(Start(fs), es).fs;
            IsFile(now, p) && e.data == BlockOf(now.tree[p].data, idx)
  {
    StartInv(fs, Attrs);
    var seen := RunApart(Start(fs), es, p, Seen(fs, fs, p, {}));
    var s := After(Start(fs), es);
    var v := B.Version(s.tables.fh[h].size, s.tables.fh[h].mtime);
    hide Schedule, After, AllCalm, AllApart, Start, BlockOf, B.AfterGet, Inv, WayApart;
    B.GetMembers(s.tables.blocks, p, v, idx);
    assert BlockTrue(s.fs, e);
  }
}
