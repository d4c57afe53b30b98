/** Whole runs of the RAM cache and everyone else who uses the filesystem (client/src/fs/ram_cache.cpp):
    fetches in two halves with anything between them, announcements on their way, replies lost. */
module CacheRuns {
  import opened Words
  import opened RemoteFs
  import opened RamCache
  import B = BlockStore

  // ---- single facts --------------------------------------------------------------------

  /** One thing an answer of the server tells, and the cache may hold. */
  datatype Fact =
    | Block(entry: B.Entry)
    | Attribs(path: string, attr: Attr)
    | Absence(path: string)
    | Children(path: string, names: Names)

  datatype Kind = Blocks | Attrs | Lists

  function KindOf(f: Fact): Kind {
    match f
    case Block(_) => Blocks
    case Attribs(_, _) => Attrs
    case Absence(_) => Attrs
    case Children(_, _) => Lists
  }

  ghost predicate Right(fs: Fs, f: Fact) {
    match f
    case Block(e) => BlockTrue(fs, e)
    case Attribs(p, a) => AttrTrue(fs, p, a)
    case Absence(p) => p !in fs.tree
    case Children(d, l) => IsDir(fs, d) && NamesAre(fs, d, l)
  }

  ghost predicate Holds(t: Tables, f: Fact) {
    match f
    case Block(e) => e in t.blocks
    case Attribs(p, a) => p in t.meta && t.meta[p].attr == a
    case Absence(p) => p in t.neg
    case Children(d, l) => d in t.dir && t.dir[d].names == l
  }

  /** What a request that succeeds may make wrong. */
  ghost predicate Touches(fs: Fs, req: Request, f: Fact) {
    match f
    case Block(e) => e.key.path in ContentPaths(fs, req) && IsFile(fs, e.key.path)
    case Attribs(p, _) => p in NodePaths(fs, req)
    case Absence(p) => p in NodePaths(fs, req)
    case Children(d, _) => d in NameDirs(req) && IsDir(fs, d)
  }

  /** What the announcement of one of the paths makes the cache drop. */
  ghost predicate About(f: Fact, paths: set<string>) {
    match f
    case Block(e) => e.key.path in paths
    case Attribs(p, _) => p in paths
    case Absence(p) => p in paths
    case Children(d, _) => d in paths || exists p | p in paths :: ParentOf(p) == d
  }

  ghost function PathsOf(fs: Fs, req: Request): (ps: set<string>)
    ensures forall p :: p in ps <==> p in Announcements(fs, req)
  {
    set p | p in Announcements(fs, req)
  }

  // ---- the state -------------------------------------------------------------------------

  /** An answer on its way into a table; `clean` while no change since has touched it. */
  datatype Waiting = Waiting(fact: Fact, clean: bool)

  /** `due` are the paths with an announcement still to arrive that the cache depends on. */
  datatype State = State(fs: Fs, tables: Tables, onWay: map<nat, Waiting>, due: set<string>)

  datatype Step =
    | Own(req: Request, env: Env)                       // a request of the mounted folder
    | Lost(req: Request, env: Env)                      // one that is carried out, but its reply is lost
    | Others(req: Request, env: Env)                    // one of another client
    | Arrive(path: string)                              // an announcement
    | Shed(rest: Tables)                                // expiry, trimming, eviction, a stale file dropped
    | AskBlock(id: nat, h: nat, idx: nat, version: B.Version, env: Env)
    | AskAttr(id: nat, path: string, env: Env)          // GETATTR, or one line of a listing
    | AskNames(id: nat, path: string, env: Env)
    | Look(id: nat, path: string)                       // attributes copied out of the table
    | Store(id: nat, now: int, budget: nat)             // an answer goes into its table
    | Capture(id: nat, h: nat, now: int)                // attributes become the version of a handle
    | Drop(id: nat)
    | Note(h: nat, info: FhInfo)                        // the read pattern of a handle, or a version given up
    | Queue(job: Job)
    | Dequeue

  ghost predicate Enabled(s: State, e: Step) {
    var t := s.tables;
    match e
    case Own(req, _) => Expected(s.fs, t.fh, req)
    case Lost(req, _) => Ordinary(s.fs, req)
    case Others(req, _) => Ordinary(s.fs, req) && (req.Release? ==> req.fh !in t.fh)
    case Arrive(_) => true
    case Shed(rest) => Thinner(t, rest) && forall h | h in rest.fh :: SameVersion(t.fh[h], rest.fh[h])
    case AskBlock(id, h, _, _, _) => id !in s.onWay && h in t.fh
    case AskAttr(id, _, _) => id !in s.onWay
    case AskNames(id, _, _) => id !in s.onWay
    case Look(id, path) => id !in s.onWay && path in t.meta
    case Store(id, _, _) => id in s.onWay
    case Capture(id, h, _) =>
      id in s.onWay && s.onWay[id].fact.Attribs? && h in t.fh && t.fh[h].path == s.onWay[id].fact.path
    case Drop(id) => id in s.onWay
    case Note(h, info) => h in t.fh && t.fh[h].path == info.path && SameVersion(t.fh[h], info)
    case Queue(job) => job.fhId in t.fh && t.fh[job.fhId].path == job.path
    case Dequeue => t.jobs != []
  }

  /** The captured version is the same, or given up. */
  ghost predicate SameVersion(f: FhInfo, g: FhInfo) {
    g.haveVer ==> f.haveVer && g.size == f.size && g.mtime == f.mtime
  }

  /** A request changes the filesystem: answers it touches are no longer clean. */
  ghost function Changed(s: State, req: Request, env: Env, t: Tables, due: set<string>): State {
    var answer := Serve(s.fs, req, env);
    State(answer.0, t,
          map id | id in s.onWay ::
            Waiting(s.onWay[id].fact,
                    s.onWay[id].clean && (answer.1.status == 0 ==> !Touches(s.fs, req, s.onWay[id].fact))),
          due)
  }

  ghost function DueFor(s: State, req: Request, env: Env): set<string> {
    s.due + if Serve(s.fs, req, env).1.status == 0 then PathsOf(s.fs, req) else {}
  }

  ghost function Asked(s: State, id: nat, f: Fact): State { s.(onWay := s.onWay[id := Waiting(f, true)]) }

  /** A fetched answer in its table. */
  ghost function Stored(t: Tables, f: Fact, now: int, budget: nat): Tables {
    match f
    case Block(e) => t.(blocks := B.AfterPut(t.blocks, e, budget))
    case Attribs(p, a) => t.(meta := t.meta[p := MetaEntry(a, now)], neg := t.neg - {p})
    case Absence(p) => t.(neg := t.neg[p := now])
    case Children(d, l) => t.(dir := t.dir[d := DirEntry(l, now)])
  }

  ghost function Apply(s: State, e: Step): State
    requires Enabled(s, e)
  {
    var t := s.tables;
    match e
    case Own(req, env) => Changed(s, req, env, Settled(t, req, Serve(s.fs, req, env).1), s.due)
    case Lost(req, env) => Changed(s, req, env, Settled(t, req, Failed(EIO)), DueFor(s, req, env))
    case Others(req, env) => Changed(s, req, env, t, DueFor(s, req, env))
    case Arrive(path) => s.(tables := Announced(t, path), due := s.due - {path})
    case Shed(rest) => s.(tables := rest)
    case AskBlock(id, h, idx, v, env) =>
      var reply := Serve(s.fs, Read(h, idx * BLOCK % TWO64, BLOCK), env).1;
      if reply.status == 0 && reply.body.Content?
      then Asked(s, id, Block(FetchedEntry(t.fh[h].path, idx, v, reply.body.data))) else s
    case AskAttr(id, path, env) =>
      var reply := Serve(s.fs, GetAttr(path), env).1;
      if reply.status == 0 && reply.body.Attributes? then Asked(s, id, Attribs(path, reply.body.attr))
      else if reply.status == ENOENT then Asked(s, id, Absence(path)) else s
    case AskNames(id, path, env) =>
      var reply := Serve(s.fs, ReadDir(path), env).1;
      if reply.status == 0 && reply.body.Listing? then Asked(s, id, Children(path, reply.body.names)) else s
    case Look(id, path) =>
      s.(onWay := s.onWay[id := Waiting(Attribs(path, t.meta[path].attr), path !in s.due)])
    case Store(id, now, budget) => s.(tables := Stored(t, s.onWay[id].fact, now, budget))
    case Capture(id, h, now) => s.(tables := t.(fh := t.fh[h := Captured(t.fh[h], s.onWay[id].fact.attr, now)]))
    case Drop(id) => s.(onWay := s.onWay - {id})
    case Note(h, info) => s.(tables := t.(fh := t.fh[h := info]))
    case Queue(job) => s.(tables := t.(jobs := t.jobs + [job]))
    case Dequeue => s.(tables := t.(jobs := t.jobs[1..]))
  }

  function FetchedEntry(path: string, idx: nat, v: B.Version, data: bytes): B.Entry {
    B.Entry(B.Key(path, idx), v, data, |data| < BLOCK)
  }

  function Captured(f: FhInfo, a: Attr, now: int): FhInfo {
    f.(haveVer := true, verAt := now, size := a.size, mtime := a.mtime)
  }

  // ---- one fact across one request ----------------------------------------------------------

  /** A fact a request does not touch stays right. */
  lemma FactKept(fs: Fs, req: Request, env: Env, f: Fact)
    requires Right(fs, f) && (Serve(fs, req, env).1.status == 0 ==> !Touches(fs, req, f))
    ensures Right(Serve(fs, req, env).0, f)
  {
    hide Serve, Framed, BlockTrue, AttrTrue, NamesAre, ContentPaths, NodePaths, NameDirs;
    ServeFrame(fs, req, env);
    var after, content, nodes, dirs := Serve(fs, req, env).0, ContentPaths(fs, req), NodePaths(fs, req), NameDirs(req);
    if Serve(fs, req, env).1.status == 0 {
      match f
      case Block(e) => BlocksAfter(fs, after, content, nodes, dirs, [e]); assert e in [e];
      case Attribs(p, a) =>
        var m := map[p := MetaEntry(a, 0)];
        MetaAfter(fs, after, content, nodes, dirs, m, map[]);
        assert p in m && m[p].attr == a;
      case Absence(p) =>
        var m := map[p := 0];
        MetaAfter(fs, after, content, nodes, dirs, map[], m);
        assert p in m;
      case Children(d, l) =>
        var m := map[d := DirEntry(l, 0)];
        DirsAfter(fs, after, content, nodes, dirs, m);
        assert d in m && m[d].names == l;
    }
  }

  /** What a request touches is about a path the server announces. */
  lemma TouchedIsAnnounced(fs: Fs, req: Request, f: Fact)
    requires Touches(fs, req, f)
    ensures About(f, PathsOf(fs, req))
  {
    hide ParentOf;
    var ps := PathsOf(fs, req);
    match req
    case Create(p, _, _) => assert [p][0] in ps;
    case Write(h, _, _) => if h in fs.open { assert [fs.open[h]][0] in ps; }
    case Truncate(p, _) => assert [p][0] in ps;
    case Unlink(p) => assert [p][0] in ps;
    case Rmdir(p) => assert [p][0] in ps;
    case Mkdir(p, _) => assert [p][0] in ps;
    case Rename(from, to) => assert [from, to][0] in ps && [from, to][1] in ps;
    case Chmod(p, _) => assert [p][0] in ps;
    case Utimens(p, _) => assert [p][0] in ps;
    case _ =>
  }

  /** The cache's own request leaves nothing it touched. */
  lemma SettledForgets(fs: Fs, req: Request, reply: Reply, t: Tables, f: Fact)
    requires Sound(fs) && HandlesTrue(fs, t.fh) && Expected(fs, t.fh, req) && Holds(Settled(t, req, reply), f)
    ensures Holds(t, f) && (reply.status == 0 ==> !Touches(fs, req, f))
  {
    hide Sound, HandlesTrue, Expected, Forgetting, ContentPaths, NodePaths, NameDirs;
    if reply.status == 0 && !req.Release? {
      ForgettingEnough(fs, req, t);
      assert Holds(Forgetting(t, req), f);
    } else if req.Release? {
      ForgettingNothing(t, req);
      ReleasedThinner(fs, t, req.fh);
    }
  }

  /** And keeps all that the request does not name. */
  lemma SettledKeeps(fs: Fs, req: Request, reply: Reply, t: Tables, f: Fact)
    requires HandlesTrue(fs, t.fh) && Expected(fs, t.fh, req) && Holds(t, f) && !Concerns(fs, req, f)
    ensures Holds(Settled(t, req, reply), f)
  {
    hide ParentOf, Cleared, Moved;
    PurgesKeep(t.blocks);
    hide B.Purge;
  }

  lemma PurgesKeep(es: seq<B.Entry>)
    ensures forall p, e | e in es && e.key.path != p :: e in B.Purge(es, p)
    ensures forall p, q, e | e in es && e.key.path != p && e.key.path != q :: e in B.Purge(B.Purge(es, p), q)
  {
    forall p ensures forall e :: e in B.Purge(es, p) <==> e in es && e.key.path != p {
      B.PurgeMembers(es, p);
    }
    forall p, q ensures forall e :: e in B.Purge(B.Purge(es, p), q) <==> e in B.Purge(es, p) && e.key.path != q {
      B.PurgeMembers(B.Purge(es, p), q);
    }
  }

  /** What a request is about: the paths it may touch, and for a rename listings of its own two paths. */
  ghost predicate Concerns(fs: Fs, req: Request, f: Fact) {
    match f
    case Block(e) => e.key.path in ContentPaths(fs, req)
    case Attribs(p, _) => p in NodePaths(fs, req)
    case Absence(p) => p in NodePaths(fs, req)
    case Children(d, _) => d in NameDirs(req) || (req.Rename? && d in {req.from, req.to})
  }

  /** An announcement drops what is about its path, and nothing else. */
  lemma AnnouncedDrops(t: Tables, path: string, f: Fact)
    ensures Holds(Announced(t, path), f) <==> Holds(t, f) && !About(f, {path})
  {
    hide ParentOf;
    B.PurgeMembers(t.blocks, path);
    assert path in {path};
  }

  lemma StoredHolds(t: Tables, f: Fact, now: int, budget: nat, g: Fact)
    requires Holds(Stored(t, f, now, budget), g)
    ensures g == f || Holds(t, g)
  {
    if f.Block? {
      hide B.AfterPut;
      B.PutMembers(t.blocks, f.entry, budget);
    }
  }

  // ---- the invariant ---------------------------------------------------------------------

  ghost predicate Handles(s: State) {
    Sound(s.fs) && HandlesTrue(s.fs, s.tables.fh) && JobsTrue(s.fs, s.tables.fh, s.tables.jobs)
  }

  ghost predicate FactFine(s: State, f: Fact) { Right(s.fs, f) || About(f, s.due) }

  /** What the tables hold of a kind is right, unless an announcement about it is still to arrive. */
  ghost predicate HeldFine(s: State, k: Kind) {
    forall f | KindOf(f) == k && Holds(s.tables, f) :: FactFine(s, f)
  }

  ghost predicate WayFine(s: State, k: Kind) {
    forall id | id in s.onWay && s.onWay[id].clean && KindOf(s.onWay[id].fact) == k :: Right(s.fs, s.onWay[id].fact)
  }

  ghost predicate Inv(s: State, k: Kind) { Handles(s) && HeldFine(s, k) && WayFine(s, k) }

  /** An answer of the kind is not stored after a change has touched it and the cache has dropped what it
      held about that. */
  ghost predicate Calm(s: State, e: Step, k: Kind) {
    e.Store? && e.id in s.onWay && KindOf(s.onWay[e.id].fact) == k ==>
      s.onWay[e.id].clean || About(s.onWay[e.id].fact, s.due)
  }

  lemma KeepsInv(s: State, e: Step, k: Kind)
    requires Inv(s, k) && Enabled(s, e) && Calm(s, e, k)
    ensures Inv(Apply(s, e), k)
  {
    hide Inv, Enabled, Calm;
    KeepsHandles(s, e, k);
    if e.Own? || e.Lost? || e.Others? {
      KeepsAcross(s, e, k);
    } else if e.AskBlock? || e.AskAttr? || e.AskNames? || e.Look? {
      KeepsAsked(s, e, k);
    } else {
      KeepsTables(s, e, k);
    }
    JoinInv(Apply(s, e), k);
  }

  lemma JoinInv(s: State, k: Kind)
    requires Handles(s) && HeldFine(s, k) && WayFine(s, k)
    ensures Inv(s, k)
  {}

  /** Handles stay on the files they were opened on. */
  lemma KeepsHandles(s: State, e: Step, k: Kind)
    requires Inv(s, k) && Enabled(s, e)
    ensures Handles(Apply(s, e))
  {
    hide HeldFine, WayFine, Sound, HandlesTrue, JobsTrue, Serve, Expected, Ordinary;
    var t, u := s.tables, Apply(s, e).tables;
    match e
    case Own(req, env) => OwnHandles(s, req, env);
    case Lost(req, env) => LostHandles(s, req, env);
    case Others(req, env) =>
      ServeSound(s.fs, req, env);
      HandlesAfter(s.fs, req, env, t.fh, t.jobs);
    case Arrive(path) => SamePaths(s.fs, t.fh, u.fh, t.jobs);
    case Shed(rest) => SamePaths(s.fs, t.fh, u.fh, t.jobs);
    case Queue(job) => JobQueued(s.fs, t, job);
    case Dequeue => JobDone(s.fs, t);
    case Capture(_, _, _) => SamePaths(s.fs, t.fh, u.fh, t.jobs);
    case Note(_, _) => SamePaths(s.fs, t.fh, u.fh, t.jobs);
    case _ =>
  }

  lemma JobQueued(fs: Fs, t: Tables, job: Job)
    requires Sound(fs) && HandlesTrue(fs, t.fh) && JobsTrue(fs, t.fh, t.jobs)
    requires job.fhId in t.fh && t.fh[job.fhId].path == job.path
    ensures JobsTrue(fs, t.fh, t.jobs + [job])
  {}

  lemma JobDone(fs: Fs, t: Tables)
    requires JobsTrue(fs, t.fh, t.jobs) && t.jobs != []
    ensures JobsTrue(fs, t.fh, t.jobs[1..])
  {}

  /** The handles alone, without the tables. */
  function Bare(t: Tables): Tables { Tables([], map[], map[], map[], t.fh, t.jobs) }

  lemma OwnHandles(s: State, req: Request, env: Env)
    requires Handles(s) && Expected(s.fs, s.tables.fh, req)
    ensures Handles(Apply(s, Own(req, env)))
  {
    hide Serve, Sound, HandlesTrue, JobsTrue, Expected;
    StepTrue(s.fs, req, env, Bare(s.tables));
    BareSettled(s.tables, req, Serve(s.fs, req, env).1);
  }

  lemma BareSettled(t: Tables, req: Request, reply: Reply)
    ensures Settled(Bare(t), req, reply).fh == Settled(t, req, reply).fh
    ensures Settled(Bare(t), req, reply).jobs == Settled(t, req, reply).jobs
  {
    hide Forgetting;
    BareForgetting(t, req);
  }

  lemma BareForgetting(t: Tables, req: Request)
    ensures Forgetting(Bare(t), req).fh == Forgetting(t, req).fh
    ensures Forgetting(Bare(t), req).jobs == Forgetting(t, req).jobs
  {
    hide Cleared, Moved, ParentOf, B.Purge;
  }

  lemma LostHandles(s: State, req: Request, env: Env)
    requires Handles(s) && Ordinary(s.fs, req)
    ensures Handles(Apply(s, Lost(req, env)))
  {
    hide Serve, Sound, HandlesTrue, JobsTrue, Ordinary;
    var t := s.tables;
    var u := Settled(t, req, Failed(EIO));
    SamePaths(s.fs, t.fh, u.fh, t.jobs);
    ServeSound(s.fs, req, env);
    HandlesAfter(s.fs, req, env, u.fh, t.jobs);
  }

  /** A change: what is held afterwards was held before, and is untouched or announced. */
  lemma KeepsAcross(s: State, e: Step, k: Kind)
    requires Inv(s, k) && Enabled(s, e) && (e.Own? || e.Lost? || e.Others?)
    ensures HeldFine(Apply(s, e), k) && WayFine(Apply(s, e), k)
  {
    hide Serve, Right, Touches, About, Holds, Sound, HandlesTrue, JobsTrue, Expected, Ordinary, Settled, Announcements;
    var s1 := Apply(s, e);
    forall f | KindOf(f) == k && Holds(s1.tables, f) ensures FactFine(s1, f) {
      KeepsFact(s, e, k, f);
    }
    forall id | id in s1.onWay && s1.onWay[id].clean && KindOf(s1.onWay[id].fact) == k
      ensures Right(s1.fs, s1.onWay[id].fact)
    {
      FactKept(s.fs, e.req, e.env, s.onWay[id].fact);
    }
  }

  lemma KeepsFact(s: State, e: Step, k: Kind, f: Fact)
    requires Inv(s, k) && Enabled(s, e) && (e.Own? || e.Lost? || e.Others?)
    requires KindOf(f) == k && Holds(Apply(s, e).tables, f)
    ensures FactFine(Apply(s, e), f)
  {
    hide Serve, Right, Touches, About, Sound, HandlesTrue, JobsTrue, Expected, Ordinary, Announcements, Forgetting;
    var req, env := e.req, e.env;
    if e.Own? {
      SettledForgets(s.fs, req, Serve(s.fs, req, env).1, s.tables, f);
    } else if Serve(s.fs, req, env).1.status == 0 && Touches(s.fs, req, f) {
      TouchedIsAnnounced(s.fs, req, f);
      AboutMore(f, PathsOf(s.fs, req), Apply(s, e).due);
    }
    assert Holds(s.tables, f) && FactFine(s, f);
    if Right(s.fs, f) && (Serve(s.fs, req, env).1.status == 0 ==> !Touches(s.fs, req, f)) {
      FactKept(s.fs, req, env, f);
    } else if About(f, s.due) {
      AboutMore(f, s.due, Apply(s, e).due);
    }
  }

  lemma AboutMore(f: Fact, a: set<string>, b: set<string>)
    requires About(f, a) && a <= b
    ensures About(f, b)
  {
    hide ParentOf;
  }

  lemma AboutLess(f: Fact, a: set<string>, path: string)
    requires About(f, a) && !About(f, {path})
    ensures About(f, a - {path})
  {
    hide ParentOf;
    if f.Children? && f.path !in a {
      var p :| p in a && ParentOf(p) == f.path;
      assert p != path;
      assert p in a - {path};
    }
  }

  /** What the server tells is right when it tells it. */
  lemma KeepsAsked(s: State, e: Step, k: Kind)
    requires Inv(s, k) && Enabled(s, e) && (e.AskBlock? || e.AskAttr? || e.AskNames? || e.Look?)
    ensures HeldFine(Apply(s, e), k) && WayFine(Apply(s, e), k)
  {
    hide Serve, Sound, HandlesTrue, JobsTrue, Right, Holds, About;
    var s1 := Apply(s, e);
    assert s1.fs == s.fs && s1.tables == s.tables && s1.due == s.due;
    forall f | KindOf(f) == k && Holds(s1.tables, f) ensures FactFine(s1, f) {
      assert FactFine(s, f);
    }
    if s1 != s && s1.onWay[e.id].clean && KindOf(s1.onWay[e.id].fact) == k {
      AskedRight(s, e, k);
    }
  }

  lemma AskedRight(s: State, e: Step, k: Kind)
    requires Inv(s, k) && Enabled(s, e) && (e.AskBlock? || e.AskAttr? || e.AskNames? || e.Look?)
    requires Apply(s, e) != s && Apply(s, e).onWay[e.id].clean && KindOf(Apply(s, e).onWay[e.id].fact) == k
    ensures Right(s.fs, Apply(s, e).onWay[e.id].fact)
  {
    hide Serve, Sound, HandlesTrue, JobsTrue, BlockTrue, AttrTrue, NamesAre;
    match e
    case AskBlock(id, h, idx, v, env) => BlockRight(s, h, idx, v, env);
    case AskAttr(id, path, env) => PlainAttr(s.fs, path, env);
    case AskNames(id, path, env) => PlainListing(s.fs, path, env);
    case Look(id, path) =>
      var f := Attribs(path, s.tables.meta[path].attr);
      assert Holds(s.tables, f) && FactFine(s, f);
  }

  /** What a fetch returns is the block it was for. */
  lemma BlockRight(s: State, h: nat, idx: nat, v: B.Version, env: Env)
    requires Handles(s) && h in s.tables.fh
    ensures var reply := Serve(s.fs, Read(h, idx * BLOCK % TWO64, BLOCK), env).1;
            reply.status == 0 ==>
              reply.body.Content? && BlockTrue(s.fs, FetchedEntry(s.tables.fh[h].path, idx, v, reply.body.data))
  {
    hide Serve, BlockTrue, Slice;
    KnownHandle(s.fs, s.tables.fh, h);
    PlainRead(s.fs, h, idx * BLOCK % TWO64, BLOCK, env);
    var reply := Serve(s.fs, Read(h, idx * BLOCK % TWO64, BLOCK), env).1;
    if reply.status == 0 {
      FetchedBlock(s.fs, h, s.tables.fh[h].path, idx, FetchedEntry(s.tables.fh[h].path, idx, v, reply.body.data));
    }
  }

  lemma KeepsTables(s: State, e: Step, k: Kind)
    requires Inv(s, k) && Enabled(s, e) && Calm(s, e, k)
    requires !e.Own? && !e.Lost? && !e.Others? && !e.AskBlock? && !e.AskAttr? && !e.AskNames? && !e.Look?
    ensures HeldFine(Apply(s, e), k) && WayFine(Apply(s, e), k)
  {
    hide Right, Sound, HandlesTrue, JobsTrue, Stored, Announced, About, Holds;
    var s1 := Apply(s, e);
    assert s1.fs == s.fs;
    forall f | KindOf(f) == k && Holds(s1.tables, f) ensures FactFine(s1, f) {
      if e.Store? {
        StoredHolds(s.tables, s.onWay[e.id].fact, e.now, e.budget, f);
      } else if e.Arrive? {
        AnnouncedDrops(s.tables, e.path, f);
        assert FactFine(s, f);
        if About(f, s.due) {
          AboutLess(f, s.due, e.path);
        }
      } else {
        StillHeld(s, e, f);
      }
      assert Holds(s.tables, f) ==> FactFine(s, f);
    }
  }

  lemma StillHeld(s: State, e: Step, f: Fact)
    requires Enabled(s, e) && (e.Shed? || e.Capture? || e.Drop? || e.Note? || e.Queue? || e.Dequeue?)
    requires Holds(Apply(s, e).tables, f)
    ensures Holds(s.tables, f)
  {}

  // ---- every run -----------------------------------------------------------------------

  ghost predicate Schedule(s: State, es: seq<Step>)
    decreases |es|
  {
    es == [] || (Enabled(s, es[0]) && Schedule(Apply(s, es[0]), es[1..]))
  }

  ghost function After(s: State, es: seq<Step>): State
    requires Schedule(s, es)
    decreases |es|
  {
    if es == [] then s else After(Apply(s, es[0]), es[1..])
  }

  /** No answer of the kind is stored disturbed. */
  ghost predicate AllCalm(s: State, es: seq<Step>, k: Kind)
    requires Schedule(s, es)
    decreases |es|
  {
    es == [] || (Calm(s, es[0], k) && AllCalm(Apply(s, es[0]), es[1..], k))
  }

  lemma {:induction false} Run(s: State, es: seq<Step>, k: Kind)
    requires Inv(s, k) && Schedule(s, es) && AllCalm(s, es, k)
    ensures Inv(After(s, es), k)
    decreases |es|
  {
    hide Inv, Enabled, Apply, Calm;
    if es != [] {
      KeepsInv(s, es[0], k);
      Run(Apply(s, es[0]), es[1..], k);
    }
  }

  ghost function Start(fs: Fs): State { State(fs, Tables([], map[], map[], map[], map[], []), map[], {}) }

  lemma StartInv(fs: Fs, k: Kind)
    requires Sound(fs)
    ensures Inv(Start(fs), k)
  {
    forall f | Holds(Start(fs).tables, f) ensures false {}
  }

  /** After any run from an empty cache over any filesystem, in which no answer of a kind is stored
      disturbed, whatever the cache holds of that kind is right: a block is the current block of its file,
      attributes of a file are its attributes, a path held as missing is missing, and a held listing names
      exactly what is there; unless an announcement about its path has yet to arrive. */
  lemma Coherence(fs: Fs, es: seq<Step>, k: Kind)
    requires Sound(fs) && Schedule(Start(fs), es) && AllCalm(Start(fs), es, k)
    ensures var s := After(Start(fs), es);
            var now, t := s.fs, s.tables;
            match k
            case Blocks =>
              forall e | e in t.blocks && e.key.path !in s.due && e.key.idx < BLOCKS ::
                IsFile(now, e.key.path) && e.data == BlockOf(now.tree[e.key.path].data, e.key.idx)
            case Attrs =>
              && (forall p | p in t.meta && p !in s.due && IsFile(now, p) :: t.meta[p].attr == AttrOf(now.tree[p]))
              && (forall p | p in t.meta && p !in s.due :: p in now.tree)
              && (forall p | p in t.neg && p !in s.due :: p !in now.tree)
            case Lists =>
              forall d | d in t.dir && d !in s.due && (forall p | p in s.due :: ParentOf(p) != d) ::
                IsDir(now, d) && NamesAre(now, d, t.dir[d].names)
  {
    StartInv(fs, k);
    Run(Start(fs), es, k);
    var s := After(Start(fs), es);
    hide Schedule, After, AllCalm, Sound, HandlesTrue, JobsTrue, NamesAre, BlockOf, ParentOf;
    match k
    case Blocks =>
      forall e | e in s.tables.blocks && e.key.path !in s.due ensures BlockTrue(s.fs, e) {
        assert Holds(s.tables, Block(e)) && FactFine(s, Block(e));
      }
    case Attrs =>
      forall p | p in s.tables.meta && p !in s.due ensures AttrTrue(s.fs, p, s.tables.meta[p].attr) {
        var f := Attribs(p, s.tables.meta[p].attr);
        assert Holds(s.tables, f) && FactFine(s, f);
      }
      forall p | p in s.tables.neg && p !in s.due ensures p !in s.fs.tree {
        assert Holds(s.tables, Absence(p)) && FactFine(s, Absence(p));
      }
    case Lists =>
      forall d | d in s.tables.dir && d !in s.due && forall p | p in s.due :: ParentOf(p) != d
        ensures IsDir(s.fs, d) && NamesAre(s.fs, d, s.tables.dir[d].names)
      {
        var f := Children(d, s.tables.dir[d].names);
        assert Holds(s.tables, f) && FactFine(s, f);
      }
  }
}
