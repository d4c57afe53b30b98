/** The RAM cache in front of a remote filesystem (client/src/fs/ram_cache.cpp): whatever it answers
    from its tables is what the filesystem would answer. */
module RamCache {
  import opened Words
  import opened RemoteFs
  import B = BlockStore

  const BLOCK: nat := MAX_IO
  const BLOCKS: nat := 0x1000_0000_0000   // 64-bit offsets have fewer than 2^44 blocks
  const META_TTL: int := 2000
  const DIR_TTL: int := 5000
  const NEG_TTL: int := 1000
  const META_MAX: nat := 8192
  const DIR_MAX: nat := 1024
  const NEG_MAX: nat := 4096
  const MAX_READ_AHEAD: nat := 32
  const PREFETCH_QUEUE_MAX: nat := 512

  datatype MetaEntry = MetaEntry(attr: Attr, at: int)
  datatype DirEntry = DirEntry(names: Names, at: int)
  datatype FhInfo = FhInfo(path: string, haveVer: bool, verAt: int, size: nat, mtime: int,
                           lastEnd: nat, seqRun: u32, raWindow: nat)
  datatype Job = Job(path: string, fhId: nat, size: nat, mtime: int, idx: nat)

  // ---- what it means for a table to be true of the filesystem --------------------

  function BlockOf(data: bytes, idx: nat): bytes { Slice(data, idx * BLOCK, BLOCK) }

  /** A stored block is the current block of its file. Blocks past the last 64-bit offset are
      never asked for: the offset computed for one wraps around. */
  ghost predicate BlockTrue(fs: Fs, e: B.Entry) {
    e.key.idx < BLOCKS ==>
      && IsFile(fs, e.key.path)
      && e.data == BlockOf(fs.tree[e.key.path].data, e.key.idx)
      && e.eof == (|e.data| < BLOCK)
  }

  ghost predicate BlocksTrue(fs: Fs, es: seq<B.Entry>) { forall e | e in es :: BlockTrue(fs, e) }

  ghost predicate AttrTrue(fs: Fs, p: string, a: Attr) {
    p in fs.tree && (a.isDir <==> IsDir(fs, p)) && (IsFile(fs, p) ==> a == AttrOf(fs.tree[p]))
  }

  ghost predicate MetaTrue(fs: Fs, meta: map<string, MetaEntry>) {
    forall p | p in meta :: AttrTrue(fs, p, meta[p].attr)
  }

  ghost predicate NegTrue(fs: Fs, neg: map<string, int>) { forall p | p in neg :: p !in fs.tree }

  ghost predicate DirsTrue(fs: Fs, dir: map<string, DirEntry>) {
    forall d | d in dir :: IsDir(fs, d) && NamesAre(fs, d, dir[d].names)
  }

  ghost predicate HandlesTrue(fs: Fs, fh: map<nat, FhInfo>) {
    forall h | h in fh :: h in fs.open && fs.open[h] == fh[h].path
  }

  ghost predicate JobTrue(fs: Fs, fh: map<nat, FhInfo>, j: Job) {
    j.fhId < fs.nextFh && (j.fhId in fh ==> fh[j.fhId].path == j.path)
  }

  ghost predicate JobsTrue(fs: Fs, fh: map<nat, FhInfo>, jobs: seq<Job>) {
    forall j | j in jobs :: JobTrue(fs, fh, j)
  }

  /** All a cache knows. */
  datatype Tables = Tables(blocks: seq<B.Entry>, meta: map<string, MetaEntry>, neg: map<string, int>,
                           dir: map<string, DirEntry>, fh: map<nat, FhInfo>, jobs: seq<Job>)

  ghost predicate True(fs: Fs, t: Tables) {
    && BlocksTrue(fs, t.blocks)
    && MetaTrue(fs, t.meta) && NegTrue(fs, t.neg) && DirsTrue(fs, t.dir)
    && HandlesTrue(fs, t.fh) && JobsTrue(fs, t.fh, t.jobs)
  }

  /** Nothing new, perhaps less. */
  ghost predicate Thinner(t: Tables, u: Tables) {
    && (forall e | e in u.blocks :: e in t.blocks)
    && (forall p | p in u.meta :: p in t.meta && u.meta[p] == t.meta[p])
    && (forall p | p in u.neg :: p in t.neg)
    && (forall d | d in u.dir :: d in t.dir && u.dir[d] == t.dir[d])
    && (forall h | h in u.fh :: h in t.fh && u.fh[h].path == t.fh[h].path)
    && u.jobs == t.jobs
  }

  /** What has to be gone once a request has succeeded. */
  ghost predicate Forgotten(fs: Fs, req: Request, u: Tables) {
    && (forall e | e in u.blocks && e.key.path in ContentPaths(fs, req) :: !IsFile(fs, e.key.path))
    && u.meta.Keys !! NodePaths(fs, req) && u.neg.Keys !! NodePaths(fs, req)
    && (forall d | d in u.dir && d in NameDirs(req) :: !IsDir(fs, d))
    && (req.Release? ==> req.fh !in u.fh)
  }

  /** Forgetting that much keeps the rest true across any request. */
  lemma TruthKept(fs: Fs, req: Request, env: Env, t: Tables, u: Tables)
    requires Sound(fs) && Ordinary(fs, req) && True(fs, t) && Thinner(t, u)
    requires Serve(fs, req, env).1.status == 0 ==> Forgotten(fs, req, u)
    ensures True(Serve(fs, req, env).0, u)
  {
    hide Serve, Framed, BlocksTrue, MetaTrue, NegTrue, DirsTrue, HandlesTrue, JobsTrue;
    ThinnerTrue(fs, t, u);
    ServeFrame(fs, req, env);
    if Serve(fs, req, env).1.status == 0 {
      var after := Serve(fs, req, env).0;
      var content, nodes, dirs := ContentPaths(fs, req), NodePaths(fs, req), NameDirs(req);
      BlocksAfter(fs, after, content, nodes, dirs, u.blocks);
      MetaAfter(fs, after, content, nodes, dirs, u.meta, u.neg);
      DirsAfter(fs, after, content, nodes, dirs, u.dir);
      HandlesAfter(fs, req, env, u.fh, u.jobs);
    }
  }

  lemma ThinnerTrue(fs: Fs, t: Tables, u: Tables)
    requires True(fs, t) && Thinner(t, u)
    ensures True(fs, u)
  {
    hide BlockTrue, AttrTrue, NamesAre;
    forall j | j in u.jobs ensures JobTrue(fs, u.fh, j) {
      assert JobTrue(fs, t.fh, j);
    }
  }

  lemma HandlesAfter(fs: Fs, req: Request, env: Env, fh: map<nat, FhInfo>, jobs: seq<Job>)
    requires Sound(fs) && Ordinary(fs, req) && HandlesTrue(fs, fh) && JobsTrue(fs, fh, jobs)
    requires req.Release? ==> req.fh !in fh
    ensures HandlesTrue(Serve(fs, req, env).0, fh) && JobsTrue(Serve(fs, req, env).0, fh, jobs)
  {
    hide Serve;
    ServeSound(fs, req, env);
    forall j | j in jobs ensures JobTrue(Serve(fs, req, env).0, fh, j) {
      assert JobTrue(fs, fh, j);
    }
  }

  // ---- tables across a change of the filesystem -----------------------------------

  lemma BlocksAfter(fs: Fs, after: Fs, content: set<string>, nodes: set<string>, dirs: set<string>, es: seq<B.Entry>)
    requires Framed(fs, after, content, nodes, dirs) && BlocksTrue(fs, es)
    requires forall e | e in es && e.key.path in content :: !IsFile(fs, e.key.path)
    ensures BlocksTrue(after, es)
  {
    hide KeepsNode, KeepsNames, BlockOf;
    forall e | e in es ensures BlockTrue(after, e) {
      assert BlockTrue(fs, e);
      if e.key.idx < BLOCKS {
        assert KeepsFile(fs, after, e.key.path);
      }
    }
  }

  lemma MetaAfter(fs: Fs, after: Fs, content: set<string>, nodes: set<string>, dirs: set<string>,
                  meta: map<string, MetaEntry>, neg: map<string, int>)
    requires Framed(fs, after, content, nodes, dirs) && MetaTrue(fs, meta) && NegTrue(fs, neg)
    requires meta.Keys !! nodes && neg.Keys !! nodes
    ensures MetaTrue(after, meta) && NegTrue(after, neg)
  {
    hide KeepsFile, KeepsNames;
    forall p | p in meta ensures AttrTrue(after, p, meta[p].attr) {
      assert p !in nodes && KeepsNode(fs, after, p) && AttrTrue(fs, p, meta[p].attr);
    }
    forall p | p in neg ensures p !in after.tree {
      assert p !in nodes && KeepsNode(fs, after, p);
    }
  }

  lemma DirsAfter(fs: Fs, after: Fs, content: set<string>, nodes: set<string>, dirs: set<string>,
                  dir: map<string, DirEntry>)
    requires Framed(fs, after, content, nodes, dirs) && DirsTrue(fs, dir)
    requires forall d | d in dir && d in dirs :: !IsDir(fs, d)
    ensures DirsTrue(after, dir)
  {
    hide KeepsFile, KeepsNode;
    forall d | d in dir ensures IsDir(after, d) && NamesAre(after, d, dir[d].names) {
      assert d !in dirs && KeepsNames(fs, after, d);
      NamesKept(fs, after, d, dir[d].names);
    }
  }

  lemma NamesKept(fs: Fs, after: Fs, d: string, l: Names)
    requires KeepsNames(fs, after, d) && NamesAre(fs, d, l)
    ensures NamesAre(after, d, l)
  {
    hide Named, Join;
    forall p | p in after.tree && Child(after, d, p) ensures Named(d, l, p) {
      assert Child(fs, d, p);
    }
  }

  // ---- requests the theorem is about ------------------------------------------------

  /** What the cache relies on: requests go through handles it has seen opened, UNLINK is for files
      and RMDIR for directories, and a read ends within 64-bit offsets. */
  ghost predicate Expected(fs: Fs, fh: map<nat, FhInfo>, req: Request) {
    && Ordinary(fs, req)
    && match req
       case Read(h, off, size) => off + size < TWO64 && size < TWO32
       case Write(h, _, _) => h in fs.open ==> h in fh
       case Unlink(p) => !IsDir(fs, p)
       case Rmdir(p) => !IsFile(fs, p)
       case _ => true
  }

  /** The answer to a read through the block cache: as far as the file has the bytes. A plain answer
      stops at 1 MiB. */
  ghost predicate ReadAnswer(fs: Fs, h: nat, off: nat, size: nat, d: bytes) {
    && h in fs.open && IsFile(fs, fs.open[h])
    && var data := fs.tree[fs.open[h]].data;
       d == Slice(data, off, size) || d == Slice(data, off, Min(size, MAX_IO))
  }

  /** What a request through the cache may answer. */
  ghost predicate Answered(fs: Fs, req: Request, env: Env, reply: Reply, after: Fs) {
    match req
    case GetAttr(p) =>
      && after == fs
      && (reply.status == 0 ==> reply.body.Attributes? && AttrTrue(fs, p, reply.body.attr))
      && (reply.status == ENOENT ==> p !in fs.tree)
    case ReadDir(p) =>
      && after == fs
      && (reply.status == 0 ==> reply.body.Listing? && IsDir(fs, p) && NamesAre(fs, p, reply.body.names))
    case Read(h, off, size) =>
      && after == fs
      && (reply.status == 0 ==> reply.body.Content? && ReadAnswer(fs, h, off, size, reply.body.data))
    case _ => (after, reply) == Serve(fs, req, env)
  }

  /** A successful answer is the plain one, whatever the order of the directory or the time: for reads
      of up to 1 MiB and for attributes of anything but directories. */
  lemma CachedIsPlain(fs: Fs, req: Request, env: Env, reply: Reply, plain: Env)
    requires Answered(fs, req, env, reply, fs) && !Faulty(plain)
    requires match req
             case Read(_, _, size) => reply.status == 0 && size <= MAX_IO
             case GetAttr(p) =>
               reply.status == ENOENT || (reply.status == 0 && reply.body.Attributes? && !reply.body.attr.isDir)
             case _ => false
    ensures Serve(fs, req, plain).0 == fs && Serve(fs, req, plain).1.status == reply.status
    ensures reply.status == 0 ==> Serve(fs, req, plain).1 == reply
  {
    if req.Read? {
      assert Min(req.size, MAX_IO) == req.size;
    }
  }

  /** Both answers are the same exactly when the request or the rest of the file is within 1 MiB. */
  lemma AnswersAgree(data: bytes, off: nat, size: nat)
    ensures Slice(data, off, size) == Slice(data, off, Min(size, MAX_IO))
       <==> size <= MAX_IO || |data| <= off + MAX_IO
  {
    if size <= MAX_IO {
      assert Min(size, MAX_IO) == size;
    } else if |data| > off {
      SliceLength(data, off, size);
      SliceLength(data, off, MAX_IO);
      if |data| <= off + MAX_IO {
        assert Slice(data, off, size) == data[off..|data|] && Slice(data, off, MAX_IO) == data[off..|data|];
      }
    }
  }

  /** A file of zeros, one byte longer than 1 MiB, asked for as a whole. */
  lemma LongRead()
    ensures Slice(Zeros(MAX_IO + 1), 0, MAX_IO + 1) != Slice(Zeros(MAX_IO + 1), 0, Min(MAX_IO + 1, MAX_IO))
  {
    hide Slice;
    AnswersAgree(Zeros(MAX_IO + 1), 0, MAX_IO + 1);
  }

  lemma SliceLength(data: bytes, off: nat, size: nat)
    ensures |Slice(data, off, size)| == if off >= |data| then 0 else if off + size <= |data| then size else |data| - off
  {}

  // ---- reading block by block ---------------------------------------------------------

  /** One turn of the read loop at `cur`: the piece it takes continues the bytes read so far, and
      when it takes nothing, or the block ends early, the file has no more. */
  lemma Piece(data: bytes, cur: nat, end: nat)
    requires cur < end
    ensures var blk, boff := BlockOf(data, cur / BLOCK), cur % BLOCK;
            if boff >= |blk| then cur >= |data|
            else
              var take := Min(end - cur, |blk| - boff);
              && 0 < take && cur + take <= |data| && cur + take <= end
              && blk[boff..boff + take] == data[cur..cur + take]
              && (boff + take >= |blk| && |blk| < BLOCK ==> cur + take == |data|)
  {
    var idx, boff := cur / BLOCK, cur % BLOCK;
    assert cur == idx * BLOCK + boff;
    var lo := idx * BLOCK;
    BlockSpans(data, idx, lo);
    hide BlockOf;
    if lo < |data| {
      var hi := Min(lo + BLOCK, |data|);
      var blk := data[lo..hi];
      if boff < |blk| {
        var take := Min(end - cur, |blk| - boff);
        SliceOfSlice(data, lo, hi, boff, boff + take);
        assert lo + (boff + take) == cur + take;
      }
    }
  }

  lemma SliceOfSlice(data: bytes, lo: nat, hi: nat, a: nat, b: nat)
    requires lo <= hi <= |data| && a <= b <= hi - lo
    ensures data[lo..hi][a..b] == data[lo + a..lo + b]
  {
    var s, x, y := data[lo..hi], data[lo..hi][a..b], data[lo + a..lo + b];
    assert |x| == b - a == |y|;
    forall k | 0 <= k < b - a ensures x[k] == y[k] {
      assert x[k] == s[a + k] && s[a + k] == data[lo + (a + k)];
    }
  }

  lemma BlockSpans(data: bytes, idx: nat, lo: nat)
    requires lo == idx * BLOCK
    ensures BlockOf(data, idx) == if lo >= |data| then [] else data[lo..Min(lo + BLOCK, |data|)]
  {}

  lemma BlockInRange(cur: nat)
    requires cur < TWO64
    ensures cur / BLOCK < BLOCKS && cur / BLOCK * BLOCK < TWO64
  {}

  // ---- the cache ------------------------------------------------------------------------

  /** Sheds entries, in whatever order the table holds them, down to a target count. */
  method Trim<V>(m: map<string, V>, target: nat) returns (r: map<string, V>)
    ensures forall k | k in r :: k in m && r[k] == m[k]
    ensures |r| == Min(|m|, target)
  {
    r := m;
    while |r| > target
      invariant forall k | k in r :: k in m && r[k] == m[k]
      invariant |r| <= |m| && |r| >= Min(|m|, target)
    {
      assert r.Keys != {};
      var k :| k in r.Keys;
      RemoveOne(r, k);
      r := r - {k};
    }
  }

  lemma RemoveOne<V>(m: map<string, V>, k: string)
    requires k in m
    ensures |m - {k}| == |m| - 1
  {
    assert (m - {k}).Keys == m.Keys - {k};
  }

  lemma AddOne<V>(m: map<string, V>, k: string, v: V)
    ensures |m| <= |m[k := v]| <= |m| + 1
  {
    assert m[k := v].Keys == m.Keys + {k};
  }

  lemma DropSome<V>(m: map<string, V>, k: string)
    ensures |m - {k}| <= |m|
  {
    if k in m {
      RemoveOne(m, k);
    } else {
      assert m - {k} == m;
    }
  }

  /** Handles of a path lose their captured version. */
  function Cleared(fh: map<nat, FhInfo>, path: string): map<nat, FhInfo> {
    map h | h in fh :: if fh[h].path == path then fh[h].(haveVer := false) else fh[h]
  }

  /** A file's attributes, absence, captured versions and blocks dropped from the tables. */
  function Invalidated(t: Tables, path: string): Tables {
    Tables(B.Purge(t.blocks, path), t.meta - {path}, t.neg - {path}, t.dir, Cleared(t.fh, path), t.jobs)
  }

  lemma ThinnerStill(t: Tables, u: Tables, v: Tables)
    requires Thinner(t, u) && Thinner(u, v)
    ensures Thinner(t, v)
  {}

  function Moved(fh: map<nat, FhInfo>, from: string, to: string): map<nat, FhInfo> {
    map h | h in fh :: if fh[h].path == from then fh[h].(path := to, haveVer := false) else fh[h]
  }

  function WithoutMeta(t: Tables, path: string): Tables {
    t.(meta := t.meta - {path}, neg := t.neg - {path})
  }

  function WithoutDirs(t: Tables, dirs: set<string>): Tables { t.(dir := t.dir - dirs) }

  /** The tables after a successful request, as each handler leaves them. */
  function Forgetting(t: Tables, req: Request): Tables {
    match req
    case Create(p, _, _) => WithoutDirs(Invalidated(t, p), {ParentOf(p)})
    case Write(h, _, _) => if h in t.fh then Invalidated(t, t.fh[h].path) else t
    case Truncate(p, _) => Invalidated(t, p)
    case Unlink(p) => WithoutDirs(Invalidated(t, p), {ParentOf(p)})
    case Rmdir(p) => WithoutDirs(WithoutMeta(t, p), {p, ParentOf(p)})
    case Mkdir(p, _) => WithoutDirs(WithoutMeta(t, p), {ParentOf(p)})
    case Rename(from, to) =>
      var u := WithoutDirs(Invalidated(Invalidated(t, from), to), {from, to, ParentOf(from), ParentOf(to)});
      u.(fh := Moved(u.fh, from, to))
    case Chmod(p, _) => WithoutMeta(t, p)
    case Utimens(p, _) => WithoutMeta(t, p)
    case _ => t
  }

  /** The tables after a request with this answer. */
  function Settled(t: Tables, req: Request, reply: Reply): Tables {
    var u := if reply.status == 0 then Forgetting(t, req) else t;
    if reply.status == 0 && reply.body.Handle? && (req.Open? || req.Create?) then
      u.(fh := u.fh[reply.body.fh := FhInfo(req.path, false, 0, 0, 0, 0, 0, 0)])
    else if req.Release? then u.(fh := u.fh - {req.fh})
    else u
  }

  function Announced(t: Tables, path: string): Tables {
    WithoutDirs(Invalidated(t, path), {path, ParentOf(path)})
  }

  function AnnouncedAll(t: Tables, paths: seq<string>): Tables
    decreases |paths|
  {
    if paths == [] then t else AnnouncedAll(Announced(t, paths[0]), paths[1..])
  }

  /** The paths the server broadcasts when a request succeeds. */
  function Announcements(fs: Fs, req: Request): seq<string> {
    match req
    case Create(p, _, _) => [p]
    case Write(h, _, _) => if h in fs.open then [fs.open[h]] else []
    case Truncate(p, _) => [p]
    case Unlink(p) => [p]
    case Rmdir(p) => [p]
    case Mkdir(p, _) => [p]
    case Rename(from, to) => [from, to]
    case Chmod(p, _) => [p]
    case Utimens(p, _) => [p]
    case _ => []
  }

  /** The announcements of a request make every other client's cache forget enough. */
  lemma AnnouncedEnough(fs: Fs, req: Request, t: Tables)
    requires req.Release? ==> req.fh !in t.fh
    ensures var u := AnnouncedAll(t, Announcements(fs, req));
            Thinner(t, u) && Forgotten(fs, req, u)
  {
    hide Thinner, Announced, ParentOf, Forgotten;
    var paths := Announcements(fs, req);
    if req.Rename? {
      RenameAnnounced(fs, req, t);
    } else if paths == [] {
      ThinnerSelf(t);
      NothingToForget(fs, req, t);
    } else {
      assert paths[1..] == [];
      assert AnnouncedAll(t, paths) == Announced(t, paths[0]);
      PathAnnounced(fs, req, t, paths[0]);
    }
  }

  lemma NothingToForget(fs: Fs, req: Request, t: Tables)
    requires Announcements(fs, req) == [] && (req.Release? ==> req.fh !in t.fh)
    ensures Forgotten(fs, req, t)
  {}

  lemma PathAnnounced(fs: Fs, req: Request, t: Tables, path: string)
    requires Announcements(fs, req) == [path]
    ensures Thinner(t, Announced(t, path)) && Forgotten(fs, req, Announced(t, path))
  {
    hide Thinner, Announced, ParentOf;
    AnnouncedGone(t, path);
  }

  lemma RenameAnnounced(fs: Fs, req: Request, t: Tables)
    requires req.Rename?
    ensures var u := AnnouncedAll(t, Announcements(fs, req));
            Thinner(t, u) && Forgotten(fs, req, u)
  {
    hide Thinner, Announced, ParentOf;
    var u := Announced(t, req.from);
    var v := Announced(u, req.to);
    AnnouncedGone(t, req.from);
    AnnouncedGone(u, req.to);
    AnnouncedStill(u, req.to, req.from);
    ThinnerStill(t, u, v);
    assert AnnouncedAll(t, [req.from, req.to]) == v by {
      assert [req.from, req.to][1..] == [req.to] && [req.to][1..] == [];
      assert AnnouncedAll(u, [req.to]) == v;
    }
  }

  lemma AnnouncedGone(t: Tables, path: string)
    ensures var u := Announced(t, path);
            && Thinner(t, u)
            && (forall e | e in u.blocks :: e.key.path != path)
            && path !in u.meta && path !in u.neg && path !in u.dir && ParentOf(path) !in u.dir
  {
    hide ParentOf;
    B.PurgeMembers(t.blocks, path);
  }

  lemma AnnouncedStill(t: Tables, path: string, gone: string)
    requires (forall e | e in t.blocks :: e.key.path != gone) && gone !in t.meta && gone !in t.neg
    requires gone !in t.dir && ParentOf(gone) !in t.dir
    ensures var u := Announced(t, path);
            && (forall e | e in u.blocks :: e.key.path != gone) && gone !in u.meta && gone !in u.neg
            && gone !in u.dir && ParentOf(gone) !in u.dir
  {
    hide ParentOf;
    B.PurgeMembers(t.blocks, path);
  }

  /** Each handler forgets enough: whatever the request did, the tables left are true of the
      filesystem after it. */
  lemma StepTrue(fs: Fs, req: Request, env: Env, t: Tables)
    requires Sound(fs) && True(fs, t) && Expected(fs, t.fh, req)
    ensures Sound(Serve(fs, req, env).0) && True(Serve(fs, req, env).0, Settled(t, req, Serve(fs, req, env).1))
  {
    hide Serve, Sound, Forgetting, Thinner, Forgotten, BlocksTrue, MetaTrue, NegTrue, DirsTrue, HandlesTrue, JobsTrue;
    ServeSound(fs, req, env);
    if req.Release? {
      ReleasedThinner(fs, t, req.fh);
      TruthKept(fs, req, env, t, t.(fh := t.fh - {req.fh}));
      ForgettingNothing(t, req);
    } else if Serve(fs, req, env).1.status == 0 {
      ForgettingEnough(fs, req, t);
      TruthKept(fs, req, env, t, Forgetting(t, req));
      ThinnerTrue(fs, t, Forgetting(t, req));
      if req.Open? || req.Create? {
        NewHandle(fs, req, env, Forgetting(t, req));
      }
    } else {
      ThinnerSelf(t);
      TruthKept(fs, req, env, t, t);
    }
  }

  lemma ForgettingNothing(t: Tables, req: Request)
    requires req.Release?
    ensures Forgetting(t, req) == t
  {}

  lemma ThinnerSelf(t: Tables)
    ensures Thinner(t, t)
  {}

  lemma ReleasedThinner(fs: Fs, t: Tables, h: nat)
    ensures Thinner(t, t.(fh := t.fh - {h})) && Forgotten(fs, Release(h), t.(fh := t.fh - {h}))
  {}

  /** What every handler drops is nothing but what it has to, and all of that. */
  lemma ForgettingEnough(fs: Fs, req: Request, t: Tables)
    requires Sound(fs) && HandlesTrue(fs, t.fh) && Expected(fs, t.fh, req) && !req.Release?
    ensures Thinner(t, Forgetting(t, req)) && Forgotten(fs, req, Forgetting(t, req))
  {
    hide Invalidated, ParentOf, Moved, Thinner, HandlesTrue, Forgetting, Forgotten;
    match req {
      case Create(p, _, _) => FileForgets(fs, t, req, p);
      case Truncate(p, _) => FileForgets(fs, t, req, p);
      case Unlink(p) => FileForgets(fs, t, req, p);
      case Write(h, _, _) => WriteForgets(fs, t, req);
      case Rename(from, to) => RenameForgets(fs, t, from, to);
      case _ => NodeForgets(fs, t, req);
    }
  }

  lemma FileForgets(fs: Fs, t: Tables, req: Request, p: string)
    requires Expected(fs, t.fh, req)
    requires (req.Create? || req.Truncate? || req.Unlink?) && req.path == p
    ensures Thinner(t, Forgetting(t, req)) && Forgotten(fs, req, Forgetting(t, req))
  {
    hide Invalidated, ParentOf, Thinner;
    InvalidatedGone(t, p);
    DirsThinner(t, Invalidated(t, p), {ParentOf(p)});
  }

  lemma WriteForgets(fs: Fs, t: Tables, req: Request)
    requires HandlesTrue(fs, t.fh) && Expected(fs, t.fh, req) && req.Write?
    ensures Thinner(t, Forgetting(t, req)) && Forgotten(fs, req, Forgetting(t, req))
  {
    hide Invalidated, Thinner;
    if req.fh in t.fh {
      InvalidatedGone(t, t.fh[req.fh].path);
    } else {
      ThinnerSelf(t);
    }
  }

  /** The requests after which no block has to go. */
  lemma NodeForgets(fs: Fs, t: Tables, req: Request)
    requires Expected(fs, t.fh, req)
    requires !req.Create? && !req.Truncate? && !req.Unlink? && !req.Write? && !req.Rename? && !req.Release?
    ensures Thinner(t, Forgetting(t, req)) && Forgotten(fs, req, Forgetting(t, req))
  {
    hide ParentOf, Thinner;
    if req.Rmdir? || req.Mkdir? || req.Chmod? || req.Utimens? {
      MetaThinner(t, req.path);
      DirsThinner(t, WithoutMeta(t, req.path), {req.path, ParentOf(req.path)});
      DirsThinner(t, WithoutMeta(t, req.path), {ParentOf(req.path)});
    } else {
      ThinnerSelf(t);
    }
  }

  lemma RenameForgets(fs: Fs, t: Tables, from: string, to: string)
    requires HandlesTrue(fs, t.fh) && !Opened(fs, from)
    ensures var req := Rename(from, to);
            Thinner(t, Forgetting(t, req)) && Forgotten(fs, req, Forgetting(t, req))
  {
    hide Invalidated, ParentOf, Moved, Thinner, HandlesTrue;
    InvalidatedGone(t, from);
    var u := Invalidated(t, from);
    InvalidatedGone(u, to);
    var v := Invalidated(u, to);
    ThinnerStill(t, u, v);
    InvalidatedStill(u, to, from);
    var dirs := {from, to, ParentOf(from), ParentOf(to)};
    DirsThinner(t, v, dirs);
    NoneMoved(fs, t, WithoutDirs(v, dirs), from, to);
    assert Forgetting(t, Rename(from, to)) == WithoutDirs(v, dirs);
  }

  lemma InvalidatedGone(t: Tables, path: string)
    ensures var u := Invalidated(t, path);
            && Thinner(t, u) && u.dir == t.dir
            && (forall e | e in u.blocks :: e.key.path != path)
            && path !in u.meta && path !in u.neg
  {
    B.PurgeMembers(t.blocks, path);
  }

  lemma InvalidatedStill(t: Tables, path: string, gone: string)
    requires (forall e | e in t.blocks :: e.key.path != gone) && gone !in t.meta && gone !in t.neg
    ensures var u := Invalidated(t, path);
            (forall e | e in u.blocks :: e.key.path != gone) && gone !in u.meta && gone !in u.neg
  {
    B.PurgeMembers(t.blocks, path);
  }

  lemma DirsThinner(t: Tables, u: Tables, dirs: set<string>)
    requires Thinner(t, u)
    ensures Thinner(t, WithoutDirs(u, dirs)) && WithoutDirs(u, dirs).dir.Keys !! dirs
  {}

  lemma MetaThinner(t: Tables, path: string)
    ensures var u := WithoutMeta(t, path);
            Thinner(t, u) && path !in u.meta && path !in u.neg && u.dir == t.dir
  {}

  /** OPEN and CREATE answer with a handle. */
  lemma HandleGiven(fs: Fs, req: Request, env: Env)
    requires (req.Open? || req.Create?) && Serve(fs, req, env).1.status == 0
    ensures Serve(fs, req, env).1.body.Handle?
  {}

  /** Without an open handle on the old name no handle is renamed. */
  lemma NoneMoved(fs: Fs, t: Tables, u: Tables, from: string, to: string)
    requires HandlesTrue(fs, t.fh) && Thinner(t, u) && !Opened(fs, from)
    ensures Moved(u.fh, from, to) == u.fh
  {
    forall h | h in u.fh ensures u.fh[h].path != from {
      assert h in t.fh && fs.open[h] == t.fh[h].path;
    }
  }

  /** The number of a new handle is in no table yet. */
  lemma NewHandle(fs: Fs, req: Request, env: Env, t: Tables)
    requires Sound(fs) && Ordinary(fs, req) && True(fs, t) && True(Serve(fs, req, env).0, t)
    requires (req.Open? || req.Create?) && Serve(fs, req, env).1.status == 0
    ensures Serve(fs, req, env).1.body.Handle?
    ensures var h := Serve(fs, req, env).1.body.fh;
            True(Serve(fs, req, env).0, t.(fh := t.fh[h := FhInfo(req.path, false, 0, 0, 0, 0, 0, 0)]))
  {
    HandleGiven(fs, req, env);
    hide Serve;
    ServeSound(fs, req, env);
    var h := Serve(fs, req, env).1.body.fh;
    var after, fh := Serve(fs, req, env).0, t.fh[h := FhInfo(req.path, false, 0, 0, 0, 0, 0, 0)];
    forall j | j in t.jobs ensures JobTrue(after, fh, j) {
      assert JobTrue(fs, t.fh, j) && JobTrue(after, t.fh, j);
    }
  }

  /** The read pattern of a handle after a read from `off` to `newEnd`. */
  function NextPattern(f: FhInfo, newEnd: nat, off: nat): FhInfo {
    if off == f.lastEnd || (f.lastEnd == 0 && off == 0) then
      f.(seqRun := (f.seqRun + 1) % 0x1_0000_0000,
         raWindow := if f.raWindow == 0 then 1 else Min(f.raWindow * 2, MAX_READ_AHEAD), lastEnd := newEnd)
    else f.(seqRun := 0, raWindow := 0, lastEnd := newEnd)
  }

  lemma SamePath(f: FhInfo, newEnd: nat, off: nat)
    ensures NextPattern(f, newEnd, off).path == f.path
  {}

  /** Fetches of `n` blocks in a row. */
  function AheadJobs(path: string, fhId: nat, size: nat, mtime: int, start: nat, n: nat): (js: seq<Job>)
    ensures |js| == n && forall i | 0 <= i < n :: js[i] == Job(path, fhId, size, mtime, start + i)
  {
    seq(n, (i: nat) => Job(path, fhId, size, mtime, start + i))
  }

  /** And never over more than half the budget. */
  function Ahead(f: FhInfo, budget: nat): nat {
    var share := budget / BLOCK / 2;
    Min(Window(f), Min((if share < 1 then 1 else share) % 0x1_0000_0000, MAX_READ_AHEAD))
  }

  lemma NoneAhead(path: string, fhId: nat, size: nat, mtime: int, start: nat)
    ensures AheadJobs(path, fhId, size, mtime, start, 0) == []
  {}

  lemma OneMoreAhead(path: string, fhId: nat, size: nat, mtime: int, start: nat, n: nat)
    ensures AheadJobs(path, fhId, size, mtime, start, n + 1)
         == AheadJobs(path, fhId, size, mtime, start, n) + [Job(path, fhId, size, mtime, start + n)]
  {}

  /** How far a handle reads ahead: not before its second sequential read. */
  function Window(f: FhInfo): nat { if f.seqRun >= 2 then f.raWindow else 0 }

  /** Read-ahead follows sequential reading only, opens with the second read in a row, doubles, and
      stops at 32 blocks. */
  lemma ReadAheadPattern(f: FhInfo, newEnd: nat, off: nat)
    requires f.raWindow <= MAX_READ_AHEAD && f.seqRun < 0xffff_ffff
    ensures var g := NextPattern(f, newEnd, off);
            && g.raWindow <= MAX_READ_AHEAD && g.lastEnd == newEnd
            && (off != f.lastEnd ==> Window(g) == 0)
            && (off == f.lastEnd && f.seqRun > 0 && f.raWindow > 0 ==> Window(g) == Min(2 * f.raWindow, MAX_READ_AHEAD))
            && (Window(g) > 0 ==> off == f.lastEnd && f.seqRun > 0)
  {}

  method NowMs() returns (t: int) { t := *; }

  /** The memory budget, sampled anew whenever the cache likes. */
  method BudgetNow() returns (b: nat) { b := *; }

  class RamCache {
    const remote: Remote
    const store: B.Store
    var meta: map<string, MetaEntry>
    var neg: map<string, int>
    var dir: map<string, DirEntry>
    var fh: map<nat, FhInfo>
    var jobs: seq<Job>

    ghost predicate Valid()
      reads this, store
    {
      && store.Valid()
      && |meta| <= META_MAX && |neg| <= NEG_MAX && |dir| <= DIR_MAX && |jobs| <= PREFETCH_QUEUE_MAX
    }

    /** Everything the cache knows is true of the filesystem. */
    ghost predicate Coherent()
      reads this, store, remote
    {
      Valid() && Sound(remote.fs) && True(remote.fs, Known())
    }

    ghost function Known(): Tables
      requires store.Valid()
      reads this, store
    {
      Tables(store.Entries(), meta, neg, dir, fh, jobs)
    }

    constructor (inner: Remote)
      requires Sound(inner.fs)
      ensures Coherent() && remote == inner && fresh(store)
    {
      remote := inner;
      store := new B.Store();
      meta, neg, dir, fh, jobs := map[], map[], map[], map[], [];
    }

    // ---- metadata and directory tables ----

    /** A hit is an entry no older than the time to live; an expired one is dropped. */
    method MetaLookup(path: string, now: int) returns (hit: bool, a: Attr)
      modifies `meta
      ensures hit <==> path in old(meta) && now - old(meta)[path].at <= META_TTL
      ensures hit ==> a == old(meta)[path].attr
      ensures meta == if path in old(meta) && !hit then old(meta) - {path} else old(meta)
      ensures |meta| <= |old(meta)|
    {
      DropSome(meta, path);
      if path !in meta {
        return false, Attr(0, 0, 0, false);
      }
      if now - meta[path].at > META_TTL {
        meta := meta - {path};
        return false, Attr(0, 0, 0, false);
      }
      return true, meta[path].attr;
    }

    method MetaStore(path: string, a: Attr, now: int)
      requires |meta| <= META_MAX && |neg| <= NEG_MAX
      modifies `meta, `neg
      ensures path in meta && meta[path] == MetaEntry(a, now)
      ensures forall p | p in meta && p != path :: p in old(meta) && meta[p] == old(meta)[p]
      ensures |old(meta)| < META_MAX ==> meta == old(meta)[path := MetaEntry(a, now)]
      ensures |old(meta)| >= META_MAX ==> |meta| >= META_MAX / 2
      ensures neg == old(neg) - {path} && |meta| <= META_MAX && |neg| <= NEG_MAX
    {
      DropSome(neg, path);
      var kept := meta;
      if |meta| >= META_MAX {
        kept := Trim(meta, META_MAX / 2);
      }
      AddOne(kept, path, MetaEntry(a, now));
      meta, neg := kept[path := MetaEntry(a, now)], neg - {path};
    }

    method MetaErase(path: string)
      requires Valid()
      modifies `meta, `neg
      ensures Valid() && Known() == WithoutMeta(old(Known()), path)
    {
      hide B.Store.Valid, B.Store.Entries;
      DropSome(meta, path);
      DropSome(neg, path);
      meta, neg := meta - {path}, neg - {path};
    }

    method NegLookup(path: string, now: int) returns (hit: bool)
      modifies `neg
      ensures hit <==> path in old(neg) && now - old(neg)[path] <= NEG_TTL
      ensures neg == if path in old(neg) && !hit then old(neg) - {path} else old(neg)
      ensures |neg| <= |old(neg)|
    {
      DropSome(neg, path);
      if path !in neg {
        return false;
      }
      if now - neg[path] > NEG_TTL {
        neg := neg - {path};
        return false;
      }
      return true;
    }

    method NegStore(path: string, now: int)
      requires |neg| <= NEG_MAX
      modifies `neg
      ensures path in neg && neg[path] == now && |neg| <= NEG_MAX
      ensures forall p | p in neg && p != path :: p in old(neg) && neg[p] == old(neg)[p]
      ensures |old(neg)| < NEG_MAX ==> neg == old(neg)[path := now]
      ensures |old(neg)| >= NEG_MAX ==> |neg| >= NEG_MAX / 2
    {
      if |neg| >= NEG_MAX {
        neg := Trim(neg, NEG_MAX / 2);
      }
      AddOne(neg, path, now);
      neg := neg[path := now];
    }

    method DirLookup(path: string, now: int) returns (hit: bool, l: Names)
      modifies `dir
      ensures hit <==> path in old(dir) && now - old(dir)[path].at <= DIR_TTL
      ensures hit ==> l == old(dir)[path].names
      ensures dir == if path in old(dir) && !hit then old(dir) - {path} else old(dir)
      ensures |dir| <= |old(dir)|
    {
      DropSome(dir, path);
      if path !in dir {
        return false, [];
      }
      if now - dir[path].at > DIR_TTL {
        dir := dir - {path};
        return false, [];
      }
      return true, dir[path].names;
    }

    method DirStore(path: string, l: Names, now: int)
      requires |dir| <= DIR_MAX
      modifies `dir
      ensures path in dir && dir[path] == DirEntry(l, now) && |dir| <= DIR_MAX
      ensures forall p | p in dir && p != path :: p in old(dir) && dir[p] == old(dir)[p]
      ensures |old(dir)| < DIR_MAX ==> dir == old(dir)[path := DirEntry(l, now)]
      ensures |old(dir)| >= DIR_MAX ==> |dir| >= DIR_MAX / 2
    {
      if |dir| >= DIR_MAX {
        dir := Trim(dir, DIR_MAX / 2);
      }
      AddOne(dir, path, DirEntry(l, now));
      dir := dir[path := DirEntry(l, now)];
    }

    method DirErase(path: string)
      requires Valid()
      modifies `dir
      ensures Valid() && Known() == WithoutDirs(old(Known()), {path})
    {
      hide B.Store.Valid, B.Store.Entries;
      DropSome(dir, path);
      dir := dir - {path};
    }

    /** Everything known of a file goes: attributes, absence, captured versions and blocks. */
    method InvalidateFile(path: string)
      requires Valid()
      modifies `meta, `neg, `fh, store
      ensures Valid() && Known() == Invalidated(old(Known()), path)
    {
      hide B.Store.Valid, B.Store.Entries, Cleared, B.Purge;
      MetaErase(path);
      fh := Cleared(fh, path);
      store.PurgeFileLocked(path);
    }

    // ---- block reads ----

    /** One block, from the store or from the remote, which is asked at the 64-bit offset. */
    method BlockFetch(path: string, fhId: nat, size: nat, mtime: int, idx: nat)
      returns (status: nat, out: bytes, eof: bool, hit: bool, ghost budget: nat)
      requires Coherent() && (fhId in fh ==> fh[fhId].path == path)
      modifies remote, store
      ensures Coherent() && remote.fs == old(remote.fs) && remote.faults >= old(remote.faults)
      ensures var v := B.Version(size, mtime);
              var looked := B.AfterGet(old(store.Entries()), path, v, idx);
              && hit == B.HasKey(looked, B.Key(path, idx))
              && store.Entries() == (if hit || status != 0 then looked
                                     else B.AfterPut(looked, B.Entry(B.Key(path, idx), v, out, eof), budget))
      ensures remote.requests == old(remote.requests) + (if hit || fhId !in fh then 0 else 1)
      ensures status == 0 && idx < BLOCKS ==>
                IsFile(remote.fs, path) && out == BlockOf(remote.fs.tree[path].data, idx) && eof == (|out| < BLOCK)
      ensures status != 0 ==> fhId !in fh || remote.faults > old(remote.faults)
    {
      hide B.Store.Valid, B.Store.Entries, Sound, MetaTrue, NegTrue, DirsTrue, HandlesTrue, JobsTrue;
      hide B.AfterGet, B.AfterPut, B.HasKey, BlockTrue, BlockOf, Serve;
      ghost var before, v := store.Entries(), B.Version(size, mtime);
      budget := 0;
      hit, out, eof := store.BlockGetLocked(path, size, mtime, idx);
      B.GetMembers(before, path, v, idx);
      if hit {
        assert store.Entries()[0] in before;
        StoredBlock(remote.fs, before, store.Entries()[0]);
        status := 0;
        return;
      }
      if fhId !in fh {
        status, eof := EBADF, false;
        return;
      }
      KnownHandle(remote.fs, fh, fhId);
      var off := idx * BLOCK % 0x1_0000_0000_0000_0000;
      ghost var fs := remote.fs;
      var reply, env := remote.Request(Read(fhId, off, BLOCK));
      PlainRead(fs, fhId, off, BLOCK, env);
      status := reply.status;
      if status != 0 {
        return;
      }
      out := reply.body.data;
      eof := |out| < BLOCK;
      ghost var e := B.Entry(B.Key(path, idx), v, out, eof);
      FetchedBlock(remote.fs, fhId, path, idx, e);
      var limit := BudgetNow();
      budget := limit;
      B.PutMembers(store.Entries(), e, limit);
      store.BlockPutLocked(path, size, mtime, idx, out, eof, limit);
    }

    /** The version a read is made under: captured with the handle, cached, or asked for. */
    method EnsureVersion(fhId: nat, path: string) returns (ok: bool, size: nat, mtime: int, ghost at: int)
      requires Coherent() && fhId in fh && fh[fhId].path == path
      modifies `meta, `neg, `fh, remote
      ensures Coherent() && remote.fs == old(remote.fs) && remote.faults >= old(remote.faults)
      ensures fh.Keys == old(fh).Keys && forall h | h in fh :: fh[h].path == old(fh)[h].path
      ensures ok ==> fh[fhId].haveVer && fh[fhId].size == size && fh[fhId].mtime == mtime
      ensures var captured := old(fh)[fhId].haveVer && at - old(fh)[fhId].verAt <= META_TTL;
              var known := path in old(meta) && at - old(meta)[path].at <= META_TTL;
              && remote.requests == old(remote.requests) + (if captured || known then 0 else 1)
              && (captured ==> ok && fh == old(fh))
      ensures ok && fh != old(fh) ==> var f := remote.fs.tree[path]; f.File? && size == |f.data| && mtime == f.mtime
      ensures !ok ==> fh == old(fh) && remote.faults > old(remote.faults)
    {
      hide B.Store.Valid, B.Store.Entries, Sound, True;
      PathIsFile(remote.fs, Known(), fhId);
      var now := NowMs();
      at := now;
      if fh[fhId].haveVer && now - fh[fhId].verAt <= META_TTL {
        return true, fh[fhId].size, fh[fhId].mtime, now;
      }
      var a;
      ok, a := CurrentAttr(path, now);
      if !ok {
        return false, 0, 0, now;
      }
      size, mtime := a.size, a.mtime;
      now := NowMs();
      SetInfo(fhId, fh[fhId].(haveVer := true, verAt := now, size := size, mtime := mtime));
    }

    method SetInfo(fhId: nat, info: FhInfo)
      requires Coherent() && fhId in fh && fh[fhId].path == info.path
      modifies `fh
      ensures Coherent() && fh == old(fh)[fhId := info]
    {
      hide B.Store.Valid, B.Store.Entries, Sound, BlocksTrue, DirsTrue, NegTrue, MetaTrue, HandlesTrue, JobsTrue;
      SamePaths(remote.fs, fh, fh[fhId := info], jobs);
      fh := fh[fhId := info];
    }

    /** The attributes of a path, from the table or from the remote. */
    method CurrentAttr(path: string, now: int) returns (ok: bool, a: Attr)
      requires Coherent() && path in remote.fs.tree
      modifies `meta, `neg, remote
      ensures Coherent() && remote.fs == old(remote.fs) && remote.faults >= old(remote.faults)
      ensures if ok then AttrTrue(remote.fs, path, a) else remote.faults > old(remote.faults)
      ensures remote.requests
           == old(remote.requests) + (if path in old(meta) && now - old(meta)[path].at <= META_TTL then 0 else 1)
    {
      hide B.Store.Valid, B.Store.Entries, Sound, True, Serve, AttrTrue;
      ok, a := KnownAttr(path, now);
      if !ok {
        ghost var fs := remote.fs;
        var reply, env := remote.Request(GetAttr(path));
        PlainAttr(fs, path, env);
        if reply.status == 0 {
          ok, a := true, reply.body.attr;
          LearnAttr(path, a);
        }
      }
    }

    /** A lookup in the attribute table; what it returns is true. */
    method KnownAttr(path: string, now: int) returns (hit: bool, a: Attr)
      requires Coherent()
      modifies `meta
      ensures Coherent()
      ensures hit <==> path in old(meta) && now - old(meta)[path].at <= META_TTL
      ensures hit ==> AttrTrue(remote.fs, path, a) && meta == old(meta) && meta[path].attr == a
    {
      hide B.Store.Valid, B.Store.Entries, Sound, BlocksTrue, DirsTrue, NegTrue, AttrTrue, HandlesTrue, JobsTrue;
      hit, a := MetaLookup(path, now);
    }

    method LearnAttr(path: string, a: Attr)
      requires Coherent() && AttrTrue(remote.fs, path, a)
      modifies `meta, `neg
      ensures Coherent() && path in meta && meta[path].attr == a && neg == old(neg) - {path}
      ensures forall p | p in meta && p != path :: p in old(meta) && meta[p] == old(meta)[p]
      ensures |old(meta)| < META_MAX ==> meta.Keys == old(meta).Keys + {path} && |meta| <= |old(meta)| + 1
    {
      hide B.Store.Valid, B.Store.Entries, Sound, BlocksTrue, DirsTrue, NegTrue, AttrTrue, HandlesTrue, JobsTrue;
      var now := NowMs();
      AddOne(meta, path, MetaEntry(a, now));
      NegDropped(remote.fs, neg, path);
      MetaStore(path, a, now);
    }

    /** Queues fetches of the blocks ahead after two sequential reads; a full queue drops them. */
    method ScheduleReadAhead(fhId: nat, path: string, size: nat, mtime: int, newEnd: nat, off: nat)
        returns (ghost budget: nat)
      requires Coherent() && fhId in fh && fh[fhId].path == path
      modifies `fh, `jobs
      ensures Coherent()
      ensures if budget == 0 then fh == old(fh) && jobs == old(jobs)
              else
                var f := NextPattern(old(fh)[fhId], newEnd, off);
                var n := Min(Ahead(f, budget), PREFETCH_QUEUE_MAX - |old(jobs)|);
                && fh == old(fh)[fhId := f]
                && jobs == old(jobs) + AheadJobs(path, fhId, size, mtime, newEnd / BLOCK, n)
    {
      hide B.Store.Valid, B.Store.Entries, Sound, True, NextPattern, Window, AheadJobs;
      var limit := BudgetNow();
      budget := limit;
      SamePath(fh[fhId], newEnd, off);
      if limit == 0 {
        return;
      }
      var window := ReadPattern(fhId, newEnd, off);
      var share := limit / BLOCK / 2;
      var cap := (if share < 1 then 1 else share) % 0x1_0000_0000;
      window := Min(window, Min(cap, MAX_READ_AHEAD));
      QueueAhead(path, fhId, size, mtime, newEnd / BLOCK, window);
    }

    /** Queues fetches of the blocks from an index on, as many as there is room for. */
    method QueueAhead(path: string, fhId: nat, size: nat, mtime: int, startIdx: nat, window: nat)
      requires Coherent() && fhId in fh && fh[fhId].path == path
      modifies `jobs
      ensures Coherent()
      ensures jobs == old(jobs) + AheadJobs(path, fhId, size, mtime, startIdx,
                                            Min(window, PREFETCH_QUEUE_MAX - |old(jobs)|))
    {
      hide B.Store.Valid, B.Store.Entries, Sound, True, AheadJobs;
      NoneAhead(path, fhId, size, mtime, startIdx);
      for i := 0 to window
        invariant Coherent()
        invariant |jobs| == |old(jobs)| + Min(i, PREFETCH_QUEUE_MAX - |old(jobs)|)
        invariant jobs == old(jobs) + AheadJobs(path, fhId, size, mtime, startIdx, |jobs| - |old(jobs)|)
      {
        OneMoreAhead(path, fhId, size, mtime, startIdx, |jobs| - |old(jobs)|);
        Submit(Job(path, fhId, size, mtime, startIdx + i));
      }
    }

    /** Queues a job unless the queue is full. */
    method Submit(job: Job)
      requires Coherent() && job.fhId in fh && fh[job.fhId].path == job.path
      modifies `jobs
      ensures Coherent()
      ensures jobs == if |old(jobs)| < PREFETCH_QUEUE_MAX then old(jobs) + [job] else old(jobs)
    {
      hide B.Store.Valid, B.Store.Entries, BlocksTrue, MetaTrue, NegTrue, DirsTrue;
      if |jobs| < PREFETCH_QUEUE_MAX {
        jobs := jobs + [job];
      }
    }

    /** Follows the read pattern of a handle; the window opens with the second sequential read. */
    method ReadPattern(fhId: nat, newEnd: nat, off: nat) returns (window: nat)
      requires Coherent() && fhId in fh
      modifies `fh
      ensures Coherent()
      ensures fh == old(fh)[fhId := NextPattern(old(fh)[fhId], newEnd, off)] && window == Window(fh[fhId])
    {
      hide B.Store.Valid, B.Store.Entries, Sound, BlocksTrue, MetaTrue, NegTrue, DirsTrue, HandlesTrue, JobsTrue;
      var f := fh[fhId];
      if off == f.lastEnd || (f.lastEnd == 0 && off == 0) {
        f := f.(seqRun := (f.seqRun + 1) % 0x1_0000_0000,
                raWindow := if f.raWindow == 0 then 1 else Min(f.raWindow * 2, MAX_READ_AHEAD));
      } else {
        f := f.(seqRun := 0, raWindow := 0);
      }
      f := f.(lastEnd := newEnd);
      SetInfo(fhId, f);
      window := if f.seqRun >= 2 then f.raWindow else 0;
    }

    // ---- reads ----

    /** The read loop: block after block until the end of the request or of the file. */
    method ReadBlocks(path: string, fhId: nat, fsize: nat, fmtime: int, off: nat, size: nat)
      returns (status: nat, out: bytes)
      requires Coherent() && fhId in fh && fh[fhId].path == path && off + size < TWO64
      modifies remote, store
      ensures Coherent() && remote.fs == old(remote.fs) && remote.faults >= old(remote.faults)
      ensures status == 0 ==> IsFile(remote.fs, path) && out == Slice(remote.fs.tree[path].data, off, size)
      ensures status != 0 ==> remote.faults > old(remote.faults)
      ensures AllHeld(old(store.Entries()), path, B.Version(fsize, fmtime), off, size) ==>
                remote.requests == old(remote.requests)
    {
      hide B.Store.Valid, B.Store.Entries, True, Sound, BlockOf, B.AfterGet, B.AfterPut, B.HasKey, B.Held;
      hide ReadSoFar;
      ghost var v := B.Version(fsize, fmtime);
      ghost var held := AllHeld(store.Entries(), path, v, off, size);
      PathIsFile(remote.fs, Known(), fhId);
      ghost var data := remote.fs.tree[path].data;
      out := [];
      NothingRead(data, off);
      var cur, end := off, off + size;
      while cur < end
        invariant Coherent() && remote.fs == old(remote.fs) && remote.faults >= old(remote.faults)
        invariant off <= cur <= end
        invariant ReadSoFar(data, off, cur, out)
        invariant held ==>
                    remote.requests == old(remote.requests) && AllHeld(store.Entries(), path, v, off, size)
        decreases end - cur
      {
        var idx, boff := cur / BLOCK, cur % BLOCK;
        Piece(data, cur, end);
        BlockInRange(cur);
        HitOrMiss(store.Entries(), path, v, off, size, cur);
        var blk, eof, hit;
        ghost var budget;
        status, blk, eof, hit, budget := BlockFetch(path, fhId, fsize, fmtime, idx);
        if status != 0 {
          return;
        }
        if boff >= |blk| {
          break;
        }
        var take := Min(end - cur, |blk| - boff);
        Continued(data, off, cur, cur + take, out, blk[boff..boff + take]);
        out := out + blk[boff..boff + take];
        cur := cur + take;
        if boff + take >= |blk| && (eof || |blk| < BLOCK) {
          break;
        }
      }
      status := 0;
      ReadDone(data, off, size, cur, out);
    }

    /** A read through the block cache, unless the cache is switched off or does not know the handle. With a
        captured version and all blocks held under it the remote is not asked. */
    method DoRead(h: nat, off: nat, size: nat) returns (reply: Reply, ghost budget: nat, ghost at: int)
      requires Coherent() && off + size < TWO64
      modifies this, remote, store
      ensures Coherent() && remote.fs == old(remote.fs) && remote.faults >= old(remote.faults)
      ensures reply.status == 0 ==> reply.body.Content? && ReadAnswer(remote.fs, h, off, size, reply.body.data)
      ensures reply.status == 0 && remote.faults == old(remote.faults) ==>
                var n := if budget != 0 && h in old(fh) then size else Min(size, MAX_IO);
                reply.body.data == Slice(remote.fs.tree[remote.fs.open[h]].data, off, n)
      ensures reply.status != 0 ==> h !in remote.fs.open || remote.faults > old(remote.faults)
      ensures budget != 0 && h in old(fh) ==>
                var f := old(fh)[h];
                f.haveVer && at - f.verAt <= META_TTL
                && AllHeld(old(store.Entries()), f.path, B.Version(f.size, f.mtime), off, size) ==>
                  remote.requests == old(remote.requests)
    {
      hide B.Store.Valid, B.Store.Entries, True, Serve, Sound, Slice, AllHeld;
      ghost var fs := remote.fs;
      SoundRead(fs, h);
      var limit := BudgetNow();
      budget, at := limit, 0;
      var ok, fsize, fmtime := false, 0, 0;
      if limit != 0 && h in fh {
        ok, fsize, fmtime, at := EnsureVersion(h, fh[h].path);
      }
      if !ok {
        ghost var env;
        reply, env := remote.Request(Read(h, off, size));
        PlainRead(fs, h, off, size, env);
        return;
      }
      var path := fh[h].path;
      PathIsFile(fs, Known(), h);
      var status, out := ReadBlocks(path, h, fsize, fmtime, off, size);
      if status != 0 {
        reply := Failed(status);
        return;
      }
      ghost var _ := ScheduleReadAhead(h, path, fsize, fmtime, off + |out|, off);
      reply := Reply(0, Content(out));
    }

    // ---- attributes and listings ----

    method DoGetattr(path: string) returns (reply: Reply, ghost at: int, ghost later: int)
      requires Coherent()
      modifies `meta, `neg, remote
      ensures Coherent() && remote.fs == old(remote.fs) && remote.faults >= old(remote.faults)
      ensures reply.status == 0 ==> reply.body.Attributes? && AttrTrue(remote.fs, path, reply.body.attr)
      ensures reply.status == ENOENT ==> path !in remote.fs.tree
      ensures reply.status != 0 && reply.status != ENOENT ==> remote.faults > old(remote.faults)
      ensures reply.status == 0 ==> path in meta && meta[path].attr == reply.body.attr
      ensures reply.status == ENOENT ==> path in neg
      ensures var known := path in old(meta) && at - old(meta)[path].at <= META_TTL;
              var absent := path in old(neg) && later - old(neg)[path] <= NEG_TTL;
              && remote.requests == old(remote.requests) + (if known || absent then 0 else 1)
              && (known ==> reply == Reply(0, Attributes(old(meta)[path].attr)))
              && (!known && absent ==> reply == Failed(ENOENT))
    {
      hide B.Store.Valid, B.Store.Entries, Sound, True, AttrTrue, Serve;
      var now := NowMs();
      at, later := now, now;
      var hit, a := KnownAttr(path, now);
      if hit {
        reply := Reply(0, Attributes(a));
        return;
      }
      now := NowMs();
      later := now;
      var absent := KnownAbsent(path, now);
      if absent {
        reply := Failed(ENOENT);
        return;
      }
      ghost var fs := remote.fs;
      ghost var env;
      reply, env := remote.Request(GetAttr(path));
      PlainAttr(fs, path, env);
      if reply.status == 0 {
        LearnAttr(path, reply.body.attr);
      } else if reply.status == ENOENT {
        LearnAbsent(path);
      }
    }

    method KnownAbsent(path: string, now: int) returns (hit: bool)
      requires Coherent()
      modifies `neg
      ensures Coherent()
      ensures hit <==> path in old(neg) && now - old(neg)[path] <= NEG_TTL
      ensures hit ==> path !in remote.fs.tree && path in neg
    {
      hide B.Store.Valid, B.Store.Entries, Sound, BlocksTrue, MetaTrue, DirsTrue, HandlesTrue, JobsTrue;
      hit := NegLookup(path, now);
    }

    method LearnAbsent(path: string)
      requires Coherent() && path !in remote.fs.tree
      modifies `neg
      ensures Coherent() && path in neg
    {
      hide B.Store.Valid, B.Store.Entries, Sound, BlocksTrue, MetaTrue, DirsTrue, HandlesTrue, JobsTrue;
      var now := NowMs();
      NegStore(path, now);
    }

    /** A listing found in the table is the answer, and the remote is not asked; otherwise it is, and a failure
        is a fault or means that there is no such directory. */
    method DoReaddir(path: string) returns (reply: Reply, ghost at: int)
      requires Coherent()
      modifies `meta, `neg, `dir, remote
      ensures Coherent() && remote.fs == old(remote.fs) && remote.faults >= old(remote.faults)
      ensures if path in old(dir) && at - old(dir)[path].at <= DIR_TTL then
                reply == Reply(0, Listing(old(dir)[path].names)) && remote.requests == old(remote.requests)
              else
                && remote.requests == old(remote.requests) + 1
                && (reply.status != 0 ==>
                      remote.faults > old(remote.faults) || (!IsDir(remote.fs, path) && reply.status == ENOENT))
      ensures reply.status == 0 ==>
                reply.body.Listing? && IsDir(remote.fs, path) && NamesAre(remote.fs, path, reply.body.names)
      ensures reply.status == 0 ==> path in dir && dir[path].names == reply.body.names
      ensures reply.status == 0 && remote.requests > old(remote.requests)
              && |old(meta)| + |reply.body.names| <= META_MAX ==>
                forall i | 0 <= i < |reply.body.names| :: Join(path, reply.body.names[i].0) in meta
    {
      hide B.Store.Valid, B.Store.Entries, Sound, True, NamesAre, AttrTrue, Serve, Join;
      var now := NowMs();
      at := now;
      var hit, l := KnownNames(path, now);
      if hit {
        reply := Reply(0, Listing(l));
        return;
      }
      ghost var fs := remote.fs;
      ghost var env;
      reply, env := remote.Request(ReadDir(path));
      PlainListing(fs, path, env);
      if reply.status != 0 {
        return;
      }
      l := reply.body.names;
      LearnNames(path, l);
      LearnChildren(path, l);
    }

    /** The attributes that came with a listing. */
    method LearnChildren(path: string, l: Names)
      requires Coherent() && forall i | 0 <= i < |l| :: AttrTrue(remote.fs, Join(path, l[i].0), l[i].1)
      modifies `meta, `neg
      ensures Coherent()
      ensures |old(meta)| + |l| <= META_MAX ==> forall i | 0 <= i < |l| :: Join(path, l[i].0) in meta
    {
      hide B.Store.Valid, B.Store.Entries, Sound, True, AttrTrue, Join;
      for i := 0 to |l|
        modifies `meta, `neg
        invariant Coherent()
        invariant |old(meta)| + |l| <= META_MAX ==> |meta| <= |old(meta)| + i
        invariant |old(meta)| + |l| <= META_MAX ==> forall j | 0 <= j < i :: Join(path, l[j].0) in meta
      {
        LearnAttr(Join(path, l[i].0), l[i].1);
      }
    }

    method KnownNames(path: string, now: int) returns (hit: bool, l: Names)
      requires Coherent()
      modifies `dir
      ensures Coherent()
      ensures hit <==> path in old(dir) && now - old(dir)[path].at <= DIR_TTL
      ensures hit ==> IsDir(remote.fs, path) && NamesAre(remote.fs, path, l) && dir == old(dir) && dir[path].names == l
    {
      hide B.Store.Valid, B.Store.Entries, Sound, BlocksTrue, MetaTrue, NegTrue, HandlesTrue, JobsTrue, NamesAre;
      hit, l := DirLookup(path, now);
    }

    method LearnNames(path: string, l: Names)
      requires Coherent() && IsDir(remote.fs, path) && NamesAre(remote.fs, path, l)
      modifies `dir
      ensures Coherent() && path in dir && dir[path].names == l
    {
      hide B.Store.Valid, B.Store.Entries, Sound, BlocksTrue, MetaTrue, NegTrue, HandlesTrue, JobsTrue, NamesAre;
      var now := NowMs();
      DirStore(path, l, now);
    }

    // ---- mutations ----

    /** What each handler drops from the tables after a success. */
    method Forget(req: Request)
      requires Valid()
      modifies `meta, `neg, `dir, `fh, store
      ensures Valid() && Known() == Forgetting(old(Known()), req)
    {
      hide B.Store.Valid, B.Store.Entries, ParentOf, Invalidated, Moved, WithoutMeta, WithoutDirs;
      match req
      case Create(p, _, _) =>
        InvalidateFile(p);
        DirErase(ParentOf(p));
      case Write(h, _, _) =>
        if h in fh {
          InvalidateFile(fh[h].path);
        }
      case Truncate(p, _) =>
        InvalidateFile(p);
      case Unlink(p) =>
        InvalidateFile(p);
        DirErase(ParentOf(p));
      case Rename(from, to) =>
        ForgetRenamed(from, to);
      case _ =>
        ForgetNode(req);
    }

    method ForgetNode(req: Request)
      requires Valid()
      requires !req.Create? && !req.Truncate? && !req.Unlink? && !req.Write? && !req.Rename?
      modifies `meta, `neg, `dir
      ensures Valid() && Known() == Forgetting(old(Known()), req)
    {
      hide B.Store.Valid, B.Store.Entries, ParentOf, WithoutMeta, WithoutDirs;
      match req
      case Rmdir(p) =>
        MetaErase(p);
        ghost var t := Known();
        DirErase(p);
        DirErase(ParentOf(p));
        DirsInTurn(t, {p}, {ParentOf(p)}, {p, ParentOf(p)});
      case Mkdir(p, _) =>
        MetaErase(p);
        DirErase(ParentOf(p));
      case Chmod(p, _) =>
        MetaErase(p);
      case Utimens(p, _) =>
        MetaErase(p);
      case _ =>
    }

    method ForgetRenamed(from: string, to: string)
      requires Valid()
      modifies `meta, `neg, `dir, `fh, store
      ensures Valid() && Known() == Forgetting(old(Known()), Rename(from, to))
    {
      hide B.Store.Valid, B.Store.Entries, ParentOf, Invalidated, Moved, WithoutDirs;
      InvalidateFile(from);
      InvalidateFile(to);
      ghost var t := Known();
      DirsErase(from, to);
      DirsErase(ParentOf(from), ParentOf(to));
      DirsInTurn(t, {from, to}, {ParentOf(from), ParentOf(to)}, {from, to, ParentOf(from), ParentOf(to)});
      fh := Moved(fh, from, to);
    }

    method DirsErase(a: string, b: string)
      requires Valid()
      modifies `dir
      ensures Valid() && Known() == WithoutDirs(old(Known()), {a, b})
    {
      hide B.Store.Valid, B.Store.Entries, WithoutDirs;
      DirErase(a);
      DirErase(b);
      DirsInTurn(old(Known()), {a}, {b}, {a, b});
    }

    /** Every request that changes the filesystem is forwarded; what it may have made untrue is dropped
        when it succeeds. A released handle is dropped in any case, a new one remembered. */
    method DoMutation(req: Request) returns (reply: Reply, ghost env: Env)
      requires Coherent() && Expected(remote.fs, fh, req)
      modifies this, remote, store
      ensures Coherent() && (remote.fs, reply) == Serve(old(remote.fs), req, env)
      ensures Known() == Settled(old(Known()), req, reply)
    {
      hide B.Store.Valid, B.Store.Entries, Sound, True, Serve, Expected, Settled;
      ghost var fs, t := remote.fs, Known();
      reply, env := remote.Request(req);
      StepTrue(fs, req, env, t);
      Settle(req, reply);
    }

    method Settle(req: Request, reply: Reply)
      requires Valid()
      modifies `meta, `neg, `dir, `fh, store
      ensures Valid() && Known() == Settled(old(Known()), req, reply)
    {
      hide B.Store.Valid, B.Store.Entries, Forgetting;
      if reply.status == 0 {
        Forget(req);
        if reply.body.Handle? && (req.Open? || req.Create?) {
          fh := fh[reply.body.fh := FhInfo(req.path, false, 0, 0, 0, 0, 0, 0)];
        }
      }
      if req.Release? {
        fh := fh - {req.fh};
      }
    }

    // ---- dispatch ----

    /** One request of the mounted folder, answered from the tables where they allow it. */
    method Request(req: Request) returns (reply: Reply, ghost env: Env)
      requires Coherent() && Expected(remote.fs, fh, req)
      modifies this, remote, store
      ensures Coherent()
      ensures Answered(old(remote.fs), req, env, reply, remote.fs)
      ensures req.Read? && reply.status != 0 ==> req.fh !in remote.fs.open || remote.faults > old(remote.faults)
      ensures req.GetAttr? && reply.status != 0 && reply.status != ENOENT ==> remote.faults > old(remote.faults)
      ensures req.ReadDir? && reply.status != 0 ==>
                remote.faults > old(remote.faults) || (!IsDir(remote.fs, req.path) && reply.status == ENOENT)
    {
      hide B.Store.Valid, B.Store.Entries, Sound, True, Serve, Settled, Known;
      env := Env(0, 0, []);
      ghost var at;
      match req
      case GetAttr(p) =>
        ghost var later;
        reply, at, later := DoGetattr(p);
      case ReadDir(p) =>
        reply, at := DoReaddir(p);
      case Read(h, off, size) =>
        ghost var budget;
        reply, budget, at := DoRead(h, off, size);
      case _ =>
        reply, env := DoMutation(req);
    }

    /** A path the server has announced as changed. */
    method InvalidateCallback(path: string)
      requires Valid()
      modifies `meta, `neg, `dir, `fh, store
      ensures Valid() && Known() == Announced(old(Known()), path)
    {
      hide B.Store.Valid, B.Store.Entries, ParentOf, Invalidated, WithoutDirs;
      InvalidateFile(path);
      ghost var t := Known();
      DirErase(path);
      DirErase(ParentOf(path));
      DirsInTurn(t, {path}, {ParentOf(path)}, {path, ParentOf(path)});
    }

    /** A request of another client, followed by the announcements the server makes for it. */
    method OtherClient(req: Request) returns (reply: Reply, ghost env: Env)
      requires Coherent() && Ordinary(remote.fs, req) && (req.Release? ==> req.fh !in fh)
      modifies this, remote, store
      ensures Coherent() && (remote.fs, reply) == Serve(old(remote.fs), req, env)
      ensures Known() == if reply.status == 0 then AnnouncedAll(old(Known()), Announcements(old(remote.fs), req))
                         else old(Known())
    {
      hide B.Store.Valid, B.Store.Entries, Sound, True, Serve, Thinner, Forgotten, Announced, Opened;
      ghost var fs, t := remote.fs, Known();
      var paths := Announcements(remote.fs, req);
      reply, env := remote.Request(req);
      ServeSound(fs, req, env);
      ThinnerSelf(t);
      AnnouncedEnough(fs, req, t);
      if reply.status == 0 {
        for i := 0 to |paths|
          modifies `meta, `neg, `dir, `fh, store
          invariant Valid() && AnnouncedAll(Known(), paths[i..]) == AnnouncedAll(t, paths)
        {
          assert paths[i..][1..] == paths[i + 1..];
          InvalidateCallback(paths[i]);
        }
        assert paths[|paths|..] == [];
      }
      TruthKept(fs, req, env, t, Known());
    }

    /** One prefetch job, after any number of other steps. */
    method RunJob()
      requires Coherent() && jobs != []
      modifies `jobs, remote, store
      ensures Coherent() && remote.fs == old(remote.fs) && jobs == old(jobs)[1..]
      ensures var j := old(jobs)[0];
              var looked := B.AfterGet(old(store.Entries()), j.path, B.Version(j.size, j.mtime), j.idx);
              remote.requests == old(remote.requests)
                + (if B.HasKey(looked, B.Key(j.path, j.idx)) || j.fhId !in fh then 0 else 1)
    {
      hide B.Store.Valid, B.Store.Entries, Sound, BlocksTrue, MetaTrue, NegTrue, DirsTrue, HandlesTrue;
      var job := jobs[0];
      assert JobTrue(remote.fs, fh, job);
      jobs := jobs[1..];
      assert forall j | j in jobs :: j in old(jobs);
      var _, _, _, _, _ := BlockFetch(job.path, job.fhId, job.size, job.mtime, job.idx);
    }
  }

  lemma StoredBlock(fs: Fs, es: seq<B.Entry>, e: B.Entry)
    requires BlocksTrue(fs, es) && e in es
    ensures BlockTrue(fs, e)
  {}

  lemma KnownHandle(fs: Fs, fh: map<nat, FhInfo>, h: nat)
    requires Sound(fs) && HandlesTrue(fs, fh) && h in fh
    ensures h in fs.open && fs.open[h] == fh[h].path && IsFile(fs, fh[h].path)
  {}

  lemma SamePaths(fs: Fs, fh: map<nat, FhInfo>, next: map<nat, FhInfo>, jobs: seq<Job>)
    requires HandlesTrue(fs, fh) && JobsTrue(fs, fh, jobs)
    requires next.Keys <= fh.Keys && forall h | h in next :: next[h].path == fh[h].path
    ensures HandlesTrue(fs, next) && JobsTrue(fs, next, jobs)
  {
    forall j | j in jobs ensures JobTrue(fs, next, j) {
      assert JobTrue(fs, fh, j);
    }
  }

  lemma NegDropped(fs: Fs, neg: map<string, int>, path: string)
    requires NegTrue(fs, neg)
    ensures NegTrue(fs, neg - {path})
  {}

  lemma PlainRead(fs: Fs, h: nat, off: nat, size: nat, env: Env)
    ensures var answer := Serve(fs, Read(h, off, size), env);
            && answer.0 == fs
            && (answer.1.status == 0 ==>
                  && h in fs.open && IsFile(fs, fs.open[h])
                  && answer.1 == Reply(0, Content(Slice(fs.tree[fs.open[h]].data, off, Min(size, MAX_IO)))))
            && (answer.1.status != 0 ==> Faulty(env) || h !in fs.open || !IsFile(fs, fs.open[h]))
  {}

  lemma PlainAttr(fs: Fs, path: string, env: Env)
    ensures var answer := Serve(fs, GetAttr(path), env);
            && answer.0 == fs
            && (answer.1.status == 0 ==> answer.1.body.Attributes? && AttrTrue(fs, path, answer.1.body.attr))
            && (answer.1.status == ENOENT ==> path !in fs.tree)
            && (answer.1.status != 0 && answer.1.status != ENOENT ==> Faulty(env))
  {}

  /** What the remote returns for a whole block is the block. */
  lemma FetchedBlock(fs: Fs, h: nat, path: string, idx: nat, e: B.Entry)
    requires h in fs.open && fs.open[h] == path && IsFile(fs, path)
    requires e.key == B.Key(path, idx) && e.eof == (|e.data| < BLOCK)
    requires e.data == Slice(fs.tree[path].data, idx * BLOCK % TWO64, Min(BLOCK, MAX_IO))
    ensures BlockTrue(fs, e)
  {
    if idx < BLOCKS {
      assert idx * BLOCK % TWO64 == idx * BLOCK;
    }
  }

  lemma DirsInTurn(t: Tables, a: set<string>, b: set<string>, both: set<string>)
    requires both == a + b
    ensures WithoutDirs(WithoutDirs(t, a), b) == WithoutDirs(t, both)
  {
    assert t.dir - a - b == t.dir - both;
  }

  lemma SoundRead(fs: Fs, h: nat)
    requires Sound(fs)
    ensures h in fs.open ==> IsFile(fs, fs.open[h])
  {}

  lemma PathIsFile(fs: Fs, t: Tables, h: nat)
    requires Sound(fs) && True(fs, t) && h in t.fh
    ensures h in fs.open && fs.open[h] == t.fh[h].path && IsFile(fs, t.fh[h].path)
  {}

  lemma PlainListing(fs: Fs, path: string, env: Env)
    ensures var answer := Serve(fs, ReadDir(path), env);
            && answer.0 == fs
            && (answer.1.status != 0 ==>
                  Fails(fs, ReadDir(path), env) || (!IsDir(fs, path) && answer.1.status == ENOENT))
            && (answer.1.status == 0 ==>
                  && answer.1.body.Listing? && IsDir(fs, path) && NamesAre(fs, path, answer.1.body.names)
                  && var l := answer.1.body.names;
                     forall i | 0 <= i < |l| :: AttrTrue(fs, Join(path, l[i].0), l[i].1))
  {}

  /** All blocks of a read are held under the version. */
  ghost predicate AllHeld(es: seq<B.Entry>, path: string, v: B.Version, off: nat, size: nat) {
    forall i | off / BLOCK <= i && i * BLOCK < off + size :: B.Held(es, path, v, i)
  }

  lemma HitOrMiss(es: seq<B.Entry>, path: string, v: B.Version, off: nat, size: nat, cur: nat)
    requires off <= cur < off + size
    ensures AllHeld(es, path, v, off, size) ==>
              var u := B.AfterGet(es, path, v, cur / BLOCK);
              B.HasKey(u, B.Key(path, cur / BLOCK)) && AllHeld(u, path, v, off, size)
  {
    hide B.AfterGet, B.HasKey, B.Held;
    if AllHeld(es, path, v, off, size) {
      assert off / BLOCK <= cur / BLOCK && cur / BLOCK * BLOCK < off + size;
      B.HeldStill(es, path, v, cur / BLOCK);
    }
  }

  ghost predicate ReadSoFar(data: bytes, off: nat, cur: nat, out: bytes) {
    off <= cur && if cur == off then out == [] else cur <= |data| && out == data[off..cur]
  }

  lemma NothingRead(data: bytes, off: nat)
    ensures ReadSoFar(data, off, off, [])
  {}

  lemma Continued(data: bytes, off: nat, cur: nat, next: nat, out: bytes, piece: bytes)
    requires ReadSoFar(data, off, cur, out) && cur < next <= |data| && piece == data[cur..next]
    ensures ReadSoFar(data, off, next, out + piece)
  {}

  lemma ReadDone(data: bytes, off: nat, size: nat, cur: nat, out: bytes)
    requires ReadSoFar(data, off, cur, out) && cur <= off + size && (cur == off + size || cur >= |data|)
    ensures out == Slice(data, off, size)
  {}

  // ---- what the cache does not promise ---------------------------------------------------------

  /** The directories whose time a successful request changes. */
  ghost function TouchedDirs(fs: Fs, req: Request): set<string> {
    match req
    case Create(p, _, _) => if p in fs.tree then {} else {ParentOf(p)}
    case Unlink(p) => {ParentOf(p)}
    case Rmdir(p) => {ParentOf(p)}
    case Mkdir(p, _) => {ParentOf(p)}
    case Rename(from, to) => {ParentOf(from), ParentOf(to)}
    case _ => {}
  }

  /** Which cached attributes of directories a request leaves, and which of those it leaves wrong: the ones
      of the directories whose names it changes, unless their time happens to be the same. */
  lemma DirectoryTimesGoStale(fs: Fs, req: Request, env: Env, t: Tables, d: string)
    requires Sound(fs) && True(fs, t) && Expected(fs, t.fh, req) && Serve(fs, req, env).1.status == 0
    requires IsDir(fs, d) && d in t.meta && t.meta[d].attr == AttrOf(fs.tree[d])
    ensures var after, u := Serve(fs, req, env).0, Settled(t, req, Serve(fs, req, env).1);
            && (d in u.meta <==> d !in NodePaths(fs, req))
            && (d in u.meta ==>
                  && IsDir(after, d)
                  && (u.meta[d].attr == AttrOf(after.tree[d])
                      <==> d !in TouchedDirs(fs, req) || env.now == fs.tree[d].mtime))
  {
    hide Serve, BlocksTrue, MetaTrue, NegTrue, DirsTrue, JobsTrue, Expected, TouchedDirs;
    MetaLeft(fs, req, Serve(fs, req, env).1, t, d);
    if d !in NodePaths(fs, req) {
      DirTime(fs, req, env, d);
    }
  }

  lemma MetaLeft(fs: Fs, req: Request, reply: Reply, t: Tables, d: string)
    requires HandlesTrue(fs, t.fh) && Expected(fs, t.fh, req) && d in t.meta && reply.status == 0
    ensures var u := Settled(t, req, reply);
            && (d in u.meta <==> d !in NodePaths(fs, req)) && (d in u.meta ==> u.meta[d] == t.meta[d])
  {
    hide B.Purge, Cleared, Moved, ParentOf;
  }

  lemma DirTime(fs: Fs, req: Request, env: Env, d: string)
    requires Serve(fs, req, env).1.status == 0 && IsDir(fs, d) && d !in NodePaths(fs, req)
    ensures var after := Serve(fs, req, env).0;
            && IsDir(after, d) && after.tree[d].mode == fs.tree[d].mode
            && after.tree[d].mtime == if d in TouchedDirs(fs, req) then env.now else fs.tree[d].mtime
  {
    hide ParentOf, Overwrite, Resize, Slice, ListingOf, Child;
  }

  /** Making /a at time 5 leaves time 0 cached for the root. */
  lemma StaleRoot()
    ensures var fs, req := Fs(map["/" := Directory(0, 0)], map[], 0), Mkdir("/a", 0);
            var t := Tables([], map["/" := MetaEntry(Attr(0, 0, 0, true), 0)], map[], map[], map[], []);
            var after, u := Serve(fs, req, Env(0, 5, [])).0, Forgetting(t, req);
            && True(fs, t) && "/" in u.meta && "/" in after.tree && u.meta["/"].attr != AttrOf(after.tree["/"])
  {
    var fs, req := Fs(map["/" := Directory(0, 0)], map[], 0), Mkdir("/a", 0);
    var t := Tables([], map["/" := MetaEntry(Attr(0, 0, 0, true), 0)], map[], map[], map[], []);
    assert "/a"[0] == '/' && LastSlash("/a") == 0;
    assert True(fs, t);
    DirectoryTimesGoStale(fs, req, Env(0, 5, []), t, "/");
  }
}
