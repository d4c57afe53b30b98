/** The remote filesystem a server exports (client/src/server/server.cpp:362-601), as one state and
    one total answer function, and the path helpers of the cache (client/src/fs/ram_cache.cpp:135-146). */
module RemoteFs {
  import opened Words

  const MAX_IO: nat := 0x10_0000   // 1 MiB: the largest answer to one READ
  const EIO: nat := 5
  const EBADF: nat := 9
  const ENOENT: nat := 2
  const EEXIST: nat := 17
  const ENOTDIR: nat := 20
  const EISDIR: nat := 21

  // ---- paths -------------------------------------------------------------------

  /** Position of the last slash, -1 without one. */
  function LastSlash(p: string): (i: int)
    ensures -1 <= i < |p| && (i >= 0 ==> p[i] == '/')
    ensures forall j | i < j < |p| :: p[j] != '/'
  {
    if p == "" then -1 else if p[|p| - 1] == '/' then |p| - 1 else LastSlash(p[..|p| - 1])
  }

  function ParentOf(p: string): string {
    if p == "" || p == "/" then "/"
    else
      var slash := LastSlash(p);
      if slash <= 0 then "/" else p[..slash]
  }

  function Join(dir: string, name: string): string {
    if dir == "" || dir == "/" then "/" + name else dir + "/" + name
  }

  /** Joining a name to a directory is undone by taking the parent, and the name comes back too. */
  lemma ParentOfJoin(dir: string, name: string)
    requires dir != "" && name != "" && '/' !in name
    ensures ParentOf(Join(dir, name)) == dir && Join(dir, name)[LastSlash(Join(dir, name)) + 1..] == name
  {
    var p := Join(dir, name);
    var at := |p| - |name| - 1;
    assert p[at] == '/' && p[at + 1..] == name;
    assert forall j | at < j < |p| :: p[j] == name[j - at - 1] && name[j - at - 1] in name;
    assert LastSlash(p) == at;
  }

  /** Every absolute path other than the root, with no empty component, is a name joined to its parent. */
  lemma JoinOfParent(p: string)
    requires |p| >= 2 && p[0] == '/' && p[1] != '/' && p[|p| - 1] != '/'
    ensures var name := p[LastSlash(p) + 1..];
            name != "" && '/' !in name && Join(ParentOf(p), name) == p
  {
    hide LastSlash;
    var s := LastSlash(p);
    NameAfterSlash(p, s);
    assert s != 1;
    if s > 0 {
      assert p[..s][0] == '/' && |p[..s]| == s;
    }
  }

  lemma NameAfterSlash(p: string, s: nat)
    requires s < |p| - 1 && p[s] == '/' && forall j | s < j < |p| :: p[j] != '/'
    ensures p[s + 1..] != "" && '/' !in p[s + 1..]
    ensures p == p[..s] + "/" + p[s + 1..] && (s == 0 ==> p == "/" + p[s + 1..])
  {}

  // ---- state -------------------------------------------------------------------

  datatype Attr = Attr(size: nat, mtime: int, mode: nat, isDir: bool)
  datatype Node = File(data: bytes, mtime: int, mode: nat) | Directory(mtime: int, mode: nat)
  datatype Fs = Fs(tree: map<string, Node>, open: map<nat, string>, nextFh: nat)

  type Names = seq<(string, Attr)>

  function AttrOf(n: Node): Attr {
    match n
    case File(data, mtime, mode) => Attr(|data|, mtime, mode, false)
    case Directory(mtime, mode) => Attr(0, mtime, mode, true)
  }

  predicate IsFile(fs: Fs, p: string) { p in fs.tree && fs.tree[p].File? }

  predicate IsDir(fs: Fs, p: string) { p in fs.tree && fs.tree[p].Directory? }

  predicate Child(fs: Fs, dir: string, p: string) { p in fs.tree && p != "/" && ParentOf(p) == dir }

  predicate Named(dir: string, l: Names, p: string) {
    exists i | 0 <= i < |l| :: Join(dir, l[i].0) == p
  }

  /** The names of a listing are exactly those of the directory's children. */
  predicate NamesAre(fs: Fs, dir: string, l: Names) {
    && (forall i | 0 <= i < |l| :: Child(fs, dir, Join(dir, l[i].0)))
    && (forall p | p in fs.tree :: Child(fs, dir, p) ==> Named(dir, l, p))
  }

  predicate ListingOf(fs: Fs, dir: string, l: Names) {
    NamesAre(fs, dir, l) && forall i | 0 <= i < |l| :: l[i].1 == AttrOf(fs.tree[Join(dir, l[i].0)])
  }

  /** Every handle is on a file that exists. */
  ghost predicate Sound(fs: Fs) {
    forall h | h in fs.open :: h < fs.nextFh && IsFile(fs, fs.open[h])
  }

  // ---- requests ----------------------------------------------------------------

  datatype Request =
    | GetAttr(path: string)
    | ReadDir(path: string)
    | Read(fh: nat, off: nat, size: nat)
    | Open(path: string)
    | Create(path: string, mode: nat, trunc: bool)
    | Write(fh: nat, off: nat, data: bytes)
    | Release(fh: nat)
    | Truncate(path: string, size: nat)
    | Unlink(path: string)
    | Rmdir(path: string)
    | Mkdir(path: string, mode: nat)
    | Rename(from: string, to: string)
    | Chmod(path: string, mode: nat)
    | Utimens(path: string, mtime: int)
    | Other

  datatype Body =
    | Empty
    | Attributes(attr: Attr)
    | Listing(names: Names)
    | Content(data: bytes)
    | Handle(fh: nat)
    | Written(n: nat)

  datatype Reply = Reply(status: nat, body: Body)

  /** What the outside decides about one request: a fault, the time, the order of a listing. */
  datatype Env = Env(fault: nat, now: int, listing: Names)

  /** A fault loses the request before it takes effect; it never claims that a path is missing. A reply lost
      after it did is a step of the runs. */
  predicate Faulty(env: Env) { env.fault != 0 && env.fault != ENOENT }

  /** A request that something outside makes fail: a fault, or a directory that cannot be read to its end. */
  predicate Fails(fs: Fs, req: Request, env: Env) {
    Faulty(env) || (req.ReadDir? && IsDir(fs, req.path) && !ListingOf(fs, req.path, env.listing))
  }

  function Failed(status: nat): Reply { Reply(status, Empty) }

  /** The bytes from an offset, as far as the file has them. */
  function Slice(data: bytes, off: nat, size: nat): bytes {
    if off >= |data| then [] else data[off..Min(off + size, |data|)]
  }

  /** A write at an offset; a gap before it reads as zeros. */
  function Overwrite(data: bytes, off: nat, put: bytes): bytes {
    if put == [] then data
    else
      var base := if |data| < off then data + Zeros(off - |data|) else data;
      base[..off] + put + (if off + |put| < |base| then base[off + |put|..] else [])
  }

  function Resize(data: bytes, size: nat): bytes {
    if size <= |data| then data[..size] else data + Zeros(size - |data|)
  }

  function SetNode(fs: Fs, p: string, n: Node): Fs { fs.(tree := fs.tree[p := n]) }

  function DropNode(fs: Fs, p: string): Fs { fs.(tree := fs.tree - {p}) }

  /** A change of names shows in the times of the directory. */
  function TouchDir(fs: Fs, d: string, now: int): Fs {
    if IsDir(fs, d) then SetNode(fs, d, fs.tree[d].(mtime := now)) else fs
  }

  function OpenHandle(fs: Fs, p: string): (Fs, Reply) {
    (fs.(open := fs.open[fs.nextFh := p], nextFh := fs.nextFh + 1), Reply(0, Handle(fs.nextFh)))
  }

  function DoCreate(fs: Fs, p: string, mode: nat, trunc: bool, now: int): (Fs, Reply) {
    if IsFile(fs, p) then
      OpenHandle(if trunc then SetNode(fs, p, File([], now, fs.tree[p].mode)) else fs, p)
    else if p in fs.tree then (fs, Failed(EISDIR))
    else if !IsDir(fs, ParentOf(p)) then (fs, Failed(if ParentOf(p) in fs.tree then ENOTDIR else ENOENT))
    else OpenHandle(TouchDir(SetNode(fs, p, File([], now, mode)), ParentOf(p), now), p)
  }

  function DoWrite(fs: Fs, h: nat, off: nat, put: bytes, now: int): (Fs, Reply) {
    if h !in fs.open then (fs, Failed(EBADF))
    else if !IsFile(fs, fs.open[h]) then (fs, Failed(EIO))
    else
      var f := fs.tree[fs.open[h]];
      (SetNode(fs, fs.open[h], f.(data := Overwrite(f.data, off, put), mtime := now)), Reply(0, Written(|put|)))
  }

  /** Unlinking and removing a directory are the same call: a file goes, a directory goes when empty. */
  function DoRemove(fs: Fs, p: string, now: int): (Fs, Reply) {
    if p !in fs.tree then (fs, Failed(ENOENT))
    else if IsDir(fs, p) && exists c | c in fs.tree :: Child(fs, p, c) then (fs, Failed(EIO))
    else (TouchDir(DropNode(fs, p), ParentOf(p), now), Reply(0, Empty))
  }

  function DoMkdir(fs: Fs, p: string, mode: nat, now: int): (Fs, Reply) {
    if p in fs.tree then (fs, Failed(EEXIST))
    else if !IsDir(fs, ParentOf(p)) then (fs, Failed(EIO))
    else (TouchDir(SetNode(fs, p, Directory(now, mode)), ParentOf(p), now), Reply(0, Empty))
  }

  function DoRename(fs: Fs, from: string, to: string, now: int): (Fs, Reply) {
    if !IsFile(fs, from) || IsDir(fs, to) || !IsDir(fs, ParentOf(to)) then (fs, Failed(EIO))
    else
      var moved := SetNode(DropNode(fs, from), to, fs.tree[from]);
      (TouchDir(TouchDir(moved, ParentOf(from), now), ParentOf(to), now), Reply(0, Empty))
  }

  /** The answer to a request, and the filesystem after it. */
  function Serve(fs: Fs, req: Request, env: Env): (Fs, Reply) {
    if Faulty(env) then (fs, Failed(env.fault))
    else match req
      case GetAttr(p) =>
        (fs, if p in fs.tree then Reply(0, Attributes(AttrOf(fs.tree[p]))) else Failed(ENOENT))
      case ReadDir(p) =>
        (fs, if IsDir(fs, p) && ListingOf(fs, p, env.listing) then Reply(0, Listing(env.listing)) else Failed(ENOENT))
      case Read(h, off, size) =>
        (fs, if h !in fs.open then Failed(EBADF)
             else if !IsFile(fs, fs.open[h]) then Failed(EIO)
             else Reply(0, Content(Slice(fs.tree[fs.open[h]].data, off, Min(size, MAX_IO)))))
      case Open(p) =>
        if IsFile(fs, p) then OpenHandle(fs, p) else (fs, Failed(if p in fs.tree then EISDIR else ENOENT))
      case Create(p, mode, trunc) => DoCreate(fs, p, mode, trunc, env.now)
      case Write(h, off, put) => DoWrite(fs, h, off, put, env.now)
      case Release(h) => (fs.(open := fs.open - {h}), Reply(0, Empty))
      case Truncate(p, size) =>
        if IsFile(fs, p) then
          (SetNode(fs, p, fs.tree[p].(data := Resize(fs.tree[p].data, size), mtime := env.now)), Reply(0, Empty))
        else (fs, Failed(EIO))
      case Unlink(p) => DoRemove(fs, p, env.now)
      case Rmdir(p) => DoRemove(fs, p, env.now)
      case Mkdir(p, mode) => DoMkdir(fs, p, mode, env.now)
      case Rename(from, to) => DoRename(fs, from, to, env.now)
      case Chmod(p, mode) =>
        if p in fs.tree then (SetNode(fs, p, fs.tree[p].(mode := mode)), Reply(0, Empty)) else (fs, Failed(ENOENT))
      case Utimens(p, mtime) =>
        if p in fs.tree then (SetNode(fs, p, fs.tree[p].(mtime := mtime)), Reply(0, Empty)) else (fs, Failed(EIO))
      case Other => (fs, Reply(0, Empty))
  }

  // ---- what a request does --------------------------------------------------------

  /** What a file holds, none when there is no file. */
  function BytesAt(fs: Fs, p: string): Option<bytes> { if IsFile(fs, p) then Some(fs.tree[p].data) else None }

  /** Byte by byte after a write: what was put, else what was there, else zero. */
  lemma OverwriteBytes(data: bytes, off: nat, put: bytes)
    ensures var d := Overwrite(data, off, put);
            && |d| == (if put == [] then |data| else Max(|data|, off + |put|))
            && forall i | 0 <= i < |d| ::
                 d[i] == if off <= i < off + |put| then put[i - off] else if i < |data| then data[i] else 0
  {
    if put != [] {
      var base := if |data| < off then data + Zeros(off - |data|) else data;
      var d := Overwrite(data, off, put);
      var tail := if off + |put| < |base| then base[off + |put|..] else [];
      assert d == base[..off] + put + tail;
    }
  }

  /** And after a truncation: what was there, else zero. */
  lemma ResizeBytes(data: bytes, size: nat)
    ensures |Resize(data, size)| == size
    ensures forall i | 0 <= i < size :: Resize(data, size)[i] == if i < |data| then data[i] else 0
  {}

  /** What is written through a handle is what a read there returns, through this handle or any other on the
      file. */
  lemma WriteThenRead(fs: Fs, h: nat, off: nat, put: bytes, env: Env, g: nat, later: Env)
    requires h in fs.open && IsFile(fs, fs.open[h]) && g in fs.open && fs.open[g] == fs.open[h]
    requires !Faulty(env) && !Faulty(later) && |put| <= MAX_IO
    ensures var after := Serve(fs, Write(h, off, put), env);
            && after.1 == Reply(0, Written(|put|)) && after.0.open == fs.open
            && Serve(after.0, Read(g, off, |put|), later).1 == Reply(0, Content(put))
            && BytesAt(after.0, fs.open[h]) == Some(Overwrite(fs.tree[fs.open[h]].data, off, put))
  {
    OverwriteBytes(fs.tree[fs.open[h]].data, off, put);
    hide Overwrite;
    var d := Overwrite(fs.tree[fs.open[h]].data, off, put);
    assert Slice(d, off, |put|) == put;
  }

  /** A file of a path has the length it is truncated to, filled with zeros. */
  lemma TruncateThenRead(fs: Fs, p: string, size: nat, env: Env)
    requires !Faulty(env)
    ensures var after := Serve(fs, Truncate(p, size), env);
            && (after.1.status == 0 <==> IsFile(fs, p))
            && (IsFile(fs, p) ==>
                  && IsFile(after.0, p) && |after.0.tree[p].data| == size
                  && (forall i | 0 <= i < size ::
                        after.0.tree[p].data[i] == if i < |fs.tree[p].data| then fs.tree[p].data[i] else 0)
                  && after.0.tree[p].mtime == env.now && after.0.tree[p].mode == fs.tree[p].mode)
  {
    if IsFile(fs, p) {
      ResizeBytes(fs.tree[p].data, size);
    }
    hide Resize;
  }

  /** CREATE makes a file or takes the one that is there, emptied only on demand, and opens it. */
  lemma CreateThenRead(fs: Fs, p: string, mode: nat, trunc: bool, env: Env)
    requires !Faulty(env)
    ensures var after := Serve(fs, Create(p, mode, trunc), env);
            && (after.1.status == 0 <==> IsFile(fs, p) || (p !in fs.tree && IsDir(fs, ParentOf(p))))
            && (after.1.status == 0 ==>
                  && BytesAt(after.0, p) == Some(if IsFile(fs, p) && !trunc then fs.tree[p].data else [])
                  && after.1 == Reply(0, Handle(fs.nextFh)) && after.0.open == fs.open[fs.nextFh := p])
  {
    hide ParentOf;
  }

  /** OPEN opens what is there and changes no file. */
  lemma OpenThenRead(fs: Fs, p: string, env: Env)
    requires !Faulty(env)
    ensures var after := Serve(fs, Open(p), env);
            && (after.1.status == 0 <==> IsFile(fs, p)) && after.0.tree == fs.tree
            && (IsFile(fs, p) ==> after.1 == Reply(0, Handle(fs.nextFh)) && after.0.open == fs.open[fs.nextFh := p])
  {}

  /** A renamed file is under its new name all it was under the old one, in place of any other there, and the
      old name is gone. */
  lemma RenameMoves(fs: Fs, from: string, to: string, env: Env)
    requires !Faulty(env)
    ensures var after := Serve(fs, Rename(from, to), env);
            && (after.1.status == 0 <==> IsFile(fs, from) && !IsDir(fs, to) && IsDir(fs, ParentOf(to)))
            && (after.1.status == 0 ==>
                  && to in after.0.tree && after.0.tree[to] == fs.tree[from]
                  && (from != to ==> from !in after.0.tree))
  {
    hide ParentOf;
  }

  /** Removing takes a file, or a directory nothing is in, and nothing else can be removed. */
  lemma RemoveThenGone(fs: Fs, p: string, dir: bool, env: Env)
    requires !Faulty(env)
    ensures var after := Serve(fs, if dir then Rmdir(p) else Unlink(p), env);
            && (after.1.status == 0 <==> p in fs.tree && forall c | c in fs.tree :: IsDir(fs, p) ==> !Child(fs, p, c))
            && (after.1.status == 0 ==> p !in after.0.tree)
  {
    hide ParentOf, Child;
  }

  /** MKDIR makes an empty directory where nothing was. */
  lemma MkdirThenEmpty(fs: Fs, p: string, mode: nat, env: Env)
    requires !Faulty(env) && forall c | c in fs.tree && c != "/" :: ParentOf(c) in fs.tree
    ensures var after := Serve(fs, Mkdir(p, mode), env);
            && (after.1.status == 0 <==> p !in fs.tree && IsDir(fs, ParentOf(p)))
            && (after.1.status == 0 ==> IsDir(after.0, p) && forall c :: !Child(after.0, p, c))
  {
    hide ParentOf;
  }

  /** CHMOD and UTIMENS set the one attribute and leave the rest. */
  lemma AttributesSet(fs: Fs, p: string, mode: nat, mtime: int, env: Env, later: Env)
    requires p in fs.tree && !Faulty(env) && !Faulty(later)
    ensures var a, was := Serve(fs, Chmod(p, mode), env), AttrOf(fs.tree[p]);
            a.1.status == 0 && Serve(a.0, GetAttr(p), later).1 == Reply(0, Attributes(was.(mode := mode)))
    ensures var a, was := Serve(fs, Utimens(p, mtime), env), AttrOf(fs.tree[p]);
            a.1.status == 0 && Serve(a.0, GetAttr(p), later).1 == Reply(0, Attributes(was.(mtime := mtime)))
  {}

  // ---- what a request leaves alone -----------------------------------------------

  ghost predicate Opened(fs: Fs, p: string) {
    exists h | h in fs.open :: fs.open[h] == p
  }

  /** Names under an open handle are not removed, and directories are neither renamed nor opened. */
  ghost predicate Ordinary(fs: Fs, req: Request) {
    match req
    case Unlink(p) => !Opened(fs, p)
    case Rmdir(p) => !Opened(fs, p)
    case Rename(from, to) => !IsDir(fs, from) && !Opened(fs, from) && !Opened(fs, to)
    case Open(p) => !IsDir(fs, p)
    case _ => true
  }

  /** The path a handle was opened on. */
  ghost function Target(fs: Fs, h: nat): set<string> {
    if h in fs.open then {fs.open[h]} else {}
  }

  /** The files whose bytes a request may change. */
  ghost function ContentPaths(fs: Fs, req: Request): set<string> {
    match req
    case Create(p, _, _) => {p}
    case Write(h, _, _) => Target(fs, h)
    case Truncate(p, _) => {p}
    case Unlink(p) => {p}
    case Rmdir(p) => {p}
    case Rename(from, to) => {from, to}
    case _ => {}
  }

  /** The paths whose presence, kind or file attributes a request may change. */
  ghost function NodePaths(fs: Fs, req: Request): set<string> {
    match req
    case Mkdir(p, _) => {p}
    case Chmod(p, _) => {p}
    case Utimens(p, _) => {p}
    case _ => ContentPaths(fs, req)
  }

  /** The directories whose names a request may change. */
  ghost function NameDirs(req: Request): set<string> {
    match req
    case Create(p, _, _) => {ParentOf(p)}
    case Unlink(p) => {p, ParentOf(p)}
    case Rmdir(p) => {p, ParentOf(p)}
    case Mkdir(p, _) => {ParentOf(p)}
    case Rename(from, to) => {ParentOf(from), ParentOf(to)}
    case _ => {}
  }

  ghost predicate KeepsFile(a: Fs, b: Fs, p: string) {
    IsFile(a, p) ==> IsFile(b, p) && b.tree[p].data == a.tree[p].data
  }

  ghost predicate KeepsNode(a: Fs, b: Fs, p: string) {
    && (p in a.tree <==> p in b.tree)
    && (IsDir(a, p) <==> IsDir(b, p))
    && (IsFile(a, p) ==> b.tree[p] == a.tree[p])
  }

  ghost predicate KeepsNames(a: Fs, b: Fs, d: string) {
    && (IsDir(a, d) ==> IsDir(b, d))
    && (forall p :: Child(a, d, p) <==> Child(b, d, p))
  }

  ghost predicate Framed(fs: Fs, after: Fs, content: set<string>, nodes: set<string>, dirs: set<string>) {
    && (forall p | p !in content :: KeepsFile(fs, after, p))
    && (forall p | p !in nodes :: KeepsNode(fs, after, p))
    && (forall d | d !in dirs :: KeepsNames(fs, after, d))
  }

  /** A request changes no more than it names; a failed one changes nothing. */
  lemma ServeFrame(fs: Fs, req: Request, env: Env)
    ensures var after, reply := Serve(fs, req, env).0, Serve(fs, req, env).1;
            && (reply.status != 0 ==> after == fs)
            && Framed(fs, after, ContentPaths(fs, req), NodePaths(fs, req), NameDirs(req))
  {
    hide ParentOf, Overwrite, Resize, Slice, ListingOf, Framed, DoCreate, DoMkdir, DoRemove, DoRename, DoWrite;
    Unchanged(fs, ContentPaths(fs, req), NodePaths(fs, req), NameDirs(req));
    if !Faulty(env) {
      match req
      case Open(_) => HandlesFrame(fs, Serve(fs, req, env).0, {}, {}, {});
      case Release(_) => HandlesFrame(fs, Serve(fs, req, env).0, {}, {}, {});
      case Create(p, mode, trunc) => CreateFrame(fs, p, mode, trunc, env.now);
      case Write(h, off, put) => WriteFrame(fs, h, off, put, env.now);
      case Unlink(p) => RemoveFrame(fs, p, env.now);
      case Rmdir(p) => RemoveFrame(fs, p, env.now);
      case Mkdir(p, mode) => MkdirFrame(fs, p, mode, env.now);
      case Rename(from, to) => RenameFrame(fs, from, to, env.now);
      case Truncate(p, size) =>
        if IsFile(fs, p) {
          NodeSet(fs, p, fs.tree[p].(data := Resize(fs.tree[p].data, size), mtime := env.now), {p});
        }
      case Chmod(p, mode) =>
        if p in fs.tree {
          NodeSet(fs, p, fs.tree[p].(mode := mode), {});
        }
      case Utimens(p, mtime) =>
        if p in fs.tree {
          NodeSet(fs, p, fs.tree[p].(mtime := mtime), {});
        }
      case _ =>
    }
  }

  lemma Unchanged(fs: Fs, content: set<string>, nodes: set<string>, dirs: set<string>)
    ensures Framed(fs, fs, content, nodes, dirs)
  {
    hide ParentOf;
  }

  lemma HandlesFrame(fs: Fs, after: Fs, content: set<string>, nodes: set<string>, dirs: set<string>)
    requires fs.tree == after.tree
    ensures Framed(fs, after, content, nodes, dirs)
  {
    hide ParentOf;
  }

  /** Replacing a node by one of the same kind. */
  lemma NodeSet(fs: Fs, p: string, n: Node, content: set<string>)
    requires p in fs.tree && n.File? == fs.tree[p].File?
    requires n.File? && n.data != fs.tree[p].data ==> p in content
    ensures Framed(fs, SetNode(fs, p, n), content, {p}, {})
  {
    hide ParentOf;
  }

  lemma TouchFrame(fs: Fs, d: string, now: int)
    ensures Framed(fs, TouchDir(fs, d, now), {}, {}, {})
  {
    hide ParentOf;
  }

  lemma FrameThen(a: Fs, b: Fs, c: Fs, content: set<string>, nodes: set<string>, dirs: set<string>)
    requires Framed(a, b, content, nodes, dirs) && Framed(b, c, {}, {}, {})
    ensures Framed(a, c, content, nodes, dirs)
  {
    hide Child;
    forall p | p !in content ensures KeepsFile(a, c, p) {
      assert KeepsFile(a, b, p) && KeepsFile(b, c, p);
    }
    forall p | p !in nodes ensures KeepsNode(a, c, p) {
      assert KeepsNode(a, b, p) && KeepsNode(b, c, p);
    }
    forall d | d !in dirs ensures KeepsNames(a, c, d) {
      assert KeepsNames(a, b, d) && KeepsNames(b, c, d);
    }
  }

  lemma CreateFrame(fs: Fs, p: string, mode: nat, trunc: bool, now: int)
    ensures DoCreate(fs, p, mode, trunc, now).1.status != 0 ==> DoCreate(fs, p, mode, trunc, now).0 == fs
    ensures Framed(fs, DoCreate(fs, p, mode, trunc, now).0, {p}, {p}, {ParentOf(p)})
  {
    hide ParentOf;
    var after := DoCreate(fs, p, mode, trunc, now).0;
    if p in fs.tree {
      assert Framed(fs, after, {p}, {p}, {ParentOf(p)});
    } else if IsDir(fs, ParentOf(p)) {
      var made := SetNode(fs, p, File([], now, mode));
      assert Framed(fs, made, {p}, {p}, {ParentOf(p)});
      hide Framed;
      TouchFrame(made, ParentOf(p), now);
      var touched := TouchDir(made, ParentOf(p), now);
      FrameThen(fs, made, touched, {p}, {p}, {ParentOf(p)});
      HandlesFrame(touched, after, {}, {}, {});
      FrameThen(fs, touched, after, {p}, {p}, {ParentOf(p)});
    } else {
      Unchanged(fs, {p}, {p}, {ParentOf(p)});
    }
  }

  lemma WriteFrame(fs: Fs, h: nat, off: nat, put: bytes, now: int)
    ensures DoWrite(fs, h, off, put, now).1.status != 0 ==> DoWrite(fs, h, off, put, now).0 == fs
    ensures Framed(fs, DoWrite(fs, h, off, put, now).0, Target(fs, h), Target(fs, h), {})
  {
    hide ParentOf, Overwrite;
  }

  lemma RemoveFrame(fs: Fs, p: string, now: int)
    ensures DoRemove(fs, p, now).1.status != 0 ==> DoRemove(fs, p, now).0 == fs
    ensures Framed(fs, DoRemove(fs, p, now).0, {p}, {p}, {p, ParentOf(p)})
  {
    hide ParentOf;
    Unchanged(fs, {p}, {p}, {p, ParentOf(p)});
    if DoRemove(fs, p, now).1.status == 0 {
      var gone := DropNode(fs, p);
      assert Framed(fs, gone, {p}, {p}, {p, ParentOf(p)});
      hide Framed;
      TouchFrame(gone, ParentOf(p), now);
      FrameThen(fs, gone, TouchDir(gone, ParentOf(p), now), {p}, {p}, {p, ParentOf(p)});
    }
  }

  lemma MkdirFrame(fs: Fs, p: string, mode: nat, now: int)
    ensures DoMkdir(fs, p, mode, now).1.status != 0 ==> DoMkdir(fs, p, mode, now).0 == fs
    ensures Framed(fs, DoMkdir(fs, p, mode, now).0, {}, {p}, {ParentOf(p)})
  {
    hide ParentOf;
    Unchanged(fs, {}, {p}, {ParentOf(p)});
    if DoMkdir(fs, p, mode, now).1.status == 0 {
      var made := SetNode(fs, p, Directory(now, mode));
      assert Framed(fs, made, {}, {p}, {ParentOf(p)});
      hide Framed;
      TouchFrame(made, ParentOf(p), now);
      FrameThen(fs, made, TouchDir(made, ParentOf(p), now), {}, {p}, {ParentOf(p)});
    }
  }

  lemma RenameFrame(fs: Fs, from: string, to: string, now: int)
    ensures DoRename(fs, from, to, now).1.status != 0 ==> DoRename(fs, from, to, now).0 == fs
    ensures Framed(fs, DoRename(fs, from, to, now).0, {from, to}, {from, to}, {ParentOf(from), ParentOf(to)})
  {
    hide ParentOf;
    var paths, dirs := {from, to}, {ParentOf(from), ParentOf(to)};
    Unchanged(fs, paths, paths, dirs);
    if DoRename(fs, from, to, now).1.status == 0 {
      var moved := SetNode(DropNode(fs, from), to, fs.tree[from]);
      assert Framed(fs, moved, paths, paths, dirs);
      hide Framed;
      TouchFrame(moved, ParentOf(from), now);
      var one := TouchDir(moved, ParentOf(from), now);
      FrameThen(fs, moved, one, paths, paths, dirs);
      TouchFrame(one, ParentOf(to), now);
      FrameThen(fs, one, TouchDir(one, ParentOf(to), now), paths, paths, dirs);
    }
  }

  /** Handles stay on files that exist, and the number of a new one has never been used. */
  lemma ServeSound(fs: Fs, req: Request, env: Env)
    requires Sound(fs) && Ordinary(fs, req)
    ensures var after, reply := Serve(fs, req, env).0, Serve(fs, req, env).1;
            && Sound(after) && after.nextFh >= fs.nextFh
            && (forall h | h in after.open && h < fs.nextFh :: h in fs.open && after.open[h] == fs.open[h])
            && (forall h | h in fs.open && req != Release(h) :: h in after.open)
            && (reply.body.Handle? ==> reply.body.fh == fs.nextFh && reply.body.fh in after.open
                                       && after.open[reply.body.fh] == req.path)
  {
    hide ParentOf, Overwrite, Resize, Slice, ListingOf, DoRemove, DoRename, DoCreate, DoWrite, Child;
    if !Faulty(env) {
      match req
      case Unlink(p) => RemoveKeeps(fs, p, env.now);
      case Rmdir(p) => RemoveKeeps(fs, p, env.now);
      case Rename(from, to) => RenameKeeps(fs, from, to, env.now);
      case Create(p, mode, trunc) => CreateKeeps(fs, p, mode, trunc, env.now);
      case Write(h, off, put) => WriteKeeps(fs, h, off, put, env.now);
      case _ =>
    }
  }

  lemma CreateKeeps(fs: Fs, p: string, mode: nat, trunc: bool, now: int)
    ensures var after, reply := DoCreate(fs, p, mode, trunc, now).0, DoCreate(fs, p, mode, trunc, now).1;
            && (forall q | IsFile(fs, q) :: IsFile(after, q))
            && if reply.body.Handle?
               then reply.body.fh == fs.nextFh && after.open == fs.open[fs.nextFh := p]
                    && after.nextFh == fs.nextFh + 1 && IsFile(after, p)
               else after == fs
  {
    hide ParentOf;
  }

  lemma WriteKeeps(fs: Fs, h: nat, off: nat, put: bytes, now: int)
    ensures var after, reply := DoWrite(fs, h, off, put, now).0, DoWrite(fs, h, off, put, now).1;
            && (forall q | IsFile(fs, q) :: IsFile(after, q))
            && !reply.body.Handle? && after.open == fs.open && after.nextFh == fs.nextFh
  {
    hide Overwrite;
  }

  lemma RemoveKeeps(fs: Fs, p: string, now: int)
    ensures var after := DoRemove(fs, p, now).0;
            && after.open == fs.open && after.nextFh == fs.nextFh
            && forall q | q != p && IsFile(fs, q) :: IsFile(after, q)
    ensures !DoRemove(fs, p, now).1.body.Handle?
  {
    hide ParentOf, Child;
  }

  lemma RenameKeeps(fs: Fs, from: string, to: string, now: int)
    ensures var after := DoRename(fs, from, to, now).0;
            && after.open == fs.open && after.nextFh == fs.nextFh
            && forall q | q != from && IsFile(fs, q) :: IsFile(after, q)
    ensures !DoRename(fs, from, to, now).1.body.Handle?
  {
    hide ParentOf;
  }

  // ---- the server as the cache sees it ---------------------------------------------

  class Remote {
    var fs: Fs
    var faults: nat     // requests that something outside made fail so far
    var requests: nat   // requests made so far

    constructor (initial: Fs)
      ensures fs == initial && faults == 0 && requests == 0
    {
      fs, faults, requests := initial, 0, 0;
    }

    method Request(req: Request) returns (reply: Reply, ghost env: Env)
      modifies this
      ensures (fs, reply) == Serve(old(fs), req, env)
      ensures faults == old(faults) + (if Fails(old(fs), req, env) then 1 else 0) && requests == old(requests) + 1
    {
      requests := requests + 1;
      var e: Env := *;
      if Fails(fs, req, e) {
        faults := faults + 1;
      }
      var answer := Serve(fs, req, e);
      fs, reply := answer.0, answer.1;
      env := e;
    }
  }
}
