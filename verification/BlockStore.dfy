/** The LRU block store of the RAM cache (client/src/fs/ram_cache.cpp:228-244, 417-479). */
module BlockStore {
  import opened Words

  type Path = string

  datatype Key = Key(path: Path, idx: nat)
  datatype Version = Version(size: nat, mtime: int)

  /** One cached block as an observer sees it. */
  datatype Entry = Entry(key: Key, version: Version, data: bytes, eof: bool)

  // ---- specification: a list of entries, most recently used first -------------

  function Bytes(es: seq<Entry>): nat {
    if es == [] then 0 else |es[0].data| + Bytes(es[1..])
  }

  predicate HasPath(es: seq<Entry>, path: Path) {
    exists i | 0 <= i < |es| :: es[i].key.path == path
  }

  predicate HasKey(es: seq<Entry>, k: Key) {
    exists i | 0 <= i < |es| :: es[i].key == k
  }

  function Without(es: seq<Entry>, k: Key): seq<Entry> {
    if es == [] then []
    else (if es[0].key == k then [] else [es[0]]) + Without(es[1..], k)
  }

  function Purge(es: seq<Entry>, path: Path): seq<Entry> {
    if es == [] then []
    else (if es[0].key.path == path then [] else [es[0]]) + Purge(es[1..], path)
  }

  function Find(es: seq<Entry>, k: Key): (e: Entry)
    requires HasKey(es, k)
    ensures e in es && e.key == k
  {
    if es[0].key == k then es[0] else
      assert forall i | 1 <= i < |es| :: es[i] == es[1..][i - 1];
      Find(es[1..], k)
  }

  /** Blocks of a file are only usable under the version they were stored with. */
  predicate Stale(es: seq<Entry>, path: Path, v: Version) {
    exists i | 0 <= i < |es| :: es[i].key.path == path && es[i].version != v
  }

  function Refresh(es: seq<Entry>, path: Path, v: Version): seq<Entry> {
    if Stale(es, path, v) then Purge(es, path) else es
  }

  /** A lookup drops a stale file; a hit moves to the front. */
  function AfterGet(es: seq<Entry>, path: Path, v: Version, idx: nat): seq<Entry> {
    var fresh_ := Refresh(es, path, v);
    var k := Key(path, idx);
    if HasKey(fresh_, k) then [Find(fresh_, k)] + Without(fresh_, k) else fresh_
  }

  /** Least recently used entries go first, and no more of them than needed. */
  function Evict(es: seq<Entry>, budget: nat): seq<Entry>
    decreases |es|
  {
    if Bytes(es) <= budget || es == [] then es else Evict(es[..|es| - 1], budget)
  }

  function AfterPut(es: seq<Entry>, e: Entry, budget: nat): seq<Entry> {
    var fresh_ := Refresh(es, e.key.path, e.version);
    if HasKey(fresh_, e.key) then fresh_ else Evict([e] + fresh_, budget)
  }

  // ---- what the specification means ------------------------------------------

  /** What eviction keeps: the longest run of most recently used entries that fits. */
  lemma {:induction false} EvictKeepsMostRecent(es: seq<Entry>, budget: nat)
    ensures Evict(es, budget) <= es
    ensures Bytes(Evict(es, budget)) <= budget
    ensures forall n | |Evict(es, budget)| < n <= |es| :: Bytes(es[..n]) > budget
    decreases |es|
  {
    if Bytes(es) <= budget || es == [] {
      assert es[..|es|] == es;
    } else {
      var s := es[..|es| - 1];
      EvictKeepsMostRecent(s, budget);
      forall n | |Evict(es, budget)| < n <= |es| ensures Bytes(es[..n]) > budget {
        if n == |es| {
          assert es[..n] == es;
        } else {
          assert es[..n] == s[..n];
        }
      }
    }
  }

  /** A new entry is the last to be evicted: it stays whenever it fits at all. */
  lemma NewestSurvives(es: seq<Entry>, e: Entry, budget: nat)
    requires |e.data| <= budget
    ensures Evict([e] + es, budget) != [] && Evict([e] + es, budget)[0] == e
  {
    var all := [e] + es;
    EvictKeepsMostRecent(all, budget);
    assert all[..1] == [e] && [e][1..] == [];
    assert Bytes(all[..1]) == |e.data|;
  }

  lemma {:induction false} PurgeMembers(es: seq<Entry>, path: Path)
    ensures forall e :: e in Purge(es, path) <==> e in es && e.key.path != path
    ensures !HasPath(Purge(es, path), path)
  {
    if es != [] {
      PurgeMembers(es[1..], path);
      assert forall e :: e in es <==> e == es[0] || e in es[1..];
    }
    var p := Purge(es, path);
    assert forall i | 0 <= i < |p| :: p[i] in p;
  }

  lemma {:induction false} WithoutMembers(es: seq<Entry>, k: Key)
    ensures forall e :: e in Without(es, k) <==> e in es && e.key != k
  {
    if es != [] {
      WithoutMembers(es[1..], k);
      assert forall e :: e in es <==> e == es[0] || e in es[1..];
    }
  }

  lemma RefreshMembers(es: seq<Entry>, path: Path, v: Version)
    ensures forall e | e in Refresh(es, path, v) :: e in es && (e.key.path == path ==> e.version == v)
  {
    PurgeMembers(es, path);
    forall e | e in es && !Stale(es, path, v) && e.key.path == path ensures e.version == v {
      var i :| 0 <= i < |es| && es[i] == e;
    }
  }

  /** A lookup adds nothing, and every block of the file it leaves has the asked version. */
  lemma GetMembers(es: seq<Entry>, path: Path, v: Version, idx: nat)
    ensures forall e | e in AfterGet(es, path, v, idx) :: e in es && (e.key.path == path ==> e.version == v)
  {
    var f := Refresh(es, path, v);
    RefreshMembers(es, path, v);
    WithoutMembers(f, Key(path, idx));
  }

  /** A lookup of the block under the version succeeds. */
  ghost predicate Held(es: seq<Entry>, path: Path, v: Version, idx: nat) {
    !Stale(es, path, v) && HasKey(es, Key(path, idx))
  }

  /** A lookup that succeeds leaves every other one as it was. */
  lemma HeldStill(es: seq<Entry>, path: Path, v: Version, idx: nat)
    requires Held(es, path, v, idx)
    ensures HasKey(AfterGet(es, path, v, idx), Key(path, idx))
    ensures forall j | Held(es, path, v, j) :: Held(AfterGet(es, path, v, idx), path, v, j)
  {
    var u, k := AfterGet(es, path, v, idx), Key(path, idx);
    GetMembers(es, path, v, idx);
    assert u == [Find(es, k)] + Without(es, k) && u[0].key == k;
    NotStale(u, path, v);
    hide Stale;
    forall j | Held(es, path, v, j) ensures HasKey(u, Key(path, j)) {
      if j != idx {
        KeyLeft(es, k, Key(path, j));
        var m :| 0 <= m < |Without(es, k)| && Without(es, k)[m].key == Key(path, j);
        assert u[m + 1].key == Key(path, j);
      }
    }
  }

  lemma NotStale(es: seq<Entry>, path: Path, v: Version)
    requires forall e | e in es :: e.key.path == path ==> e.version == v
    ensures !Stale(es, path, v)
  {}

  lemma KeyLeft(es: seq<Entry>, k: Key, q: Key)
    requires HasKey(es, q) && q != k
    ensures HasKey(Without(es, k), q)
  {
    WithoutMembers(es, k);
    var i :| 0 <= i < |es| && es[i].key == q;
    assert es[i] in Without(es, k);
  }

  // ---- least recently used ---------------------------------------------------

  /** When each block was used last. */
  type Uses = map<Key, nat>

  /** The entries come in the order of their last use, the latest first, all of them before a time. */
  ghost predicate ByLastUse(es: seq<Entry>, last: Uses, before: nat)
    decreases |es|
  {
    es == [] || (es[0].key in last && last[es[0].key] < before && ByLastUse(es[1..], last, last[es[0].key]))
  }

  /** What a lookup and an insertion use. */
  function UsedByGet(es: seq<Entry>, last: Uses, path: Path, v: Version, idx: nat, now: nat): Uses {
    if HasKey(Refresh(es, path, v), Key(path, idx)) then last[Key(path, idx) := now] else last
  }

  function UsedByPut(es: seq<Entry>, last: Uses, e: Entry, now: nat): Uses {
    if HasKey(Refresh(es, e.key.path, e.version), e.key) then last else last[e.key := now]
  }

  lemma {:induction false} UsedLater(es: seq<Entry>, last: Uses, before: nat, later: nat)
    requires ByLastUse(es, last, before) && before <= later
    ensures ByLastUse(es, last, later)
  {}

  lemma {:induction false} UsedElsewhere(es: seq<Entry>, last: Uses, before: nat, k: Key, now: nat)
    requires ByLastUse(es, last, before) && !HasKey(es, k)
    ensures ByLastUse(es, last[k := now], before)
    decreases |es|
  {
    if es != [] {
      assert es[0].key != k && forall i | 0 <= i < |es[1..]| :: es[1..][i] == es[i + 1];
      UsedElsewhere(es[1..], last, last[es[0].key], k, now);
    }
  }

  /** Leaving out blocks leaves the order of the others. */
  lemma {:induction false} PurgeByLastUse(es: seq<Entry>, last: Uses, before: nat, path: Path)
    requires ByLastUse(es, last, before)
    ensures ByLastUse(Purge(es, path), last, before)
    decreases |es|
  {
    if es != [] {
      var t := Purge(es[1..], path);
      PurgeByLastUse(es[1..], last, last[es[0].key], path);
      UsedLater(t, last, last[es[0].key], before);
      assert ([es[0]] + t)[1..] == t && [] + t == t;
    }
  }

  lemma {:induction false} WithoutByLastUse(es: seq<Entry>, last: Uses, before: nat, k: Key)
    requires ByLastUse(es, last, before)
    ensures ByLastUse(Without(es, k), last, before)
    decreases |es|
  {
    if es != [] {
      var t := Without(es[1..], k);
      WithoutByLastUse(es[1..], last, last[es[0].key], k);
      UsedLater(t, last, last[es[0].key], before);
      assert ([es[0]] + t)[1..] == t && [] + t == t;
    }
  }

  lemma KeyGone(es: seq<Entry>, k: Key)
    ensures !HasKey(Without(es, k), k)
  {
    WithoutMembers(es, k);
    assert forall i | 0 <= i < |Without(es, k)| :: Without(es, k)[i] in Without(es, k);
  }

  lemma {:induction false} AllUsedBefore(es: seq<Entry>, last: Uses, before: nat)
    requires ByLastUse(es, last, before)
    ensures forall x | x in es :: x.key in last && last[x.key] < before
    decreases |es|
  {
    if es != [] {
      AllUsedBefore(es[1..], last, last[es[0].key]);
      assert forall x | x in es :: x == es[0] || x in es[1..];
    }
  }

  /** The first blocks were used after all the others. */
  lemma {:induction false} FirstByLastUse(es: seq<Entry>, last: Uses, before: nat, n: nat)
    requires ByLastUse(es, last, before) && n <= |es|
    ensures ByLastUse(es[..n], last, before)
    ensures forall x, y | x in es[..n] && y in es[n..] ::
              x.key in last && y.key in last && last[x.key] > last[y.key]
    decreases |es|
  {
    if n > 0 {
      var t := es[1..];
      FirstByLastUse(t, last, last[es[0].key], n - 1);
      AllUsedBefore(t, last, last[es[0].key]);
      assert es[..n][1..] == t[..n - 1] && es[n..] == t[n - 1..];
      hide ByLastUse;
      assert forall x | x in es[..n] :: x == es[0] || x in t[..n - 1];
      assert forall y | y in t[n - 1..] :: y in t;
    }
  }

  /** A lookup keeps the entries in the order of their last use: a hit is the latest use of its block. */
  lemma GetByLastUse(es: seq<Entry>, last: Uses, now: nat, path: Path, v: Version, idx: nat)
    requires ByLastUse(es, last, now)
    ensures ByLastUse(AfterGet(es, path, v, idx), UsedByGet(es, last, path, v, idx, now), now + 1)
  {
    var f, k := Refresh(es, path, v), Key(path, idx);
    PurgeByLastUse(es, last, now, path);
    if HasKey(f, k) {
      WithoutByLastUse(f, last, now, k);
      KeyGone(f, k);
      UsedElsewhere(Without(f, k), last, now, k, now);
      assert ([Find(f, k)] + Without(f, k))[1..] == Without(f, k);
    } else {
      UsedLater(f, last, now, now + 1);
    }
  }

  /** So does an insertion, and every block it evicts was used before every block it keeps. */
  lemma PutByLastUse(es: seq<Entry>, last: Uses, now: nat, e: Entry, budget: nat)
    requires ByLastUse(es, last, now)
    ensures var u, used := AfterPut(es, e, budget), UsedByPut(es, last, e, now);
            && ByLastUse(u, used, now + 1)
            && forall x, y | x in u && y in Refresh(es, e.key.path, e.version) && y !in u ::
                 x.key in used && y.key in used && used[x.key] > used[y.key]
  {
    var f, used := Refresh(es, e.key.path, e.version), UsedByPut(es, last, e, now);
    PurgeByLastUse(es, last, now, e.key.path);
    if HasKey(f, e.key) {
      UsedLater(f, last, now, now + 1);
    } else {
      var all, u := [e] + f, Evict([e] + f, budget);
      UsedElsewhere(f, last, now, e.key, now);
      assert all[1..] == f;
      EvictKeepsMostRecent(all, budget);
      FirstByLastUse(all, used, now + 1, |u|);
      assert u == all[..|u|] && all == u + all[|u|..];
      assert forall y | y in f :: y in all;
    }
  }

  datatype Access = Lookup(path: Path, v: Version, idx: nat) | Insertion(e: Entry, budget: nat) | Forgetting(path: Path)

  function Accessed(es: seq<Entry>, a: Access): seq<Entry> {
    match a
    case Lookup(path, v, idx) => AfterGet(es, path, v, idx)
    case Insertion(e, budget) => AfterPut(es, e, budget)
    case Forgetting(path) => Purge(es, path)
  }

  function Used(es: seq<Entry>, last: Uses, a: Access, now: nat): Uses {
    match a
    case Lookup(path, v, idx) => UsedByGet(es, last, path, v, idx, now)
    case Insertion(e, _) => UsedByPut(es, last, e, now)
    case Forgetting(_) => last
  }

  /** The store and the times of last use after a run of accesses, one a tick. */
  function AllAccessed(es: seq<Entry>, last: Uses, now: nat, run: seq<Access>): (seq<Entry>, Uses)
    decreases |run|
  {
    if run == [] then (es, last)
    else AllAccessed(Accessed(es, run[0]), Used(es, last, run[0], now), now + 1, run[1..])
  }

  /** In every run, from an empty store or any other in that order, the blocks stay in the order of their last
      use. */
  lemma {:induction false} LeastRecentlyUsed(es: seq<Entry>, last: Uses, now: nat, run: seq<Access>)
    requires ByLastUse(es, last, now)
    ensures var after := AllAccessed(es, last, now, run);
            ByLastUse(after.0, after.1, now + |run|)
    decreases |run|
  {
    if run != [] {
      var a := run[0];
      match a {
        case Lookup(path, v, idx) => GetByLastUse(es, last, now, path, v, idx);
        case Insertion(e, budget) => PutByLastUse(es, last, now, e, budget);
        case Forgetting(path) =>
          PurgeByLastUse(es, last, now, path);
          UsedLater(Purge(es, path), last, now, now + 1);
      }
      hide ByLastUse, Accessed, Used;
      LeastRecentlyUsed(Accessed(es, a), Used(es, last, a, now), now + 1, run[1..]);
    }
  }

  /** An insertion adds at most the new block, and leaves no more bytes than the budget allows. */
  lemma PutMembers(es: seq<Entry>, e: Entry, budget: nat)
    ensures forall x | x in AfterPut(es, e, budget) :: x == e || x in es
    ensures !HasKey(Refresh(es, e.key.path, e.version), e.key) ==> Bytes(AfterPut(es, e, budget)) <= budget
  {
    var f := Refresh(es, e.key.path, e.version);
    RefreshMembers(es, e.key.path, e.version);
    EvictKeepsMostRecent([e] + f, budget);
  }

  // ---- the implementation ----------------------------------------------------

  /** A list node; the id is what an iterator to it denotes. */
  datatype Node = Node(id: nat, key: Key)
  datatype Block = Block(data: bytes, eof: bool, lru: nat)
  datatype FileBlocks = FileBlocks(size: nat, mtime: int, blocks: map<nat, Block>)

  type Files = map<Path, FileBlocks>

  /** One block with its version and its list node, as the two-level table records it. */
  datatype Cell = Cell(entry: Entry, lru: nat)

  type Cells = map<Key, Cell>

  ghost predicate Stored(files: Files, k: Key) {
    k.path in files && k.idx in files[k.path].blocks
  }

  ghost function CellAt(files: Files, k: Key): Cell
    requires Stored(files, k)
  {
    var f := files[k.path];
    var b := f.blocks[k.idx];
    Cell(Entry(k, Version(f.size, f.mtime), b.data, b.eof), b.lru)
  }

  /** The two-level table as one map. */
  ghost function Flat(files: Files): (c: Cells)
    ensures forall k :: k in c <==> Stored(files, k)
    ensures forall k | k in c :: c[k] == CellAt(files, k)
  {
    map p, i | p in files && i in files[p].blocks :: Key(p, i) := CellAt(files, Key(p, i))
  }

  ghost predicate NoEmptyFile(files: Files) {
    forall p | p in files :: files[p].blocks != map[]
  }

  /** List and table describe the same blocks: one node each, found through its iterator. */
  ghost predicate Linked(lru: seq<Node>, c: Cells, nextNode: nat) {
    && NodesFound(lru, c, nextNode)
    && OneNodeEach(lru)
    && BlocksListed(lru, c)
  }

  ghost predicate NodesFound(lru: seq<Node>, c: Cells, nextNode: nat) {
    forall n | n in lru :: n.id < nextNode && n.key in c && c[n.key].lru == n.id
  }

  ghost predicate OneNodeEach(lru: seq<Node>) {
    forall i, j | 0 <= i < j < |lru| :: lru[i].id != lru[j].id
  }

  ghost predicate BlocksListed(lru: seq<Node>, c: Cells) {
    forall k | k in c :: Node(c[k].lru, k) in lru && c[k].entry.key == k
  }

  ghost function View(lru: seq<Node>, c: Cells): (es: seq<Entry>)
    requires forall i | 0 <= i < |lru| :: lru[i].key in c
    ensures |es| == |lru|
    ensures forall i | 0 <= i < |lru| :: es[i] == c[lru[i].key].entry
  {
    seq(|lru|, i requires 0 <= i < |lru| => c[lru[i].key].entry)
  }

  ghost function Index(lru: seq<Node>, n: Node): (i: nat)
    requires n in lru
    ensures i < |lru| && lru[i] == n
  {
    var i: nat :| i < |lru| && lru[i] == n; i
  }

  /** list::erase of the node an iterator denotes. */
  function Erase(lru: seq<Node>, id: nat): seq<Node> {
    if lru == [] then []
    else if lru[0].id == id then lru[1..]
    else [lru[0]] + Erase(lru[1..], id)
  }

  lemma {:induction false} EraseAt(lru: seq<Node>, i: nat)
    requires i < |lru|
    requires forall j | 0 <= j < |lru| && j != i :: lru[j].id != lru[i].id
    ensures Erase(lru, lru[i].id) == lru[..i] + lru[i + 1..]
  {
    if i > 0 {
      var t := lru[1..];
      assert forall j | 0 <= j < |t| :: t[j] == lru[j + 1];
      EraseAt(t, i - 1);
      assert [lru[0]] + (t[..i - 1] + t[i..]) == lru[..i] + lru[i + 1..];
    }
  }

  lemma {:induction false} BytesAppend(a: seq<Entry>, b: seq<Entry>)
    ensures Bytes(a + b) == Bytes(a) + Bytes(b)
  {
    if a == [] {
      assert a + b == b;
    } else {
      assert (a + b)[1..] == a[1..] + b;
      BytesAppend(a[1..], b);
    }
  }

  lemma BytesWithout(es: seq<Entry>, i: nat)
    requires i < |es|
    ensures Bytes(es) == Bytes(es[..i] + es[i + 1..]) + |es[i].data|
  {
    BytesAppend(es[..i], es[i + 1..]);
    BytesAppend(es[..i], es[i..]);
    assert es == es[..i] + es[i..];
    assert es[i..][1..] == es[i + 1..];
  }

  /** Removing one key that occurs once. */
  lemma {:induction false} WithoutAt(es: seq<Entry>, i: nat)
    requires i < |es|
    requires forall j | 0 <= j < |es| && j != i :: es[j].key != es[i].key
    ensures Without(es, es[i].key) == es[..i] + es[i + 1..]
    ensures Find(es, es[i].key) == es[i]
  {
    var t := es[1..];
    assert forall j | 0 <= j < |t| :: t[j] == es[j + 1];
    if i == 0 {
      NothingWithout(t, es[0].key);
    } else {
      WithoutAt(t, i - 1);
      assert [es[0]] + (t[..i - 1] + t[i..]) == es[..i] + es[i + 1..];
    }
  }

  lemma {:induction false} NothingWithout(es: seq<Entry>, k: Key)
    requires forall j | 0 <= j < |es| :: es[j].key != k
    ensures Without(es, k) == es
  {
    if es != [] {
      assert forall j | 0 <= j < |es[1..]| :: es[1..][j] == es[j + 1];
      NothingWithout(es[1..], k);
      assert [es[0]] + es[1..] == es;
    }
  }

  lemma {:induction false} PurgeAppend(a: seq<Entry>, b: seq<Entry>, path: Path)
    ensures Purge(a + b, path) == Purge(a, path) + Purge(b, path)
  {
    if a == [] {
      assert a + b == b;
    } else {
      assert (a + b)[1..] == a[1..] + b;
      PurgeAppend(a[1..], b, path);
    }
  }

  /** Removing an entry of the path first makes no difference to a purge. */
  lemma PurgeSkips(es: seq<Entry>, i: nat)
    requires i < |es|
    ensures Purge(es[..i] + es[i + 1..], es[i].key.path) == Purge(es, es[i].key.path)
  {
    hide Purge;
    var path := es[i].key.path;
    var a, b, c := es[..i], es[i..], es[i + 1..];
    assert es == a + b;
    PurgeAppend(a, b, path);
    PurgeAppend(a, c, path);
    assert b[1..] == c && b[0] == es[i];
    PurgeFirst(b);
  }

  lemma PurgeFirst(es: seq<Entry>)
    requires es != []
    ensures Purge(es, es[0].key.path) == Purge(es[1..], es[0].key.path)
  {
    assert Purge(es, es[0].key.path) == [] + Purge(es[1..], es[0].key.path);
  }

  lemma {:induction false} PurgeNothing(es: seq<Entry>, path: Path)
    requires !HasPath(es, path)
    ensures Purge(es, path) == es
  {
    if es != [] {
      assert forall j | 0 <= j < |es[1..]| :: es[1..][j] == es[j + 1];
      PurgeNothing(es[1..], path);
      assert es[0].key.path != path;
      assert [es[0]] + es[1..] == es;
    }
  }

  // ---- table and list together -----------------------------------------------

  lemma DropLinked(lru: seq<Node>, c: Cells, next: nat, i: nat)
    requires Linked(lru, c, next) && i < |lru|
    ensures var k := lru[i].key;
            && Linked(lru[..i] + lru[i + 1..], c - {k}, next)
            && View(lru[..i] + lru[i + 1..], c - {k}) == View(lru, c)[..i] + View(lru, c)[i + 1..]
            && Erase(lru, c[k].lru) == lru[..i] + lru[i + 1..]
            && View(lru, c)[i] == c[k].entry && c[k].entry.key == k
            && (forall n | n in lru[..i] + lru[i + 1..] :: n.id != c[k].lru) && c[k].lru < next
            && Bytes(View(lru, c)) == Bytes(View(lru[..i] + lru[i + 1..], c - {k})) + |c[k].entry.data|
  {
    hide Erase, Bytes;
    var k := lru[i].key;
    var l, d := lru[..i] + lru[i + 1..], c - {k};
    NodesDropped(lru, c, next, i);
    hide Linked, View;
    LinkedListed(lru, c, next);
    LinkedListed(l, d, next);
    ViewWithout(lru, c, d, i);
    BytesWithout(View(lru, c), i);
  }

  lemma ViewWithout(lru: seq<Node>, c: Cells, d: Cells, i: nat)
    requires i < |lru| && ListedIn(lru, c) && ListedIn(lru[..i] + lru[i + 1..], d)
    requires forall k | k in d :: k in c && d[k] == c[k]
    ensures View(lru[..i] + lru[i + 1..], d) == View(lru, c)[..i] + View(lru, c)[i + 1..]
  {
    var l := lru[..i] + lru[i + 1..];
    assert forall j | 0 <= j < |l| :: l[j] == lru[if j < i then j else j + 1];
  }

  lemma NodesDropped(lru: seq<Node>, c: Cells, next: nat, i: nat)
    requires Linked(lru, c, next) && i < |lru|
    ensures var k, l := lru[i].key, lru[..i] + lru[i + 1..];
            && Linked(l, c - {k}, next)
            && Erase(lru, lru[i].id) == l
            && k in c && c[k].lru == lru[i].id && c[k].entry.key == k
            && (forall n | n in l :: n.id != lru[i].id) && lru[i].id < next
  {
    hide Erase;
    assert lru[i] in lru;
    EraseAt(lru, i);
    OthersRemain(lru, i);
    hide OneNodeEach;
  }

  /** Which nodes are left without the one at `i`. */
  lemma OthersRemain(lru: seq<Node>, i: nat)
    requires OneNodeEach(lru) && i < |lru|
    ensures OneNodeEach(lru[..i] + lru[i + 1..])
    ensures forall n :: n in lru[..i] + lru[i + 1..] <==> n in lru && n != lru[i]
    ensures forall n | n in lru && n != lru[i] :: n.id != lru[i].id
  {
    var l := lru[..i] + lru[i + 1..];
    forall n | n in lru && n != lru[i] ensures n in l && n.id != lru[i].id {
      var j := Index(lru, n);
      assert l[if j < i then j else j - 1] == lru[j];
    }
    forall n | n in l ensures n in lru && n != lru[i] {
      var j := Index(l, n);
      assert n == lru[if j < i then j else j + 1];
    }
    forall x, y | 0 <= x < y < |l| ensures l[x].id != l[y].id {
      assert l[x] == lru[if x < i then x else x + 1];
      assert l[y] == lru[if y < i then y else y + 1];
    }
  }

  lemma DistinctKeys(lru: seq<Node>, c: Cells, next: nat)
    requires Linked(lru, c, next)
    ensures forall i, j | 0 <= i < j < |lru| :: lru[i].key != lru[j].key
  {}

  /** Moving a node to the front. */
  lemma TouchLinked(lru: seq<Node>, c: Cells, next: nat, k: Key)
    requires Linked(lru, c, next) && k in c
    ensures var l := [Node(c[k].lru, k)] + Erase(lru, c[k].lru);
            && Linked(l, c, next)
            && HasKey(View(lru, c), k) && Find(View(lru, c), k) == c[k].entry
            && View(l, c) == [c[k].entry] + Without(View(lru, c), k)
            && Bytes(View(l, c)) == Bytes(View(lru, c))
  {
    hide Erase, Bytes, Without, Find, HasKey, Linked;
    var i := NodeOf(lru, c, next, k);
    LinkedListed(lru, c, next);
    var es, rest, d := View(lru, c), lru[..i] + lru[i + 1..], c - {k};
    DropLinked(lru, c, next, i);
    InsertLinked(rest, d, next, c[k].lru, next, k, c[k].entry);
    assert d[k := Cell(c[k].entry, c[k].lru)] == c;
    ViewKeys(lru, c, next);
    WithoutAt(es, i);
    assert HasKey(es, k) by { KeyAt(es, i); }
  }

  lemma KeyAt(es: seq<Entry>, i: nat)
    requires i < |es|
    ensures HasKey(es, es[i].key)
  {}

  lemma ViewKeys(lru: seq<Node>, c: Cells, next: nat)
    requires Linked(lru, c, next)
    ensures forall i | 0 <= i < |lru| :: View(lru, c)[i].key == lru[i].key
    ensures forall i, j | 0 <= i < j < |lru| :: View(lru, c)[i].key != View(lru, c)[j].key
  {
    DistinctKeys(lru, c, next);
  }

  lemma BytesFront(e: Entry, es: seq<Entry>)
    ensures Bytes([e] + es) == |e.data| + Bytes(es)
  {
    assert ([e] + es)[1..] == es;
  }

  /** A new block in front. */
  lemma InsertLinked(lru: seq<Node>, c: Cells, next: nat, id: nat, top: nat, k: Key, e: Entry)
    requires Linked(lru, c, next) && k !in c && e.key == k && id < top && next <= top
    requires forall n | n in lru :: n.id != id
    ensures var l, d := [Node(id, k)] + lru, c[k := Cell(e, id)];
            && Linked(l, d, top)
            && View(l, d) == [e] + View(lru, c)
            && Bytes(View(l, d)) == |e.data| + Bytes(View(lru, c))
  {
    hide Bytes;
    var l, d := [Node(id, k)] + lru, c[k := Cell(e, id)];
    NodeInserted(lru, c, next, id, top, k, e);
    LinkedListed(lru, c, next);
    LinkedListed(l, d, top);
    NewNode(lru, c, k);
    hide Linked;
    ViewFront(lru, c, id, k, e);
    BytesFront(e, View(lru, c));
  }

  lemma NewNode(lru: seq<Node>, c: Cells, k: Key)
    requires ListedIn(lru, c) && k !in c
    ensures forall i | 0 <= i < |lru| :: lru[i].key != k
  {}

  lemma ViewFront(lru: seq<Node>, c: Cells, id: nat, k: Key, e: Entry)
    requires ListedIn(lru, c) && forall i | 0 <= i < |lru| :: lru[i].key != k
    requires ListedIn([Node(id, k)] + lru, c[k := Cell(e, id)])
    ensures View([Node(id, k)] + lru, c[k := Cell(e, id)]) == [e] + View(lru, c)
  {
    var l := [Node(id, k)] + lru;
    assert forall j | 0 < j < |l| :: l[j] == lru[j - 1];
  }

  lemma NodeInserted(lru: seq<Node>, c: Cells, next: nat, id: nat, top: nat, k: Key, e: Entry)
    requires Linked(lru, c, next) && k !in c && e.key == k && id < top && next <= top
    requires forall n | n in lru :: n.id != id
    ensures Linked([Node(id, k)] + lru, c[k := Cell(e, id)], top)
  {
    var l := [Node(id, k)] + lru;
    assert l[0] == Node(id, k) && forall j | 0 < j < |l| :: l[j] == lru[j - 1] && l[j] in lru;
    assert forall n :: n in l <==> n in lru || n == Node(id, k);
  }

  /** The list of entries answers the questions the code asks the table. */
  lemma ViewAnswers(lru: seq<Node>, files: Files, next: nat, path: Path)
    requires Linked(lru, Flat(files), next) && NoEmptyFile(files)
    ensures HasPath(View(lru, Flat(files)), path) <==> path in files
    ensures forall idx :: HasKey(View(lru, Flat(files)), Key(path, idx)) <==> Stored(files, Key(path, idx))
    ensures path in files ==> forall v ::
              Stale(View(lru, Flat(files)), path, v) <==> v != Version(files[path].size, files[path].mtime)
    ensures path !in files ==> forall v :: !Stale(View(lru, Flat(files)), path, v)
  {
    hide Flat;
    EntriesAre(lru, files, next);
    hide Linked, View;
    var es := View(lru, Flat(files));
    forall idx ensures HasKey(es, Key(path, idx)) <==> Stored(files, Key(path, idx)) {
      var k := Key(path, idx);
      if HasKey(es, k) {
        var i :| 0 <= i < |es| && es[i].key == k;
      }
    }
    if path in files {
      var x :| x in files[path].blocks;
      assert HasKey(es, Key(path, x));
      var i :| 0 <= i < |es| && es[i].key == Key(path, x);
    }
  }

  lemma EntriesAre(lru: seq<Node>, files: Files, next: nat)
    requires Linked(lru, Flat(files), next)
    ensures ListedIn(lru, Flat(files))
    ensures forall i | 0 <= i < |lru| ::
              var e := View(lru, Flat(files))[i];
              Stored(files, e.key) && e.version == Version(files[e.key.path].size, files[e.key.path].mtime)
    ensures forall k | Stored(files, k) :: HasKey(View(lru, Flat(files)), k)
  {
    hide Flat;
    var c := Flat(files);
    var es := View(lru, c);
    forall i | 0 <= i < |lru|
      ensures Stored(files, es[i].key)
      ensures es[i].version == Version(files[es[i].key.path].size, files[es[i].key.path].mtime)
    {
      assert lru[i] in lru && es[i] == c[lru[i].key].entry;
    }
    forall k | Stored(files, k) ensures HasKey(es, k) {
      assert k in c;
      var i := Index(lru, Node(c[k].lru, k));
      assert es[i].key == k;
    }
  }

  /** A block leaves its file; an emptied file leaves the table. */
  function DropBlock(files: Files, k: Key): Files
    requires k.path in files && k.idx in files[k.path].blocks
  {
    var f := files[k.path];
    var rest := f.blocks - {k.idx};
    if rest == map[] then files - {k.path} else files[k.path := f.(blocks := rest)]
  }

  lemma FlatDrop(files: Files, k: Key)
    requires Stored(files, k) && NoEmptyFile(files)
    ensures Flat(DropBlock(files, k)) == Flat(files) - {k} && NoEmptyFile(DropBlock(files, k))
  {
    hide Flat;
    var g := DropBlock(files, k);
    var rest := files[k.path].blocks - {k.idx};
    forall x: Key ensures Stored(g, x) <==> Stored(files, x) && x != k {
      if x.path == k.path && rest == map[] && x != k {
        assert x.idx !in rest;
      }
    }
    forall x: Key | Stored(g, x) ensures CellAt(g, x) == CellAt(files, x) {}
    FlatIs(g, Flat(files) - {k});
  }

  lemma FlatIs(files: Files, c: Cells)
    requires forall k :: k in c <==> Stored(files, k)
    requires forall k | k in c :: c[k] == CellAt(files, k)
    ensures Flat(files) == c
  {
    hide *;
  }

  lemma FlatInsert(files: Files, k: Key, v: Version, b: Block)
    requires NoEmptyFile(files)
    requires k.path in files ==> Version(files[k.path].size, files[k.path].mtime) == v
    ensures var blocks := (if k.path in files then files[k.path].blocks else map[])[k.idx := b];
            var g := files[k.path := FileBlocks(v.size, v.mtime, blocks)];
            && Flat(g) == Flat(files)[k := Cell(Entry(k, v, b.data, b.eof), b.lru)]
            && NoEmptyFile(g)
  {
    var blocks := (if k.path in files then files[k.path].blocks else map[])[k.idx := b];
    var g := files[k.path := FileBlocks(v.size, v.mtime, blocks)];
    assert k.idx in blocks;
    hide Flat;
    forall x: Key ensures Stored(g, x) <==> Stored(files, x) || x == k {}
    forall x: Key | Stored(g, x) && x != k ensures CellAt(g, x) == CellAt(files, x) {}
    FlatIs(g, Flat(files)[k := Cell(Entry(k, v, b.data, b.eof), b.lru)]);
  }

  /** The cells that remain while only the blocks in `todo` of a path are still to be purged. */
  ghost function Remaining(c: Cells, path: Path, todo: set<nat>): Cells {
    map k | k in c && (k.path == path ==> k.idx in todo) :: c[k]
  }

  lemma FlatWithoutFile(files: Files, path: Path)
    requires path in files && NoEmptyFile(files)
    ensures Flat(files - {path}) == Remaining(Flat(files), path, {}) && NoEmptyFile(files - {path})
    ensures Flat(files) == Remaining(Flat(files), path, files[path].blocks.Keys)
  {
    hide Flat;
    var g := files - {path};
    forall x: Key ensures Stored(g, x) <==> Stored(files, x) && x.path != path {}
    forall x: Key | Stored(g, x) ensures CellAt(g, x) == CellAt(files, x) {}
    FlatIs(g, Remaining(Flat(files), path, {}));
    FlatIs(files, Remaining(Flat(files), path, files[path].blocks.Keys));
  }

  lemma RemainingStep(c: Cells, path: Path, todo: set<nat>, idx: nat)
    requires Key(path, idx) in c && idx in todo
    ensures Key(path, idx) in Remaining(c, path, todo)
    ensures Remaining(c, path, todo) - {Key(path, idx)} == Remaining(c, path, todo - {idx})
  {}

  class Store {
    var files: Files
    var lru: seq<Node>   // front = most recently used
    var curBytes: nat
    var nextNode: nat

    ghost predicate Valid()
      reads this
    {
      && NoEmptyFile(files) && Linked(lru, Flat(files), nextNode)
      && curBytes == Bytes(View(lru, Flat(files)))
    }

    /** The store as a list of entries, most recently used first. */
    ghost function Entries(): seq<Entry>
      requires Valid()
      reads this
    {
      View(lru, Flat(files))
    }

    constructor ()
      ensures Valid() && Entries() == []
    {
      files, lru, curBytes, nextNode := map[], [], 0, 0;
    }

    /** Drops every block of a file; the byte count never underflows. */
    method PurgeFileLocked(path: Path)
      requires Valid()
      modifies this
      ensures Valid() && Entries() == Purge(old(Entries()), path)
    {
      hide Purge, Bytes, Erase, Flat, View, Stale, HasKey, OneNodeEach, NodesFound, BlocksListed;
      ViewAnswers(lru, files, nextNode, path);
      if path !in files {
        PurgeNothing(Entries(), path);
        return;
      }
      PurgeBlocks(path, Flat(files));
      FlatWithoutFile(files, path);
      files := files - {path};
      LinkedListed(lru, Flat(files), nextNode);
      ViewAnswers(lru, files, nextNode, path);
      PurgeNothing(View(lru, Flat(files)), path);
    }

    /** The loop over the blocks of the file; the file itself is erased by the caller. */
    method PurgeBlocks(path: Path, ghost all: Cells)
      requires path in files && Valid() && all == Flat(files)
      modifies `lru, `curBytes
      ensures Linked(lru, Remaining(all, path, {}), nextNode)
      ensures curBytes == Bytes(View(lru, Remaining(all, path, {})))
      ensures Purge(View(lru, Remaining(all, path, {})), path) == Purge(old(View(lru, all)), path)
    {
      hide Linked, Purge, Bytes, Erase, Remaining, Flat, NoEmptyFile;
      var todo := files[path].blocks.Keys;
      ghost var c := all;
      FlatWithoutFile(files, path);
      LinkedListed(lru, c, nextNode);
      while todo != {}
        invariant todo <= files[path].blocks.Keys
        invariant c == Remaining(all, path, todo) && Linked(lru, c, nextNode)
        invariant ListedIn(lru, c)
        invariant curBytes == Bytes(View(lru, c))
        invariant Purge(View(lru, c), path) == Purge(old(View(lru, all)), path)
        decreases |todo|
      {
        var idx :| idx in todo;
        var b := files[path].blocks[idx];
        ghost var k := Key(path, idx);
        assert all[k] == CellAt(files, k);
        RemainingStep(all, path, todo, idx);
        RemainingSame(all, path, todo, k);
        ghost var i := NodeOf(lru, c, nextNode, k);
        DropLinked(lru, c, nextNode, i);
        PurgeSkips(View(lru, c), i);
        curBytes := curBytes - |b.data|;
        lru := Erase(lru, b.lru);
        c := c - {k};
        todo := todo - {idx};
        LinkedListed(lru, c, nextNode);
      }
    }

    /** Drops list tails until the byte count fits. */
    method EvictToBudgetLocked(budget: nat)
      requires Valid()
      modifies this
      ensures Valid() && Entries() == Evict(old(Entries()), budget)
    {
      hide Linked, Bytes, Erase, Flat, NoEmptyFile;
      LinkedListed(lru, Flat(files), nextNode);
      while curBytes > budget && lru != []
        invariant Valid()
        invariant Evict(Entries(), budget) == Evict(old(Entries()), budget)
        decreases |lru|
      {
        LinkedListed(lru, Flat(files), nextNode);
        ghost var es := Entries();
        DropLast();
        assert es[..|es| - 1] == Entries();
      }
    }

    method DropLast()
      requires Valid() && lru != []
      modifies this
      ensures Valid() && |lru| == old(|lru|) - 1 && Entries() == old(Entries()[..|lru| - 1])
    {
      hide Linked, Bytes, Erase;
      ghost var i, c := |lru| - 1, Flat(files);
      var key := lru[|lru| - 1].key;
      LinkedListed(lru, c, nextNode);
      DropLinked(lru, c, nextNode, i);
      assert lru[..i] + lru[i + 1..] == lru[..i];
      assert View(lru, c)[..i] + View(lru, c)[i + 1..] == View(lru, c)[..i];
      assert Stored(files, key) && c[key] == CellAt(files, key);
      FlatDrop(files, key);
      if key.path in files {
        var f := files[key.path];
        if key.idx in f.blocks {
          curBytes := curBytes - |f.blocks[key.idx].data|;
          var rest := f.blocks - {key.idx};
          files := if rest == map[] then files - {key.path} else files[key.path := f.(blocks := rest)];
        }
      }
      lru := lru[..|lru| - 1];
    }

    /** A hit returns the stored block and makes it the most recent; a version mismatch drops the file. */
    method BlockGetLocked(path: Path, size: nat, mtime: int, idx: nat)
      returns (hit: bool, data: bytes, eof: bool)
      requires Valid()
      modifies this
      ensures Valid()
      ensures Entries() == AfterGet(old(Entries()), path, Version(size, mtime), idx)
      ensures hit <==> HasKey(Entries(), Key(path, idx))
      ensures hit ==> Entries() != [] && Entries()[0] == Entry(Key(path, idx), Version(size, mtime), data, eof)
    {
      hide Purge, Without, Bytes, Find, Linked, Erase, NoEmptyFile;
      ghost var k, v := Key(path, idx), Version(size, mtime);
      ghost var before := Entries();
      ViewAnswers(lru, files, nextNode, path);
      if path !in files {
        return false, [], false;
      }
      var f := files[path];
      if f.size != size || f.mtime != mtime {
        PurgeFileLocked(path);
        PurgeMembers(before, path);
        return false, [], false;
      }
      if idx !in f.blocks {
        return false, [], false;
      }
      var b := f.blocks[idx];
      assert Flat(files)[k] == CellAt(files, k);
      TouchLinked(lru, Flat(files), nextNode, k);
      lru := [Node(b.lru, Key(path, idx))] + Erase(lru, b.lru);
      assert Entries()[0].key == k;
      return true, b.data, b.eof;
    }

    /** Stores a block under a version unless it is there already, then evicts down to the budget. */
    method BlockPutLocked(path: Path, size: nat, mtime: int, idx: nat, data: bytes, eof: bool, budget: nat)
      requires Valid()
      modifies this
      ensures Valid()
      ensures Entries() == AfterPut(old(Entries()), Entry(Key(path, idx), Version(size, mtime), data, eof), budget)
    {
      hide Purge, Evict, Find, Linked, NoEmptyFile, Bytes;
      ghost var v := Version(size, mtime);
      ghost var before := Entries();
      ViewAnswers(lru, files, nextNode, path);
      if path in files && (files[path].size != size || files[path].mtime != mtime) {
        PurgeFileLocked(path);
        PurgeMembers(before, path);
        ViewAnswers(lru, files, nextNode, path);
      }
      assert Entries() == Refresh(before, path, v);
      var present := path in files && idx in files[path].blocks;
      if present {
        return;
      }
      Insert(path, size, mtime, idx, data, eof);
      EvictToBudgetLocked(budget);
    }

    method Insert(path: Path, size: nat, mtime: int, idx: nat, data: bytes, eof: bool)
      requires Valid() && !Stored(files, Key(path, idx))
      requires path in files ==> files[path].size == size && files[path].mtime == mtime
      modifies this
      ensures Valid()
      ensures Entries() == [Entry(Key(path, idx), Version(size, mtime), data, eof)] + old(Entries())
    {
      hide Linked, Bytes, NoEmptyFile;
      ghost var k, v := Key(path, idx), Version(size, mtime);
      IdsBelow(lru, Flat(files), nextNode);
      InsertLinked(lru, Flat(files), nextNode, nextNode, nextNode + 1, k, Entry(k, v, data, eof));
      FlatInsert(files, k, v, Block(data, eof, nextNode));
      var blocks := if path in files then files[path].blocks else map[];
      lru := [Node(nextNode, Key(path, idx))] + lru;
      curBytes := curBytes + |data|;
      files := files[path := FileBlocks(size, mtime, blocks[idx := Block(data, eof, nextNode)])];
      nextNode := nextNode + 1;
    }
  }

  ghost predicate ListedIn(lru: seq<Node>, c: Cells) {
    forall i | 0 <= i < |lru| :: lru[i].key in c
  }

  lemma LinkedListed(lru: seq<Node>, c: Cells, next: nat)
    requires Linked(lru, c, next)
    ensures ListedIn(lru, c)
  {}

  lemma IdsBelow(lru: seq<Node>, c: Cells, next: nat)
    requires Linked(lru, c, next)
    ensures forall n | n in lru :: n.id < next
  {}

  lemma RemainingSame(c: Cells, path: Path, todo: set<nat>, k: Key)
    requires k in Remaining(c, path, todo)
    ensures k in c && Remaining(c, path, todo)[k] == c[k]
  {}

  lemma NodeOf(lru: seq<Node>, c: Cells, next: nat, k: Key) returns (i: nat)
    requires Linked(lru, c, next) && k in c
    ensures i < |lru| && lru[i].key == k && lru[i].id == c[k].lru
  {
    i := Index(lru, Node(c[k].lru, k));
  }
}
