/** Remote files over a data channel (client/src/clients/web_compat.cpp:553-566, 690-747, 762-777,
    981-1109, 1378-1519): binary frames, ranged downloads, chunked uploads and buffered handles. */
module WebFiles {
  import opened Words
  import R = RemoteFs

  const CHUNK: nat := 65536
  const BIN_MAGIC: u32 := 0x4642494e
  const EIO: nat := 5
  const EBADF: nat := 9
  const ENOENT: nat := 2

  // ---- frames ------------------------------------------------------------------------

  function BigEndian(v: nat): (b: bytes)
    ensures |b| == 4
  {
    [v / 0x100_0000 % 256, v / 0x1_0000 % 256, v / 0x100 % 256, v % 256]
  }

  function FromBigEndian(b: bytes, i: nat): u32
    requires i + 4 <= |b|
  {
    b[i] as int * 0x100_0000 + b[i + 1] as int * 0x1_0000 + b[i + 2] as int * 0x100 + b[i + 3] as int
  }

  /** A piece of the transfer with a number. */
  datatype Frame = Frame(id: u32, payload: bytes)

  function MakeFrame(f: Frame): (b: bytes)
    ensures |b| == 8 + |f.payload|
  {
    BigEndian(BIN_MAGIC) + BigEndian(f.id) + f.payload
  }

  /** Anything too short or without the magic is not a frame. */
  function ParseFrame(b: bytes): Option<Frame> {
    if |b| < 8 || FromBigEndian(b, 0) != BIN_MAGIC then None else Some(Frame(FromBigEndian(b, 4), b[8..]))
  }

  lemma BigEndianRoundTrip(v: u32, pre: bytes, post: bytes)
    ensures FromBigEndian(pre + BigEndian(v) + post, |pre|) == v
  {
    var b := pre + BigEndian(v) + post;
    var d := BigEndian(v);
    assert b[|pre|] == d[0] && b[|pre| + 1] == d[1] && b[|pre| + 2] == d[2] && b[|pre| + 3] == d[3];
    Digits(v);
  }

  lemma Digits(v: u32)
    ensures v / 0x100_0000 % 256 * 0x100_0000 + v / 0x1_0000 % 256 * 0x1_0000 + v / 0x100 % 256 * 0x100 + v % 256 == v
  {}

  lemma FrameRoundTrip(f: Frame)
    ensures ParseFrame(MakeFrame(f)) == Some(f)
  {
    hide BigEndian, FromBigEndian;
    var b := MakeFrame(f);
    assert b == [] + BigEndian(BIN_MAGIC) + (BigEndian(f.id) + f.payload);
    BigEndianRoundTrip(BIN_MAGIC, [], BigEndian(f.id) + f.payload);
    BigEndianRoundTrip(f.id, BigEndian(BIN_MAGIC), f.payload);
    assert b[8..] == f.payload;
  }

  // ---- transfers -----------------------------------------------------------------------

  /** Consecutive frames of at most one chunk each. */
  function Chunks(id: u32, data: bytes): seq<bytes>
    decreases |data|
  {
    if data == [] then []
    else
      var n := Min(CHUNK, |data|);
      [MakeFrame(Frame(id, data[..n]))] + Chunks(id, data[n..])
  }

  predicate IsFor(b: bytes, id: u32) { ParseFrame(b).Some? && ParseFrame(b).value.id == id }

  /** What the frames of one transfer add up to, whatever else arrives between them. */
  function Gather(msgs: seq<bytes>, id: u32): bytes
    decreases |msgs|
  {
    if msgs == [] then []
    else
      var last := msgs[|msgs| - 1];
      Gather(msgs[..|msgs| - 1], id) + (if IsFor(last, id) then ParseFrame(last).value.payload else [])
  }

  /** The messages of one transfer, in their order of arrival. */
  function Only(msgs: seq<bytes>, id: u32): seq<bytes>
    decreases |msgs|
  {
    if msgs == [] then []
    else
      var last := msgs[|msgs| - 1];
      Only(msgs[..|msgs| - 1], id) + (if IsFor(last, id) then [last] else [])
  }

  lemma {:induction false} GatherOnly(msgs: seq<bytes>, id: u32)
    ensures Gather(msgs, id) == Gather(Only(msgs, id), id)
    decreases |msgs|
  {
    hide ParseFrame;
    if msgs != [] {
      var init, last := msgs[..|msgs| - 1], msgs[|msgs| - 1];
      GatherOnly(init, id);
      if IsFor(last, id) {
        assert (Only(init, id) + [last])[..|Only(init, id)|] == Only(init, id);
      } else {
        assert Only(init, id) + [] == Only(init, id);
      }
    }
  }

  lemma {:induction false} GatherAppend(a: seq<bytes>, b: seq<bytes>, id: u32)
    ensures Gather(a + b, id) == Gather(a, id) + Gather(b, id)
    decreases |b|
  {
    hide ParseFrame;
    if b == [] {
      assert a + b == a;
    } else {
      var n := |b| - 1;
      assert (a + b)[..|a| + n] == a + b[..n] && (a + b)[|a| + n] == b[n];
      GatherAppend(a, b[..n], id);
    }
  }

  lemma {:induction false} GatherChunks(id: u32, data: bytes)
    ensures Gather(Chunks(id, data), id) == data
    decreases |data|
  {
    hide ParseFrame, MakeFrame;
    if data != [] {
      var n := Min(CHUNK, |data|);
      var f := Frame(id, data[..n]);
      FrameRoundTrip(f);
      GatherAppend([MakeFrame(f)], Chunks(id, data[n..]), id);
      GatherChunks(id, data[n..]);
      assert [MakeFrame(f)][..0] == [];
      assert Gather([MakeFrame(f)], id) == [] + data[..n];
      assert data[..n] + data[n..] == data;
    }
  }

  /** A transfer arrives whole and in order, with frames of other transfers anywhere between. */
  lemma TransferRoundTrip(id: u32, data: bytes, msgs: seq<bytes>)
    requires Only(msgs, id) == Chunks(id, data)
    ensures Gather(msgs, id) == data
  {
    GatherOnly(msgs, id);
    GatherChunks(id, data);
  }

  // ---- the host --------------------------------------------------------------------------

  datatype Range = Whole | From(offset: nat, length: nat)

  function RangeOf(data: bytes, r: Range): bytes {
    match r
    case Whole => data
    case From(offset, length) =>
      var lo := Min(offset, |data|);
      data[lo..lo + Min(|data| - lo, length)]
  }

  /** A ranged download is the slice a read asks for. */
  lemma RangeIsSlice(data: bytes, offset: nat, length: nat)
    ensures RangeOf(data, From(offset, length)) == R.Slice(data, offset, length)
  {}

  class Host {
    var files: map<string, bytes>
    var uploads: map<u32, string>    // open output files

    /** An open output file exists. */
    ghost predicate Valid()
      reads this
    {
      forall id | id in uploads :: uploads[id] in files
    }

    constructor (initial: map<string, bytes>)
      ensures Valid() && files == initial && uploads == map[]
    {
      files, uploads := initial, map[];
    }

    /** The frames a download sends, chunk by chunk. */
    method Download(id: u32, path: string, r: Range) returns (ok: bool, msgs: seq<bytes>)
      ensures ok <==> path in files
      ensures ok ==> msgs == Chunks(id, RangeOf(files[path], r))
    {
      hide MakeFrame;
      if path !in files {
        return false, [];
      }
      ok, msgs := true, [];
      var left := RangeOf(files[path], r);
      while left != []
        invariant msgs + Chunks(id, left) == Chunks(id, RangeOf(files[path], r))
        decreases |left|
      {
        var n := Min(CHUNK, |left|);
        var frame := MakeFrame(Frame(id, left[..n]));
        assert msgs + ([frame] + Chunks(id, left[n..])) == (msgs + [frame]) + Chunks(id, left[n..]);
        msgs := msgs + [frame];
        left := left[n..];
      }
      assert msgs + [] == msgs;
    }

    /** Opens the file for writing and empties it. */
    method UploadStart(id: u32, path: string)
      requires Valid()
      modifies this
      ensures Valid() && files == old(files)[path := []] && uploads == old(uploads)[id := path]
    {
      files := files[path := []];
      uploads := uploads[id := path];
    }

    /** A frame of a running upload is appended to its file; anything else is dropped. */
    method OnBinary(b: bytes)
      requires Valid()
      modifies `files
      ensures Valid() && files.Keys == old(files).Keys
      ensures forall p | p in files ::
                files[p] == old(files)[p] + (if ParseFrame(b).Some? && ParseFrame(b).value.id in uploads
                                                && uploads[ParseFrame(b).value.id] == p
                                             then ParseFrame(b).value.payload else [])
    {
      hide FromBigEndian;
      if |b| < 8 || FromBigEndian(b, 0) != BIN_MAGIC {
        return;
      }
      var id := FromBigEndian(b, 4);
      if id !in uploads {
        return;
      }
      var p := uploads[id];
      ghost var was := files[p];
      for i := 8 to |b|
        invariant files.Keys == old(files).Keys && files[p] == was + b[8..i]
        invariant forall q | q in files && q != p :: files[q] == old(files)[q]
      {
        files := files[p := files[p] + [b[i]]];
      }
      assert b[8..|b|] == b[8..];
    }

    method UploadEnd(id: u32)
      requires Valid()
      modifies `uploads
      ensures Valid() && uploads == old(uploads) - {id}
    {
      uploads := uploads - {id};
    }
  }

  // ---- handles -----------------------------------------------------------------------------

  datatype Fh = Fh(path: string, data: bytes, loaded: bool, dirty: bool)

  /** The file as a handle shows it: its buffer once it has one, the host's file before. */
  function Contents(files: map<string, bytes>, f: Fh): bytes {
    if f.loaded then f.data else if f.path in files then files[f.path] else []
  }

  /** A write into the buffer, which grows with zeros to the end of the written part. */
  function Put(data: bytes, off: nat, put: bytes): bytes {
    var base := if |data| < off + |put| then data + Zeros(off + |put| - |data|) else data;
    base[..off] + put + base[off + |put|..]
  }

  /** Byte by byte: what was put, else what was there, else zero. */
  lemma PutAt(data: bytes, off: nat, put: bytes, i: nat)
    requires i < |Put(data, off, put)|
    ensures |Put(data, off, put)| == if |data| < off + |put| then off + |put| else |data|
    ensures Put(data, off, put)[i] ==
              if off <= i < off + |put| then put[i - off] else if i < |data| then data[i] else 0
  {}

  /** It is the write of a plain file, except that an empty write past the end makes the file longer. */
  lemma PutIsOverwrite(data: bytes, off: nat, put: bytes)
    ensures Put(data, off, put) == R.Overwrite(data, off, put) <==> put != [] || off <= |data|
  {
    if put != [] {
      var end := off + |put|;
      var a, b := Put(data, off, put), R.Overwrite(data, off, put);
      assert |a| == |b| == if |data| < end then end else |data|;
      forall i | 0 <= i < |a| ensures a[i] == b[i] {}
      assert a == b;
    } else if off <= |data| {
      assert data[..off] + [] + data[off..] == data;
    } else {
      assert |Put(data, off, put)| == off;
    }
  }

  /** Resizing a buffer truncates it or fills it with zeros. */
  ghost predicate TruncateSeen(files: map<string, bytes>, after: map<string, bytes>, f: Fh, size: nat) {
    Contents(after, f) == R.Resize(Contents(files, f), size)
  }

  /** A truncation by path goes to the host past the buffer of an open handle: the handle shows it
      exactly when it has no buffer yet, or one of that size. */
  lemma TruncateUnderHandle(files: map<string, bytes>, f: Fh, size: nat)
    requires f.path in files
    ensures var after := files[f.path := R.Resize(files[f.path], size)];
            TruncateSeen(files, after, f, size) <==> !f.loaded || |f.data| == size
  {}

  datatype Probe = Found | Missing | Lost   // the answer to a lookup of a path, or none

  /** What a handle with a buffer shows after a write into the buffer. */
  lemma Buffered(files: map<string, bytes>, f: Fh, off: nat, put: bytes, data: bytes)
    requires f.loaded
    requires var base := if |f.data| < off + |put| then f.data + Zeros(off + |put| - |f.data|) else f.data;
             data == base[..off] + put + base[off + |put|..]
    ensures var g := f.(data := data, dirty := true, loaded := true);
            Clean(files, g) && Contents(files, g) == Put(Contents(files, f), off, put)
  {}

  class Client {
    const host: Host
    var fhs: map<nat, Fh>
    var nextFh: nat
    var nextId: u32
    var canRange: bool
    ghost var losses: nat     // answers and frames the link has lost, and uploads refused

    /** One handle to a file; a buffer that is not dirty is what the host has. */
    ghost predicate Valid()
      reads this, host
    {
      && (forall h | h in fhs :: h < nextFh && Clean(host.files, fhs[h]))
      && (forall g, h | g in fhs && h in fhs && fhs[g].path == fhs[h].path :: g == h)
      && host.Valid()
    }

    /** What a handle shows. */
    ghost function Shown(h: nat): bytes
      requires h in fhs
      reads this, host
    {
      Contents(host.files, fhs[h])
    }

    constructor (h: Host, ranges: bool)
      requires h.Valid()
      ensures Valid() && host == h && fhs == map[] && canRange == ranges
    {
      host, canRange := h, ranges;
      fhs, nextFh, nextId, losses := map[], 1, 100, 0;
    }

    /** The number of the next transfer; a 32-bit counter. */
    method NewId() returns (id: u32)
      modifies `nextId
      ensures id == old(nextId) && nextId == (id + 1) % 0x1_0000_0000
    {
      id := nextId;
      nextId := (nextId + 1) % 0x1_0000_0000;
    }

    /** Whether the link loses something. */
    method Loses() returns (lost: bool)
      modifies `losses
      ensures losses == old(losses) + if lost then 1 else 0
    {
      lost := *;
      if lost {
        losses := losses + 1;
      }
    }

    /** A download of a file or a part of it: it fails exactly if there is no such file or the link loses it. */
    method Fetch(path: string, r: Range) returns (status: nat, data: bytes)
      modifies `nextId, `losses
      ensures losses >= old(losses) && (status == 0 <==> path in host.files && losses == old(losses))
      ensures status == 0 ==> data == RangeOf(host.files[path], r)
      ensures status == 0 || status == EIO
    {
      var id := NewId();
      var ok, msgs := host.Download(id, path, r);
      var lost := Loses();
      if !ok || lost {
        return EIO, [];
      }
      GatherChunks(id, RangeOf(host.files[path], r));
      data := [];
      for i := 0 to |msgs|
        invariant data == Gather(msgs[..i], id)
      {
        data := data + Received(msgs, i, id);
      }
      assert msgs[..|msgs|] == msgs;
      status := 0;
    }

    /** The payload of one message, if it belongs to the transfer. */
    function Received(msgs: seq<bytes>, i: nat, id: u32): (p: bytes)
      requires i < |msgs|
      ensures Gather(msgs[..i + 1], id) == Gather(msgs[..i], id) + p
    {
      assert msgs[..i + 1][..i] == msgs[..i];
      if IsFor(msgs[i], id) then ParseFrame(msgs[i]).value.payload else []
    }

    /** Uploads a whole file in chunks: it fails exactly if the link does, and then the host keeps a beginning
        of it, or nothing. */
    method UploadFile(path: string, data: bytes) returns (status: nat)
      requires host.Valid()
      modifies host, `nextId, `losses
      ensures host.Valid() && losses >= old(losses) && (status == 0 <==> losses == old(losses))
      ensures status == 0 ==> host.files == old(host.files)[path := data]
      ensures status != 0 ==>
                status == EIO
                && (host.files == old(host.files)
                    || exists n | 0 <= n <= |data| :: host.files == old(host.files)[path := data[..n]])
    {
      var id := NewId();
      var refused := Loses();
      if refused {
        return EIO;
      }
      host.UploadStart(id, path);
      var off := 0;
      assert data[..0] == [];
      while off < |data|
        invariant 0 <= off <= |data|
        invariant host.files == old(host.files)[path := data[..off]]
        invariant host.Valid() && host.uploads == old(host.uploads)[id := path] && losses == old(losses)
      {
        var lost := Loses();
        if lost {
          return EIO;
        }
        var n := Min(CHUNK, |data| - off);
        SendBin(id, data[off..off + n]);
        assert data[..off] + data[off..off + n] == data[..off + n];
        off := off + n;
        assert host.files == old(host.files)[path := data[..off]];
      }
      var lost := Loses();
      assert data[..|data|] == data;
      if lost {
        return EIO;
      }
      host.UploadEnd(id);
      status := 0;
    }

    /** One frame over the link. */
    method SendBin(id: u32, payload: bytes)
      requires id in host.uploads && host.Valid()
      modifies host`files
      ensures host.Valid()
      ensures host.files == old(host.files)[host.uploads[id] := old(host.files)[host.uploads[id]] + payload]
    {
      hide MakeFrame, ParseFrame;
      FrameRoundTrip(Frame(id, payload));
      ghost var files := host.files;
      host.OnBinary(MakeFrame(Frame(id, payload)));
      assert forall p | p in files :: files[p] + [] == files[p];
    }

    // ---- requests ----

    /** OPEN and CREATE: the buffer starts empty when the file is to be truncated or is not there yet,
        and is loaded later otherwise. */
    method Open(path: string, create: bool, trunc: bool) returns (fh: nat, ghost probe: Probe)
      requires Valid() && forall h | h in fhs :: fhs[h].path != path
      modifies `fhs, `nextFh, `losses
      ensures Valid() && fh == old(nextFh) && fhs.Keys == old(fhs).Keys + {fh}
      ensures probe == Lost && create && !trunc ==> losses > old(losses)
      ensures forall h | h in old(fhs) :: fhs[h] == old(fhs)[h]
      ensures fhs[fh].path == path && fhs[fh].dirty == (trunc || (create && probe == Missing))
      ensures (probe == Missing ==> path !in host.files) && (probe == Found ==> path in host.files)
      ensures trunc ==> Shown(fh) == []
      ensures !trunc ==> Shown(fh) == if path in host.files then host.files[path] else []
    {
      var startEmpty := trunc;
      probe := Lost;
      if !startEmpty && create {
        var p := Lookup(path);
        probe := p;
        startEmpty := p == Missing;
      }
      fh := nextFh;
      nextFh := nextFh + 1;
      fhs := fhs[fh := Fh(path, [], startEmpty, startEmpty)];
    }

    /** A listing of the parent, searched for the name. */
    method Lookup(path: string) returns (p: Probe)
      modifies `losses
      ensures losses >= old(losses) && (p == Lost <==> losses > old(losses))
      ensures p == Found ==> path in host.files
      ensures p == Missing ==> path !in host.files
    {
      var lost := Loses();
      p := if lost then Lost else if path in host.files then Found else Missing;
    }

    /** Fills the buffer of a handle from the host, unless it has one. */
    method Load(fh: nat) returns (status: nat)
      requires Valid() && fh in fhs
      modifies `fhs, `nextId, `losses
      ensures Valid() && fhs.Keys == old(fhs).Keys && (status == 0 || status == EIO)
      ensures losses >= old(losses)
      ensures old(fhs)[fh].loaded ==>
                status == 0 && fhs == old(fhs) && nextId == old(nextId) && losses == old(losses)
      ensures status != 0 ==> fhs[fh].path !in host.files || losses > old(losses)
      ensures forall h | h in fhs :: fhs[h].path == old(fhs)[h].path && Shown(h) == old(Shown(h))
      ensures forall h | h in fhs && h != fh :: fhs[h] == old(fhs)[h]
      ensures status == 0 ==> fhs[fh].loaded
      ensures fhs[fh].dirty == old(fhs)[fh].dirty
    {
      status := 0;
      if !fhs[fh].loaded {
        var data;
        status, data := Fetch(fhs[fh].path, Whole);
        if status != 0 {
          return;
        }
        fhs := fhs[fh := fhs[fh].(data := data, loaded := true)];
      }
    }

    /** A read sees the file as the handle shows it: from the buffer, when there is one, without asking the
        host; else over the wire, where it can only fail if there is no such file or the link loses it. */
    method Read(fh: nat, off: nat, size: nat) returns (status: nat, resp: bytes)
      requires Valid()
      modifies `fhs, `nextId, `losses
      ensures Valid() && fhs.Keys == old(fhs).Keys
      ensures fh in fhs && old(fhs)[fh].loaded ==> status == 0 && nextId == old(nextId)
      ensures fh in fhs && status != 0 ==> fhs[fh].path !in host.files || losses > old(losses)
      ensures fh in fhs && canRange ==> fhs == old(fhs)
      ensures forall h | h in fhs :: fhs[h].path == old(fhs)[h].path && Shown(h) == old(Shown(h))
      ensures status == 0 ==> fh in fhs && resp == R.Slice(Shown(fh), off, size)
      ensures status == EBADF <==> fh !in fhs
    {
      if fh !in fhs {
        return EBADF, [];
      }
      if !fhs[fh].loaded && canRange {
        var path := fhs[fh].path;
        status, resp := Fetch(path, From(off, size));
        if status != 0 {
          return status, [];
        }
        RangeIsSlice(host.files[path], off, size);
        if |resp| > size {
          resp := resp[..size];
        }
        return;
      }
      status := Load(fh);
      if status != 0 {
        return status, [];
      }
      var data := fhs[fh].data;
      if off >= |data| {
        return 0, [];
      }
      var n := Min(size, |data| - off);
      resp := data[off..off + n];
    }

    /** A write shows in the handle at once and in the host's file not yet. */
    method Write(fh: nat, off: u64, put: bytes) returns (status: nat)
      requires Valid() && |put| < TWO64
      modifies `fhs, `nextId, `losses
      ensures Valid() && fhs.Keys == old(fhs).Keys && (status == EBADF <==> fh !in fhs)
      ensures fh in fhs && status != 0 ==>
                || off + |put| >= TWO64
                || (!old(fhs)[fh].loaded && (fhs[fh].path !in host.files || losses > old(losses)))
      ensures forall h | h in fhs && h != fh :: Shown(h) == old(Shown(h))
      ensures status == 0 ==> fh in fhs && fhs[fh].dirty && Shown(fh) == Put(old(Shown(fh)), off, put)
      ensures status != 0 && fh in fhs ==> Shown(fh) == old(Shown(fh))
    {
      hide Put, Contents, Clean;
      if fh !in fhs {
        return EBADF;
      }
      status := Load(fh);
      if status != 0 {
        return;
      }
      if off > 0xffff_ffff_ffff_ffff - |put| {
        return EIO;
      }
      var f := fhs[fh];
      var data := f.data;
      if |data| < off + |put| {
        data := data + Zeros(off + |put| - |data|);
      }
      data := data[..off] + put + data[off + |put|..];
      Buffered(host.files, f, off, put, data);
      fhs := fhs[fh := f.(data := data, dirty := true, loaded := true)];
    }

    /** The last act of a handle: what it showed is the host's file, when it was written to. */
    method Release(fh: nat) returns (status: nat)
      requires Valid()
      modifies `fhs, `nextId, `losses, host
      ensures Valid() && fhs == old(fhs) - {fh}
      ensures losses >= old(losses) && (status == 0 <==> losses == old(losses))
      ensures fh !in old(fhs) ==> status == 0 && host.files == old(host.files)
      ensures fh in old(fhs) && !old(fhs)[fh].dirty ==> status == 0 && host.files == old(host.files)
      ensures fh in old(fhs) && old(fhs)[fh].dirty && status == 0 ==>
                host.files == old(host.files)[old(fhs)[fh].path := old(Shown(fh))]
      ensures status != 0 ==>
                && fh in old(fhs)
                && (host.files == old(host.files)
                    || exists n | 0 <= n <= |old(fhs)[fh].data| ::
                         host.files == old(host.files)[old(fhs)[fh].path := old(fhs)[fh].data[..n]])
    {
      if fh !in fhs {
        assert fhs - {fh} == fhs;
        return 0;
      }
      var file := fhs[fh];
      fhs := fhs - {fh};
      if !file.dirty {
        return 0;
      }
      status := UploadFile(file.path, file.data);
    }
  }

  ghost predicate Clean(files: map<string, bytes>, f: Fh) {
    if f.loaded then !f.dirty ==> f.path in files && f.data == files[f.path] else !f.dirty && f.data == []
  }
}
