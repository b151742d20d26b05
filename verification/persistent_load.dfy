/** gds_load_persistent (internal/gpu/gds_linux_bridge.c:329-684): reading a shard into device
    memory, directly where the alignment allows it, through a bounce buffer for the tail, and
    through host memory when a direct read is not possible. */
module PersistentLoad {
  import opened Prelude
  import opened DeviceIo

  /** What one call holds; the flags of the C function. A null buffer or a negative
      descriptor is nothing held. */
  datatype Frame = Frame(fd: int, handle: Option<int>, bufRegistered: bool, tailRegistered: bool, pushed: bool,
                         dptr: array?<byte>, tail: array?<byte>, hostBuf: array?<byte>)

  const NOTHING := Frame(-1, None, false, false, false, null, null, null)

  function Opt(b: array?<byte>): set<array<byte>> {
    if b == null then {} else {b}
  }

  /** The ledger is the caller's, plus exactly what the frame says is held. */
  ghost predicate Holds(base: Ledger, now: Ledger, f: Frame) {
    && now == Ledger(
         base.contexts + if f.pushed then 1 else 0,
         base.fds + if f.fd >= 0 then {f.fd} else {},
         if f.handle.Some? then base.handles[f.handle.value := f.fd] else base.handles,
         base.registered + (if f.bufRegistered then Opt(f.dptr) else {})
                         + (if f.tailRegistered then Opt(f.tail) else {}),
         base.memory + Opt(f.dptr) + Opt(f.tail),
         base.host + Opt(f.hostBuf))
    && (f.fd >= 0 ==> f.fd !in base.fds)
    && (f.handle.Some? ==> f.fd >= 0 && f.handle.value !in base.handles)
    && (f.bufRegistered ==> f.dptr != null) && (f.tailRegistered ==> f.tail != null)
    && (f.dptr != null ==> f.dptr !in base.memory) && (f.tail != null ==> f.tail !in base.memory)
    && (f.hostBuf != null ==> f.hostBuf !in base.host)
    && (f.dptr == null || f.dptr != f.tail) && (f.dptr == null || f.dptr != f.hostBuf)
    && (f.tail == null || f.tail != f.hostBuf)
  }

  /** A caller's ledger is closed: handles are for open descriptors, registered buffers are
      allocated. */
  ghost predicate Closed(l: Ledger) {
    l.handles.Values <= l.fds && l.registered <= l.memory
  }

  method PopContext(d: Device, f: Frame, ghost base: Ledger) returns (f': Frame)
    requires d.Valid() && Holds(base, d.ledger, f)
    modifies d`ledger
    ensures d.Valid() && Holds(base, d.ledger, f') && f' == f.(pushed := false)
  {
    if f.pushed { d.PopContext(); }
    f' := f.(pushed := false);
  }

  method FreeHost(d: Device, f: Frame, ghost base: Ledger) returns (f': Frame)
    requires d.Valid() && Holds(base, d.ledger, f)
    modifies d`ledger
    ensures d.Valid() && Holds(base, d.ledger, f') && f' == f.(hostBuf := null)
  {
    if f.hostBuf != null {
      d.HostFree(f.hostBuf);
      assert d.ledger.host == base.host;
    }
    f' := f.(hostBuf := null);
  }

  method DeregisterTail(d: Device, f: Frame, ghost base: Ledger) returns (f': Frame)
    requires d.Valid() && Closed(base) && Holds(base, d.ledger, f)
    modifies d`ledger
    ensures d.Valid() && Holds(base, d.ledger, f') && f' == f.(tailRegistered := false)
  {
    if f.tailRegistered {
      d.DeregisterBuffer(f.tail);
      assert d.ledger.registered == base.registered + if f.bufRegistered then Opt(f.dptr) else {};
    }
    f' := f.(tailRegistered := false);
  }

  method FreeTail(d: Device, f: Frame, ghost base: Ledger) returns (f': Frame)
    requires d.Valid() && Closed(base) && Holds(base, d.ledger, f) && !f.tailRegistered
    modifies d`ledger
    ensures d.Valid() && Holds(base, d.ledger, f') && f' == f.(tail := null)
  {
    if f.tail != null {
      d.Free(f.tail);
      assert d.ledger.memory == base.memory + Opt(f.dptr);
    }
    f' := f.(tail := null);
  }

  method DeregisterBuffer(d: Device, f: Frame, ghost base: Ledger) returns (f': Frame)
    requires d.Valid() && Closed(base) && Holds(base, d.ledger, f)
    modifies d`ledger
    ensures d.Valid() && Holds(base, d.ledger, f') && f' == f.(bufRegistered := false)
  {
    if f.bufRegistered {
      d.DeregisterBuffer(f.dptr);
      assert d.ledger.registered == base.registered + if f.tailRegistered then Opt(f.tail) else {};
    }
    f' := f.(bufRegistered := false);
  }

  method FreeBuffer(d: Device, f: Frame, ghost base: Ledger) returns (f': Frame)
    requires d.Valid() && Closed(base) && Holds(base, d.ledger, f) && !f.bufRegistered && !f.tailRegistered
    modifies d`ledger
    ensures d.Valid() && Holds(base, d.ledger, f') && f' == f.(dptr := null)
  {
    if f.dptr != null {
      d.Free(f.dptr);
      assert d.ledger.memory == base.memory + Opt(f.tail);
    }
    f' := f.(dptr := null);
  }

  method DeregisterHandle(d: Device, f: Frame, ghost base: Ledger) returns (f': Frame)
    requires d.Valid() && Holds(base, d.ledger, f)
    modifies d`ledger
    ensures d.Valid() && Holds(base, d.ledger, f') && f' == f.(handle := None)
  {
    if f.handle.Some? {
      d.DeregisterHandle(f.handle.value);
      assert d.ledger.handles == base.handles;
    }
    f' := f.(handle := None);
  }

  method CloseFile(d: Device, f: Frame, ghost base: Ledger) returns (f': Frame)
    requires d.Valid() && Closed(base) && Holds(base, d.ledger, f) && f.handle.None?
    modifies d`ledger
    ensures d.Valid() && Holds(base, d.ledger, f') && f' == f.(fd := -1)
  {
    if f.fd >= 0 {
      d.Close(f.fd);
      assert d.ledger.fds == base.fds;
    }
    f' := f.(fd := -1);
  }

  /** Everything the frame holds goes back, in the order of the cleanup label. */
  method Cleanup(d: Device, f: Frame, ghost base: Ledger)
    requires d.Valid() && Closed(base) && Holds(base, d.ledger, f)
    modifies d`ledger
    ensures d.Valid() && d.ledger == base
  {
    var g := PopContext(d, f, base);
    g := FreeHost(d, g, base);
    g := DeregisterTail(d, g, base);
    g := FreeTail(d, g, base);
    g := DeregisterBuffer(d, g, base);
    g := FreeBuffer(d, g, base);
    g := DeregisterHandle(d, g, base);
    g := CloseFile(d, g, base);
  }

  /** Chunk sizes are whole blocks, at least one. */
  function AlignedChunk(chunkBytes: int): (chunk: nat)
    requires chunkBytes > 0
    ensures chunk >= ALIGN && chunk % ALIGN == 0
    ensures chunkBytes >= ALIGN ==> chunk <= chunkBytes < chunk + ALIGN
  {
    if chunkBytes < ALIGN then ALIGN else chunkBytes / ALIGN * ALIGN
  }

  /** The device buffer is allocated for the whole file and the descriptor is open. */
  predicate Ready(d: Device, f: Frame) {
    f.fd >= 0 && f.dptr != null && f.dptr.Length == |d.file| > 0
  }

  /** The first n bytes of the file are in the buffer. */
  ghost predicate Copied(d: Device, f: Frame, n: int)
    requires f.dptr != null
    reads f.dptr
  {
    0 <= n <= |d.file| && Agrees(f.dptr[..], 0, d.file, 0, n)
  }

  /** ... and all of them came through cuFileRead. */
  ghost predicate CopiedDirect(d: Device, f: Frame, n: int)
    requires f.dptr != null
    reads d, f.dptr
  {
    Copied(d, f, n) && Delivered(d.delivered, n)
  }

  method Setup(d: Device, strict: bool, ghost base: Ledger) returns (rc: int, f: Frame, directOnly: bool)
    requires d.Valid() && Closed(base) && Holds(base, d.ledger, NOTHING.(pushed := true))
    modifies d`failed, d`fellShort, d`ledger, d`odirect, d`nextId
    ensures d.Valid() && Holds(base, d.ledger, f)
    ensures f.dptr != null ==> fresh(f.dptr)
    ensures f.handle.None? && f.tail == null && f.hostBuf == null && !f.bufRegistered && !f.tailRegistered
    ensures rc == 0 ==> Ready(d, f) && (strict ==> directOnly) && (directOnly <==> f.fd in d.odirect)
    ensures (old(d.failed) ==> d.failed) && (old(d.fellShort) ==> d.fellShort)
    ensures rc != 0 ==> d.failed || |d.file| == 0 || (strict && d.fellShort)
    ensures rc == 0 && !directOnly ==> d.fellShort
  {
    f, directOnly := NOTHING.(pushed := true), true;
    var err := d.Status();
    if err != 0 { return 3003, f, directOnly; }
    var fd := d.Open(true);
    if fd < 0 {
      if strict { return 3001, f, directOnly; }
      directOnly := false;
      fd := d.Open(false);
      if fd < 0 { return 3001, f, directOnly; }
    }
    f := f.(fd := fd);
    var size;
    err, size := d.FileSize(fd);
    if err != 0 { return 3002, f, directOnly; }
    if size <= 0 { return 3006, f, directOnly; }
    err := d.Status();
    if err != 0 { return 5000 + err, f, directOnly; }
    var buf;
    err, buf := d.Malloc(size);
    if err != 0 { return 5000 + err, f, directOnly; }
    f := f.(dptr := buf);
    rc := 0;
  }

  /** Gives up on direct reads: everything registered goes back, and the file is opened again
      without O_DIRECT. */
  method ReopenPlain(d: Device, f: Frame, ghost base: Ledger) returns (rc: int, f': Frame)
    requires d.Valid() && Closed(base) && Holds(base, d.ledger, f)
    modifies d`failed, d`fellShort, d`ledger, d`odirect, d`nextId
    ensures d.Valid() && Holds(base, d.ledger, f')
    ensures f' == f.(bufRegistered := false, handle := None, fd := f'.fd)
    ensures rc == 0 <==> f'.fd >= 0
    ensures f'.fd !in d.odirect
    ensures (old(d.failed) ==> d.failed) && (old(d.fellShort) ==> d.fellShort)
    ensures rc != 0 ==> d.failed
  {
    f' := DeregisterBuffer(d, f, base);
    f' := DeregisterHandle(d, f', base);
    f' := CloseFile(d, f', base);
    var fd := d.Open(false);
    if fd < 0 { return 3001, f'; }
    f' := f'.(fd := fd);
    rc := 0;
  }

  method RegisterDirect(d: Device, f: Frame, strict: bool, ghost base: Ledger)
    returns (rc: int, f': Frame, directOnly: bool)
    requires d.Valid() && Closed(base) && Holds(base, d.ledger, f) && Ready(d, f)
    requires f.handle.None? && !f.bufRegistered && f.tail == null && !f.tailRegistered && f.fd in d.odirect
    modifies d`failed, d`fellShort, d`ledger, d`odirect, d`nextId
    ensures d.Valid() && Holds(base, d.ledger, f')
    ensures f' == f.(fd := f'.fd, handle := f'.handle, bufRegistered := f'.bufRegistered)
    ensures rc == 0 ==> Ready(d, f') && (strict ==> directOnly) && (directOnly <==> f'.fd in d.odirect)
    ensures rc == 0 && directOnly ==> f'.handle.Some? && (|d.file| >= ALIGN ==> f'.bufRegistered)
    ensures (old(d.failed) ==> d.failed) && (old(d.fellShort) ==> d.fellShort)
    ensures rc != 0 ==> d.failed || (strict && d.fellShort)
    ensures rc == 0 && !directOnly ==> d.fellShort
  {
    f', directOnly := f, true;
    var directSize := WholeBlocks(|d.file|);
    var err, h := d.RegisterHandle(f.fd);
    if err != 0 {
      if strict { return 2000 + err, f', directOnly; }
      directOnly := false;
    } else {
      f' := f'.(handle := Some(h));
    }
    if directOnly && directSize > 0 {
      err := d.RegisterBuffer(f.dptr);
      if err == 0 {
        f' := f'.(bufRegistered := true);
      } else if strict {
        return 2000 + err, f', directOnly;
      } else {
        directOnly := false;
      }
    }
    rc := 0;
    if !strict && !directOnly {
      rc, f' := ReopenPlain(d, f', base);
    }
  }

  /** The aligned part of the file, in whole blocks, straight into the buffer. A short read
      that is not a whole number of blocks, or an error, ends direct reading. */
  method ReadAligned(d: Device, f: Frame, strict: bool, chunk: nat, ghost base: Ledger)
    returns (rc: int, directOnly: bool, fileOff: int)
    requires d.Valid() && Holds(base, d.ledger, f) && Ready(d, f) && f.handle.Some?
    requires chunk >= ALIGN && Aligned(chunk) && f.fd in d.odirect && (|d.file| >= ALIGN ==> f.bufRegistered)
    modifies d`fellShort, d`delivered, f.dptr
    ensures d.Valid()
    ensures rc == 0 && directOnly ==> CopiedDirect(d, f, fileOff) && Aligned(fileOff)
    ensures rc == 0 && strict ==> directOnly
    ensures old(d.fellShort) ==> d.fellShort
    ensures rc != 0 ==> strict && d.fellShort
    ensures rc == 0 && !directOnly ==> d.fellShort
    ensures rc == 0 && directOnly ==> d.fellShort || fileOff == WholeBlocks(|d.file|)
  {
    var directSize := WholeBlocks(|d.file|);
    fileOff, directOnly, rc := 0, true, 0;
    while fileOff < directSize
      invariant 0 <= fileOff <= directSize && Aligned(fileOff)
      invariant d.Valid() && CopiedDirect(d, f, fileOff) && (old(d.fellShort) ==> d.fellShort)
    {
      var toRead: nat := chunk;
      if toRead > directSize - fileOff { toRead := directSize - fileOff; }
      var n := AlignedRound(d, f, toRead, fileOff, base);
      if n < 0 {
        if strict { return 4000 - n, directOnly, fileOff; }
        return 0, false, fileOff;
      }
      if n == 0 { break; }
      if n % ALIGN != 0 && fileOff + n < directSize {
        if strict { return 4005, directOnly, fileOff; }
        return 0, false, fileOff;
      }
      StaysAligned(fileOff, n, directSize);
      fileOff := fileOff + n;
    }
  }

  /** The part of a file that whole blocks make up. */
  function WholeBlocks(size: nat): (n: nat)
    ensures n <= size < n + ALIGN && Aligned(n)
  {
    size / ALIGN * ALIGN
  }

  lemma StaysAligned(fileOff: nat, n: nat, end: nat)
    requires Aligned(fileOff) && Aligned(end) && fileOff + n <= end && (Aligned(n) || fileOff + n == end)
    ensures Aligned(fileOff + n)
  {
  }

  method AlignedRound(d: Device, f: Frame, toRead: nat, fileOff: nat, ghost base: Ledger) returns (n: int)
    requires d.Valid() && Holds(base, d.ledger, f) && Ready(d, f) && f.handle.Some?
    requires CopiedDirect(d, f, fileOff) && fileOff + toRead <= |d.file|
    requires f.fd in d.odirect && f.bufRegistered && Aligned(fileOff) && Aligned(toRead)
    modifies d`fellShort, d`delivered, f.dptr
    ensures d.Valid() && n <= toRead
    ensures n >= 0 ==> CopiedDirect(d, f, fileOff + n)
    ensures old(d.fellShort) ==> d.fellShort
    ensures n < toRead ==> d.fellShort
  {
    ghost var was, before := f.dptr[..], d.delivered;
    n := d.ReadDirect(f.handle.value, f.dptr, fileOff, toRead, fileOff);
    if n >= 0 {
      AgreesFurther(was, f.dptr[..], d.file, fileOff, n, toRead);
      DeliveredFurther(before, fileOff, n, n);
    }
  }

  /** What is left after the aligned part goes through one registered block. */
  method ReadTail(d: Device, f: Frame, strict: bool, fileOff: int, ghost base: Ledger)
    returns (rc: int, f': Frame, directOnly: bool, fileOff': int)
    requires d.Valid() && Closed(base) && Holds(base, d.ledger, f) && Ready(d, f) && f.handle.Some?
    requires f.tail == null && !f.tailRegistered && CopiedDirect(d, f, fileOff) && fileOff < |d.file|
    requires d.fellShort || |d.file| - fileOff < ALIGN
    requires f.fd in d.odirect && Aligned(fileOff)
    modifies d`failed, d`fellShort, d`ledger, d`delivered, f.dptr
    ensures d.Valid() && Holds(base, d.ledger, f')
    ensures f' == f.(tail := f'.tail, tailRegistered := f'.tailRegistered)
    ensures rc == 0 ==> f' == f && (strict ==> directOnly)
    ensures rc == 0 && directOnly ==> fileOff' == |d.file| && CopiedDirect(d, f, fileOff')
    ensures (old(d.failed) ==> d.failed) && (old(d.fellShort) ==> d.fellShort)
    ensures rc != 0 ==> d.failed || (strict && d.fellShort)
    ensures rc == 0 && !directOnly ==> d.fellShort || d.failed
  {
    f', directOnly, fileOff', rc := f, true, fileOff, 0;
    rc, f', directOnly := TakeTail(d, f, strict, base);
    if rc != 0 { return; }
    if f'.tailRegistered {
      rc, directOnly, fileOff' := CopyTail(d, f', strict, fileOff, base);
      if rc != 0 { return; }
    }
    f' := GiveTailBack(d, f', base);
  }

  /** One block of device memory, registered. */
  method TakeTail(d: Device, f: Frame, strict: bool, ghost base: Ledger)
    returns (rc: int, f': Frame, directOnly: bool)
    requires d.Valid() && Closed(base) && Holds(base, d.ledger, f) && f.tail == null && !f.tailRegistered
    modifies d`failed, d`fellShort, d`ledger
    ensures d.Valid() && Holds(base, d.ledger, f')
    ensures f' == f.(tail := f'.tail, tailRegistered := f'.tailRegistered)
    ensures f'.tail != null ==> fresh(f'.tail) && f'.tail.Length == ALIGN
    ensures rc == 0 && strict ==> directOnly
    ensures rc == 0 ==> (directOnly <==> f'.tailRegistered)
    ensures (old(d.failed) ==> d.failed) && (old(d.fellShort) ==> d.fellShort)
    ensures rc != 0 ==> d.failed || (strict && d.fellShort)
    ensures rc == 0 && !directOnly ==> d.fellShort || d.failed
  {
    f', directOnly, rc := f, true, 0;
    ghost var before := d.ledger;
    var err, tail := d.Malloc(ALIGN);
    if err != 0 {
      if strict { return 5000 + err, f', directOnly; }
      return 0, f', false;
    }
    f' := f'.(tail := tail);
    TailJoins(base, before, f, tail);
    err := d.RegisterBuffer(tail);
    if err == 0 {
      f' := f'.(tailRegistered := true);
    } else if strict {
      rc := 2000 + err;
    } else {
      directOnly := false;
    }
  }

  lemma TailJoins(base: Ledger, l: Ledger, f: Frame, tail: array<byte>)
    requires Holds(base, l, f) && f.tail == null && !f.tailRegistered
    requires tail !in l.memory && tail != f.dptr && tail != f.hostBuf && tail !in l.registered && tail !in base.memory
    ensures Holds(base, l.(memory := l.memory + {tail}), f.(tail := tail))
  {
  }

  method GiveTailBack(d: Device, f: Frame, ghost base: Ledger) returns (f': Frame)
    requires d.Valid() && Closed(base) && Holds(base, d.ledger, f)
    modifies d`ledger
    ensures d.Valid() && Holds(base, d.ledger, f') && f' == f.(tail := null, tailRegistered := false)
  {
    f' := DeregisterTail(d, f, base);
    f' := FreeTail(d, f', base);
  }

  method CopyTail(d: Device, f: Frame, strict: bool, fileOff: int, ghost base: Ledger)
    returns (rc: int, directOnly: bool, fileOff': int)
    requires d.Valid() && Holds(base, d.ledger, f) && Ready(d, f) && f.handle.Some?
    requires f.tail != null && f.tailRegistered && f.tail.Length == ALIGN
    requires CopiedDirect(d, f, fileOff) && fileOff < |d.file|
    requires d.fellShort || |d.file| - fileOff < ALIGN
    requires f.fd in d.odirect && Aligned(fileOff)
    modifies d`failed, d`fellShort, d`delivered, f.dptr, f.tail
    ensures d.Valid()
    ensures rc == 0 && strict ==> directOnly
    ensures rc == 0 && directOnly ==> fileOff' == |d.file| && CopiedDirect(d, f, fileOff')
    ensures (old(d.failed) ==> d.failed) && (old(d.fellShort) ==> d.fellShort)
    ensures rc != 0 ==> d.failed || (strict && d.fellShort)
    ensures rc == 0 && !directOnly ==> d.fellShort || d.failed
  {
    directOnly, fileOff', rc := true, fileOff, 0;
    var remaining := |d.file| - fileOff;
    ghost var before := d.delivered;
    var n := d.ReadDirect(f.handle.value, f.tail, 0, ALIGN, fileOff);
    if n <= 0 {
      if strict { return (if n < 0 then 4000 - n else 4005), directOnly, fileOff'; }
      return 0, false, fileOff';
    }
    var copyLen := if n > remaining then remaining else n;
    var err := CopyOver(d, f, f.tail, fileOff, copyLen, n, base);
    if err != 0 { return 1000 + err, directOnly, fileOff'; }
    DeliveredFurther(before, fileOff, n, copyLen);
    fileOff' := fileOff + copyLen;
    if fileOff' < |d.file| {
      if strict { return 4005, directOnly, fileOff'; }
      directOnly := false;
    }
  }

  /** The bytes of a block that was read from the file go behind those already copied. */
  method CopyOver(d: Device, f: Frame, block: array<byte>, fileOff: int, len: nat, ghost read: int, ghost base: Ledger)
    returns (err: nat)
    requires d.Valid() && Holds(base, d.ledger, f) && Ready(d, f) && block != f.dptr
    requires Copied(d, f, fileOff) && fileOff + len <= |d.file| && len <= block.Length && len <= read
    requires Agrees(block[..], 0, d.file, fileOff, read)
    modifies d`failed, f.dptr
    ensures err == 0 ==> Copied(d, f, fileOff + len)
    ensures old(d.failed) ==> d.failed
    ensures err != 0 ==> d.failed
  {
    ghost var was := f.dptr[..];
    err := d.Copy(f.dptr, fileOff, block, len);
    if err == 0 {
      AgreesThrough(f.dptr[..], fileOff, block[..], d.file, fileOff, len, read);
      AgreesFurther(was, f.dptr[..], d.file, fileOff, len, len);
    }
  }

  /** The host fallback: the whole file again, from the start, through host memory. */
  method ReadThroughHost(d: Device, f: Frame, chunk: nat, ghost base: Ledger) returns (rc: int, f': Frame, fileOff: int)
    requires d.Valid() && Holds(base, d.ledger, f) && Ready(d, f) && f.hostBuf == null && chunk > 0
    requires f.fd !in d.odirect
    modifies d`failed, d`ledger, d`hostLoop, f.dptr
    ensures d.Valid() && Holds(base, d.ledger, f') && f' == f.(hostBuf := f'.hostBuf)
    ensures rc == 0 ==> d.hostLoop && Copied(d, f, fileOff)
    ensures old(d.failed) ==> d.failed
    ensures rc != 0 || fileOff < |d.file| ==> d.failed
  {
    fileOff := 0;
    rc, f' := TakeHost(d, f, chunk, base);
    if rc != 0 { return; }
    d.hostLoop := true;
    rc, fileOff := HostLoop(d, f', chunk, base);
  }

  method TakeHost(d: Device, f: Frame, chunk: nat, ghost base: Ledger) returns (rc: int, f': Frame)
    requires d.Valid() && Holds(base, d.ledger, f) && f.hostBuf == null
    modifies d`failed, d`ledger
    ensures d.Valid() && Holds(base, d.ledger, f') && f' == f.(hostBuf := f'.hostBuf)
    ensures rc == 0 <==> f'.hostBuf != null
    ensures rc == 0 ==> fresh(f'.hostBuf) && f'.hostBuf.Length == chunk
    ensures old(d.failed) ==> d.failed
    ensures rc != 0 ==> d.failed
  {
    f', rc := f, 0;
    var host := d.HostAlloc(chunk);
    if host == null { return 3007, f'; }
    f' := f'.(hostBuf := host);
  }

  /** The fallback loop: chunk by chunk through the host buffer. */
  method HostLoop(d: Device, f: Frame, chunk: nat, ghost base: Ledger) returns (rc: int, fileOff: int)
    requires d.Valid() && Holds(base, d.ledger, f) && Ready(d, f)
    requires f.hostBuf != null && f.hostBuf.Length == chunk > 0 && f.fd !in d.odirect
    modifies d`failed, f.dptr, f.hostBuf
    ensures d.Valid() && (rc == 0 ==> Copied(d, f, fileOff))
    ensures old(d.failed) ==> d.failed
    ensures rc != 0 || fileOff < |d.file| ==> d.failed
  {
    fileOff, rc := 0, 0;
    while fileOff < |d.file|
      invariant Copied(d, f, fileOff) && (old(d.failed) ==> d.failed) && rc == 0
    {
      var n;
      rc, n := HostRound(d, f, chunk, fileOff, base);
      if rc != 0 || n == 0 { break; }
      fileOff := fileOff + n;
    }
  }

  /** One round: read a chunk into host memory and copy it to the device. */
  method HostRound(d: Device, f: Frame, chunk: nat, fileOff: int, ghost base: Ledger) returns (rc: int, n: int)
    requires d.Valid() && Holds(base, d.ledger, f) && Ready(d, f)
    requires f.hostBuf != null && f.hostBuf.Length == chunk > 0 && f.fd !in d.odirect
    requires Copied(d, f, fileOff) && fileOff < |d.file|
    modifies d`failed, f.dptr, f.hostBuf
    ensures rc == 0 ==> n >= 0 && Copied(d, f, fileOff + n)
    ensures old(d.failed) ==> d.failed
    ensures rc != 0 || n <= 0 ==> d.failed
  {
    var toRead: nat := chunk;
    if toRead > |d.file| - fileOff { toRead := |d.file| - fileOff; }
    n := d.Pread(f.fd, f.hostBuf, toRead, fileOff);
    if n < 0 { return 3008, n; }
    if n == 0 { return 0, n; }
    var err := CopyOver(d, f, f.hostBuf, fileOff, n, n, base);
    rc := if err != 0 then 1000 + err else 0;
  }

  /** The direct phases: registration, aligned reads and tail. Without strict mode any failure
      ends with a plain descriptor and directOnly off. */
  method ReadDirectly(d: Device, f: Frame, strict: bool, chunk: nat, ghost base: Ledger)
    returns (rc: int, f': Frame, directOnly: bool, fileOff: int)
    requires d.Valid() && Closed(base) && Holds(base, d.ledger, f) && Ready(d, f)
    requires chunk >= ALIGN && Aligned(chunk)
    requires f.handle.None? && !f.bufRegistered && f.tail == null && !f.tailRegistered && f.fd in d.odirect
    modifies d`failed, d`fellShort, d`ledger, d`odirect, d`nextId, d`delivered, f.dptr
    ensures d.Valid() && Holds(base, d.ledger, f')
    ensures f'.dptr == f.dptr && f'.hostBuf == f.hostBuf && f'.pushed == f.pushed
    ensures rc == 0 ==> Ready(d, f') && f'.tail == null && !f'.tailRegistered && (strict ==> directOnly)
    ensures rc == 0 ==> (directOnly <==> f'.fd in d.odirect)
    ensures rc == 0 && directOnly ==> fileOff == |d.file| && CopiedDirect(d, f', fileOff)
    ensures (old(d.failed) ==> d.failed) && (old(d.fellShort) ==> d.fellShort)
    ensures rc != 0 ==> d.failed || (strict && d.fellShort)
    ensures rc == 0 && !directOnly ==> d.fellShort || d.failed
  {
    fileOff := 0;
    rc, f', directOnly := RegisterDirect(d, f, strict, base);
    if rc != 0 || !directOnly { return; }
    rc, f', directOnly, fileOff := ReadBlocks(d, f', strict, chunk, base);
    if rc != 0 { return; }
    if !strict && !directOnly {
      rc, f' := ReopenPlain(d, f', base);
      fileOff := 0;
    }
  }

  /** The aligned part, then the tail. */
  method ReadBlocks(d: Device, f: Frame, strict: bool, chunk: nat, ghost base: Ledger)
    returns (rc: int, f': Frame, directOnly: bool, fileOff: int)
    requires d.Valid() && Closed(base) && Holds(base, d.ledger, f) && Ready(d, f)
    requires chunk >= ALIGN && Aligned(chunk)
    requires f.handle.Some? && f.tail == null && !f.tailRegistered
    requires f.fd in d.odirect && (|d.file| >= ALIGN ==> f.bufRegistered)
    modifies d`failed, d`fellShort, d`ledger, d`delivered, f.dptr
    ensures d.Valid() && Holds(base, d.ledger, f')
    ensures f' == f.(tail := f'.tail, tailRegistered := f'.tailRegistered)
    ensures rc == 0 ==> f' == f && (strict ==> directOnly)
    ensures rc == 0 && directOnly ==> fileOff == |d.file| && CopiedDirect(d, f, fileOff)
    ensures (old(d.failed) ==> d.failed) && (old(d.fellShort) ==> d.fellShort)
    ensures rc != 0 ==> d.failed || (strict && d.fellShort)
    ensures rc == 0 && !directOnly ==> d.fellShort || d.failed
  {
    f' := f;
    rc, directOnly, fileOff := ReadAligned(d, f', strict, chunk, base);
    if rc == 0 && directOnly && fileOff < |d.file| {
      rc, f', directOnly, fileOff := ReadTail(d, f', strict, fileOff, base);
    }
  }

  /** gds_load_persistent. Whatever the driver answers: on failure nothing is held; on success
      the only thing held is the returned buffer, and if the reported total is the file size
      the buffer is the file. In strict mode success means every byte came through
      cuFileRead, and the direct flag is set exactly when the host loop did not run. */
  method LoadPersistent(d: Device, chunkBytes: int, strict: bool)
    returns (rc: int, out: array?<byte>, total: int, direct: bool)
    requires d.Valid() && Closed(d.ledger) && chunkBytes > 0
    requires d.delivered == {} && !d.hostLoop
    modifies d
    ensures d.Valid()
    ensures rc != 0 ==> out == null && total == 0 && !direct && d.ledger == old(d.ledger)
    ensures rc == 0 ==> out != null && fresh(out) && out !in old(d.ledger).memory
    ensures rc == 0 ==> d.ledger == old(d.ledger).(memory := old(d.ledger).memory + {out})
    ensures rc == 0 ==> out.Length == |d.file| > 0 && 0 <= total <= |d.file|
    ensures rc == 0 && total == |d.file| ==> out[..] == d.file
    ensures rc == 0 && strict ==> total == |d.file| && Delivered(d.delivered, |d.file|)
    ensures rc == 0 && direct ==> total == |d.file|
    ensures rc == 0 ==> (direct <==> !d.hostLoop)
    ensures |d.file| > 0 && !d.failed && (strict ==> !d.fellShort) ==> rc == 0 && total == |d.file|
    ensures rc == 0 && !d.failed && !d.fellShort ==> direct
  {
    ghost var base := d.ledger;
    out, total, direct := null, 0, false;
    var chunk := AlignedChunk(chunkBytes);
    rc := d.Status();
    if rc != 0 { return; }
    var err := d.PushContext();
    if err != 0 { return 1000 + err, null, 0, false; }
    var f, directOnly, fileOff;
    rc, f, directOnly := Setup(d, strict, base);
    if rc == 0 {
      rc, f, directOnly, fileOff := ReadAll(d, f, strict, directOnly, chunk, base);
    }
    if rc == 0 {
      err := d.Status();
      if err != 0 { rc := 3004; }
    }
    if rc == 0 {
      f := DeregisterBuffer(d, f, base);
      f := DeregisterHandle(d, f, base);
      out, total, direct := f.dptr, fileOff, directOnly;
      HandOver(d, f, base);
      f := f.(dptr := null);
      Cleanup(d, f, base.(memory := base.memory + {out}));
      WholeFile(d, out, total);
    } else {
      Cleanup(d, f, base);
    }
  }

  method ReadAll(d: Device, f: Frame, strict: bool, tryDirect: bool, chunk: nat, ghost base: Ledger)
    returns (rc: int, f': Frame, directOnly: bool, fileOff: int)
    requires d.Valid() && Closed(base) && Holds(base, d.ledger, f) && Ready(d, f)
    requires chunk >= ALIGN && Aligned(chunk)
    requires f.handle.None? && !f.bufRegistered && f.tail == null && !f.tailRegistered && f.hostBuf == null
    requires strict ==> tryDirect
    requires !d.hostLoop && (tryDirect <==> f.fd in d.odirect)
    modifies d, f.dptr
    ensures d.Valid() && Holds(base, d.ledger, f') && f'.dptr == f.dptr
    ensures rc == 0 ==> Ready(d, f') && f'.tail == null && !f'.tailRegistered && Copied(d, f', fileOff)
    ensures rc == 0 && directOnly ==> fileOff == |d.file| && CopiedDirect(d, f', fileOff)
    ensures rc == 0 && strict ==> directOnly
    ensures rc == 0 ==> (directOnly <==> !d.hostLoop)
    ensures (old(d.failed) ==> d.failed) && (old(d.fellShort) ==> d.fellShort)
    ensures rc != 0 ==> d.failed || (strict && d.fellShort)
    ensures rc == 0 && fileOff < |d.file| ==> d.failed
    ensures rc == 0 && !directOnly ==> !tryDirect || d.fellShort || d.failed
  {
    rc, f', directOnly, fileOff := 0, f, tryDirect, 0;
    if directOnly {
      rc, f', directOnly, fileOff := ReadDirectly(d, f', strict, chunk, base);
    }
    if rc == 0 && !directOnly {
      rc, f', fileOff := ReadThroughHost(d, f', chunk, base);
    }
  }

  /** The buffer passes from the call to its caller. */
  lemma HandOver(d: Device, f: Frame, base: Ledger)
    requires Holds(base, d.ledger, f) && f.dptr != null && !f.bufRegistered && f.tail == null
    ensures Holds(base.(memory := base.memory + {f.dptr}), d.ledger, f.(dptr := null))
  {
    assert d.ledger.memory == (base.memory + {f.dptr}) + {} + {};
  }

  lemma WholeFile(d: Device, out: array<byte>, total: int)
    requires out.Length == |d.file| && 0 <= total <= |d.file| && Agrees(out[..], 0, d.file, 0, total)
    ensures total == |d.file| ==> out[..] == d.file
  {
    if total == |d.file| {
      forall i | 0 <= i < |d.file| ensures out[..][i] == d.file[i] { assert AgreesAt(out[..], 0, d.file, 0, total, i); }
    }
  }
}
