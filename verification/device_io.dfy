/** The driver and system calls under gds_load_persistent, with every result left open. The
    ledger records what is held; a call that gives something back demands that it is held,
    so giving back twice, or never having taken, cannot be written. */
module DeviceIo {
  import opened Prelude

  const ALIGN := 4096

  predicate Aligned(n: int) {
    n % ALIGN == 0
  }

  /** handles: registered file handles and the descriptor each one is for.
      registered: buffers known to cuFile. contexts: contexts pushed and not popped. */
  datatype Ledger = Ledger(contexts: nat, fds: set<int>, handles: map<int, int>,
                           registered: set<array<byte>>, memory: set<array<byte>>, host: set<array<byte>>)

  /** The n bytes of buf from `at` on are those of src from `off` on, as far as src goes. */
  ghost predicate Agrees(buf: seq<byte>, at: int, src: seq<byte>, off: int, n: int) {
    forall i: int :: AgreesAt(buf, at, src, off, n, i)
  }

  predicate AgreesAt(buf: seq<byte>, at: int, src: seq<byte>, off: int, n: int, i: int) {
    0 <= i < |buf| && at <= i < at + n && 0 <= off + i - at < |src| ==> buf[i] == src[off + i - at]
  }

  /** Outside the len bytes from `at` on, nothing changed. */
  ghost predicate OnlyWithin(was: seq<byte>, now: seq<byte>, at: int, len: int) {
    |now| == |was| && forall i: int :: KeptAt(was, now, at, len, i)
  }

  predicate KeptAt(was: seq<byte>, now: seq<byte>, at: int, len: int, i: int) {
    0 <= i < |was| && i < |now| && !(at <= i < at + len) ==> now[i] == was[i]
  }

  /** One byte more of a copy. */
  lemma WriteOne(orig: seq<byte>, was: seq<byte>, now: seq<byte>, at: nat, len: nat, src: seq<byte>, off: nat, i: nat)
    requires OnlyWithin(orig, was, at, len) && Agrees(was, at, src, off, i) && i < len
    requires at + len <= |was| && if off + i < |src| then now == was[at + i := src[off + i]] else now == was
    ensures OnlyWithin(orig, now, at, len) && Agrees(now, at, src, off, i + 1)
  {
    var n := i + 1;
    forall j: int ensures KeptAt(orig, now, at, len, j) { assert KeptAt(orig, was, at, len, j); }
    forall j: int ensures AgreesAt(now, at, src, off, n, j) { assert AgreesAt(was, at, src, off, i, j); }
  }

  /** A copy that begins where an earlier one ended. */
  lemma AgreesFurther(was: seq<byte>, now: seq<byte>, src: seq<byte>, n: nat, m: nat, len: nat)
    requires Agrees(was, 0, src, 0, n) && OnlyWithin(was, now, n, len) && Agrees(now, n, src, n, m)
    ensures Agrees(now, 0, src, 0, n + m)
  {
    var both := n + m;
    forall i: int ensures AgreesAt(now, 0, src, 0, both, i) {
      assert AgreesAt(was, 0, src, 0, n, i) && KeptAt(was, now, n, len, i) && AgreesAt(now, n, src, n, m, i);
    }
  }

  /** A copy of a copy. */
  lemma AgreesThrough(dst: seq<byte>, at: nat, middle: seq<byte>, src: seq<byte>, off: nat, n: nat, m: int)
    requires Agrees(dst, at, middle, 0, n) && Agrees(middle, 0, src, off, m) && n <= m && n <= |middle|
    ensures Agrees(dst, at, src, off, n)
  {
    forall i: int ensures AgreesAt(dst, at, src, off, n, i) {
      assert AgreesAt(dst, at, middle, 0, n, i) && AgreesAt(middle, 0, src, off, m, i - at);
    }
  }

  /** The first n file offsets are among the delivered ones. */
  ghost predicate Delivered(delivered: set<int>, n: int) {
    forall i: int :: DeliveredAt(delivered, n, i)
  }

  predicate DeliveredAt(delivered: set<int>, n: int, i: int) {
    0 <= i < n ==> i in delivered
  }

  lemma DeliveredFurther(delivered: set<int>, n: nat, m: nat, k: nat)
    requires Delivered(delivered, n) && k <= m
    ensures Delivered(delivered + Range(n, n + m), n + k)
  {
    var all, both := delivered + Range(n, n + m), n + k;
    forall i: int ensures DeliveredAt(all, both, i) { assert DeliveredAt(delivered, n, i); }
  }

  ghost function Range(lo: int, hi: int): (r: set<int>)
    ensures forall i :: i in r <==> lo <= i < hi
    decreases hi - lo
  {
    if hi <= lo then {} else Range(lo, hi - 1) + {hi - 1}
  }

  class Device {
    /** The shard file; nothing changes it while it is read. */
    const file: seq<byte>
    ghost var ledger: Ledger
    /** File offsets that some cuFileRead has delivered. */
    ghost var delivered: set<int>
    /** Whether the host fallback loop has been entered. */
    ghost var hostLoop: bool
    /** The descriptors that were opened with O_DIRECT. */
    ghost var odirect: set<int>
    /** Whether a call that nothing can stand in for has failed or ended early. */
    ghost var failed: bool
    /** Whether a call of the direct path has failed or read less than there was. */
    ghost var fellShort: bool
    var nextId: int

    ghost predicate Valid()
      reads this
    {
      && (forall fd :: fd in ledger.fds ==> fd < nextId)
      && (forall h :: h in ledger.handles ==> h < nextId)
      && (forall fd :: fd in odirect ==> 0 <= fd < nextId)
      && 0 <= nextId
    }

    constructor (file: seq<byte>)
      ensures Valid() && this.file == file && delivered == {} && !hostLoop && !failed && !fellShort
      ensures ledger == Ledger(0, {}, map[], {}, {}, {})
    {
      this.file := file;
      ledger := Ledger(0, {}, map[], {}, {}, {});
      delivered, hostLoop, failed, fellShort, odirect, nextId := {}, false, false, false, {}, 0;
    }

    /** Any call without an effect on the ledger: an error code, 0 for success. */
    method Status() returns (err: nat)
      modifies this`failed
      ensures failed == (old(failed) || err != 0)
    {
      err :| err >= 0;
      failed := failed || err != 0;
    }

    /** The same for a call of the direct path. */
    method DirectStatus() returns (err: nat)
      modifies this`fellShort
      ensures fellShort == (old(fellShort) || err != 0)
    {
      err :| err >= 0;
      fellShort := fellShort || err != 0;
    }

    method PushContext() returns (err: nat)
      requires Valid()
      modifies this`failed, this`ledger
      ensures Valid()
      ensures ledger == if err == 0 then old(ledger).(contexts := old(ledger).contexts + 1) else old(ledger)
      ensures failed == (old(failed) || err != 0)
    {
      err := Status();
      if err == 0 { ledger := ledger.(contexts := ledger.contexts + 1); }
    }

    method PopContext()
      requires Valid() && ledger.contexts > 0
      modifies this`ledger
      ensures Valid() && ledger == old(ledger).(contexts := old(ledger).contexts - 1)
    {
      ledger := ledger.(contexts := ledger.contexts - 1);
    }

    /** A new descriptor, or a negative result. */
    method Open(direct: bool) returns (fd: int)
      requires Valid()
      modifies this`failed, this`fellShort, this`ledger, this`odirect, this`nextId
      ensures Valid()
      ensures odirect == old(odirect) + if direct && fd >= 0 then {fd} else {}
      ensures fd >= 0 ==> fd !in old(odirect)
      ensures fd >= 0 ==> fd !in old(ledger).fds && ledger == old(ledger).(fds := old(ledger).fds + {fd})
      ensures fd < 0 ==> ledger == old(ledger)
      ensures failed == (old(failed) || (!direct && fd < 0))
      ensures fellShort == (old(fellShort) || (direct && fd < 0))
    {
      var err;
      if direct { err := DirectStatus(); } else { err := Status(); }
      if err != 0 { return -1; }
      fd := nextId;
      nextId := nextId + 1;
      if direct { odirect := odirect + {fd}; }
      ledger := ledger.(fds := ledger.fds + {fd});
    }

    method Close(fd: int)
      requires Valid() && fd in ledger.fds && fd !in ledger.handles.Values
      modifies this`ledger
      ensures Valid() && ledger == old(ledger).(fds := old(ledger).fds - {fd})
    {
      ledger := ledger.(fds := ledger.fds - {fd});
    }

    method FileSize(fd: int) returns (err: nat, size: int)
      requires Valid() && fd in ledger.fds
      modifies this`failed
      ensures err == 0 ==> size == |file|
      ensures failed == (old(failed) || err != 0)
    {
      err := Status();
      size := |file|;
    }

    /** cudaMalloc: fresh device memory of the given size, or nothing. */
    method Malloc(size: nat) returns (err: nat, buf: array?<byte>)
      requires Valid()
      modifies this`failed, this`ledger
      ensures Valid()
      ensures err == 0 <==> buf != null
      ensures err == 0 ==> fresh(buf) && buf.Length == size
      ensures err == 0 ==> ledger == old(ledger).(memory := old(ledger).memory + {buf})
      ensures err != 0 ==> ledger == old(ledger)
      ensures failed == (old(failed) || err != 0)
    {
      err := Status();
      if err != 0 { return err, null; }
      var b := new byte[size];
      buf := b;
      ledger := ledger.(memory := ledger.memory + {b});
    }

    method Free(buf: array<byte>)
      requires Valid() && buf in ledger.memory && buf !in ledger.registered
      modifies this`ledger
      ensures Valid() && ledger == old(ledger).(memory := old(ledger).memory - {buf})
    {
      ledger := ledger.(memory := ledger.memory - {buf});
    }

    method RegisterHandle(fd: int) returns (err: nat, h: int)
      requires Valid() && fd in ledger.fds
      modifies this`fellShort, this`ledger, this`nextId
      ensures Valid()
      ensures err == 0 ==> h !in old(ledger).handles && ledger == old(ledger).(handles := old(ledger).handles[h := fd])
      ensures err != 0 ==> ledger == old(ledger)
      ensures fellShort == (old(fellShort) || err != 0)
    {
      err := DirectStatus();
      h := nextId;
      if err == 0 {
        nextId := nextId + 1;
        ledger := ledger.(handles := ledger.handles[h := fd]);
      }
    }

    method DeregisterHandle(h: int)
      requires Valid() && h in ledger.handles
      modifies this`ledger
      ensures Valid() && ledger == old(ledger).(handles := old(ledger).handles - {h})
    {
      ledger := ledger.(handles := ledger.handles - {h});
    }

    method RegisterBuffer(buf: array<byte>) returns (err: nat)
      requires Valid() && buf in ledger.memory && buf !in ledger.registered
      modifies this`fellShort, this`ledger
      ensures Valid()
      ensures ledger == if err == 0 then old(ledger).(registered := old(ledger).registered + {buf}) else old(ledger)
      ensures fellShort == (old(fellShort) || err != 0)
    {
      err := DirectStatus();
      if err == 0 { ledger := ledger.(registered := ledger.registered + {buf}); }
    }

    method DeregisterBuffer(buf: array<byte>)
      requires Valid() && buf in ledger.registered
      modifies this`ledger
      ensures Valid() && ledger == old(ledger).(registered := old(ledger).registered - {buf})
    {
      ledger := ledger.(registered := ledger.registered - {buf});
    }

    /** cuFileRead into buf[at..at + len]: any count up to len, or a negative error. What it
        reports as read is the file's; the rest of the range may be overwritten. The descriptor
        is direct, the buffer registered, and offset and length are whole blocks. */
    method ReadDirect(h: int, buf: array<byte>, at: nat, len: nat, off: nat) returns (n: int)
      requires Valid() && h in ledger.handles && buf in ledger.memory && at + len <= buf.Length
      requires ledger.handles[h] in odirect && buf in ledger.registered && Aligned(off) && Aligned(len)
      modifies this`fellShort, this`delivered, buf
      ensures Valid() && n <= len
      ensures OnlyWithin(old(buf[..]), buf[..], at, len)
      ensures Agrees(buf[..], at, file, off, n)
      ensures delivered == old(delivered) + Range(off, off + n)
      ensures fellShort == (old(fellShort) || (n < len && off + n < |file|))
    {
      n :| n <= len;
      fellShort := fellShort || (n < len && off + n < |file|);
      var i := 0;
      while i < n
        invariant 0 <= i && (i <= n || i == 0)
        invariant delivered == old(delivered)
        invariant fellShort == (old(fellShort) || (n < len && off + n < |file|))
        invariant OnlyWithin(old(buf[..]), buf[..], at, len)
        invariant Agrees(buf[..], at, file, off, i)
      {
        ghost var was := buf[..];
        if off + i < |file| { buf[at + i] := file[off + i]; }
        WriteOne(old(buf[..]), was, buf[..], at, len, file, off, i);
        i := i + 1;
      }
      delivered := delivered + Range(off, off + n);
    }

    /** pread on a plain descriptor: never past the end of the file. */
    method Pread(fd: int, buf: array<byte>, len: nat, off: nat) returns (n: int)
      requires Valid() && fd in ledger.fds && buf in ledger.host && len <= buf.Length && off + len <= |file|
      requires fd !in odirect
      modifies this`failed, buf
      ensures Valid() && n <= len
      ensures Agrees(buf[..], 0, file, off, n)
      ensures failed == (old(failed) || n < 0 || (n == 0 && len > 0))
    {
      n :| n <= len;
      failed := failed || n < 0 || (n == 0 && len > 0);
      var i := 0;
      while i < n
        invariant 0 <= i && (i <= n || i == 0)
        invariant OnlyWithin(old(buf[..]), buf[..], 0, len)
        invariant failed == (old(failed) || n < 0 || (n == 0 && len > 0))
        invariant Agrees(buf[..], 0, file, off, i)
      {
        ghost var was := buf[..];
        buf[i] := file[off + i];
        WriteOne(old(buf[..]), was, buf[..], 0, len, file, off, i);
        i := i + 1;
      }
    }

    /** cuMemcpyDtoD and cuMemcpyHtoD: all of it, or an error. */
    method Copy(dst: array<byte>, at: nat, src: array<byte>, len: nat) returns (err: nat)
      requires Valid() && dst in ledger.memory && dst != src && at + len <= dst.Length && len <= src.Length
      modifies this`failed, dst
      ensures Valid()
      ensures OnlyWithin(old(dst[..]), dst[..], at, len)
      ensures err == 0 ==> Agrees(dst[..], at, src[..], 0, len)
      ensures failed == (old(failed) || err != 0)
    {
      err := Status();
      if err != 0 { return; }
      var i := 0;
      while i < len
        invariant 0 <= i <= len && failed == old(failed)
        invariant OnlyWithin(old(dst[..]), dst[..], at, len)
        invariant Agrees(dst[..], at, src[..], 0, i)
      {
        ghost var was := dst[..];
        dst[at + i] := src[i];
        WriteOne(old(dst[..]), was, dst[..], at, len, src[..], 0, i);
        i := i + 1;
      }
    }

    method HostAlloc(size: nat) returns (buf: array?<byte>)
      requires Valid()
      modifies this`failed, this`ledger
      ensures Valid()
      ensures buf != null ==> fresh(buf) && buf.Length == size
      ensures buf != null ==> ledger == old(ledger).(host := old(ledger).host + {buf})
      ensures buf == null ==> ledger == old(ledger)
      ensures failed == (old(failed) || buf == null)
    {
      var err := Status();
      if err != 0 { return null; }
      var b := new byte[size];
      buf := b;
      ledger := ledger.(host := ledger.host + {b});
    }

    method HostFree(buf: array<byte>)
      requires Valid() && buf in ledger.host
      modifies this`ledger
      ensures Valid() && ledger == old(ledger).(host := old(ledger).host - {buf})
    {
      ledger := ledger.(host := ledger.host - {buf});
    }
  }
}
