/**
 * `sw::ipc::memory_mapped_file<T>` of the C++ host adapter, Linux branch:
 * a region of `count` elements of a file, mapped into memory. Every
 * system call (`open`, `fstat`, `ftruncate`, `mmap`, `msync`) is an outcome
 * passed in; the mapped memory is the sequence of elements the mapping
 * shows.
 */
module MappedFile {
  import opened Wrappers
  import DivMod

  type Flags = x: nat | x < 0x1_0000_0000

  /** The four defined flag bits. */
  const FLAG_NOCREATE: nat := 0x01
  const FLAG_READWRITE: nat := 0x02
  const FLAG_SHARED: nat := 0x04
  const FLAG_PROTECTED: nat := 0x08
  const DEFINED_FLAGS: nat := 0x10

  /** `max_byte_size()`: 128 MiB. */
  const MAX_BYTE_SIZE: nat := 0x800_0000
  /** `size_t` arithmetic is modulo 2^64. */
  const SIZE_MOD: nat := 0x1_0000_0000_0000_0000
  const INVALID_DESCRIPTOR: int := -1
  /** Linux's `ERANGE`. */
  const ERANGE: int := 34

  /** Linux `open(2)` flags and `chmod(2)` permission bits. */
  const O_RDONLY: nat := 0
  const O_RDWR: nat := 2
  const O_CREAT: nat := 0x40
  const O_NOCTTY: nat := 0x100
  const O_NONBLOCK: nat := 0x800
  const O_CLOEXEC: nat := 0x8_0000
  const S_IRUSR: nat := 0x100
  const S_IWUSR: nat := 0x80
  const S_IRGRP: nat := 0x20
  const S_IWGRP: nat := 0x10
  const S_IROTH: nat := 0x4
  const S_IWOTH: nat := 0x2

  /** Whether the single bit `bit` (a power of two) is set in x. */
  predicate Has(x: nat, bit: nat)
    requires bit > 0
  {
    (x / bit) % 2 == 1
  }

  /** The address `mmap` returned: none yet, `MAP_FAILED`, or a view of the mapped elements. */
  datatype Addr<T> = Null | MapFailed | Mapped(view: seq<T>)

  datatype Region<T> = Region(
    path: string,
    fd: int,
    adr: Addr<T>,
    size: nat,
    offset: nat,
    flags: Flags,
    error: int)

  /**
   * A usable region: a mapping shows at least `size` elements, and a
   * failed mapping's address is never kept.
   */
  predicate Valid<T>(r: Region<T>)
  {
    && !r.adr.MapFailed?
    && (r.adr.Mapped? ==> |r.adr.view| >= r.size)
  }

  /** The default-constructed region. `flags_` is not initialised there; it starts at 0 here. */
  function Empty<T>(): (r: Region<T>)
    ensures Valid(r) && Closed(r) && r.size == 0 && r.error == 0
  {
    Region("", INVALID_DESCRIPTOR, Null, 0, 0, 0, 0)
  }

  /** `closed()`: the descriptor is invalid. */
  predicate Closed<T>(r: Region<T>)
  {
    r.fd == INVALID_DESCRIPTOR
  }

  /**
   * `close()`: size and error become 0 first; an already closed region
   * returns there, otherwise the mapping and descriptor are released.
   */
  function Close<T>(r: Region<T>): (c: Region<T>)
    ensures Closed(c) && c.size == 0 && c.error == 0
    ensures c.path == r.path && c.flags == r.flags
    ensures Valid(r) ==> Valid(c)
    ensures !Closed(r) ==> c.adr == Null && c.offset == 0
  {
    var c := r.(size := 0, error := 0);
    if Closed(r) then c else c.(fd := INVALID_DESCRIPTOR, offset := 0, adr := Null)
  }

  /** Closing twice is closing once. */
  lemma CloseIdempotent<T>(r: Region<T>)
    ensures Close(Close(r)) == Close(r)
  {
  }

  // ------------------------------------------------------------------ open

  /** The outcome of one system call: success, or failure with its `errno`. */
  datatype Step = Ok | Err(errno: int)

  /**
   * What the system does during one `open`: the result of `open(2)` and the
   * descriptor it returns, of `fstat(2)` and the file's byte size, of
   * `ftruncate(2)`, and of `mmap(2)` with the elements the mapping shows.
   */
  datatype Os<T> = Os(open: Step, fd: nat, fstat: Step, fileBytes: nat, truncate: Step, mmap: Step, view: seq<T>)

  /** The arguments `open(2)` is called with. */
  datatype OpenCall = OpenCall(oflags: nat, mode: nat)

  datatype Opened<T> = Opened(region: Region<T>, ok: bool, call: Option<OpenCall>)

  /** The byte size the region needs, `offset*sizeof(T) + count*sizeof(T)` in `size_t`. */
  function FileSize(count: nat, offset: nat, elemSize: nat): (n: nat)
    ensures n < SIZE_MOD
  {
    ((offset * elemSize) % SIZE_MOD + (count * elemSize) % SIZE_MOD) % SIZE_MOD
  }

  /** The flags of the `open(2)` call: read-write and create only for a read-write region without `flag_nocreate`. */
  function OpenFlags(flags: nat): nat
  {
    O_CLOEXEC + O_NOCTTY + O_NONBLOCK
      + (if Has(flags, FLAG_READWRITE) then O_RDWR + (if Has(flags, FLAG_NOCREATE) then 0 else O_CREAT) else O_RDONLY)
  }

  /** The permissions a created file gets. */
  function FileMode(flags: nat): nat
  {
    S_IRUSR
      + (if Has(flags, FLAG_READWRITE) then S_IWUSR else 0)
      + (if Has(flags, FLAG_SHARED) then S_IRGRP + S_IROTH else 0)
      + (if Has(flags, FLAG_PROTECTED) then 0 else S_IWGRP + S_IWOTH)
  }

  /**
   * Owner read is always granted and owner write only to a read-write
   * region; group and others may read a shared file and write an
   * unprotected one. `O_CREAT` is asked for only by a read-write region
   * without `flag_nocreate`, and the access mode is read-write exactly for
   * a read-write region.
   */
  lemma Permissions(flags: nat)
    ensures var m := FileMode(flags);
            && Has(m, S_IRUSR)
            && (Has(m, S_IWUSR) <==> Has(flags, FLAG_READWRITE))
            && (Has(m, S_IRGRP) <==> Has(flags, FLAG_SHARED)) && (Has(m, S_IROTH) <==> Has(flags, FLAG_SHARED))
            && (Has(m, S_IWGRP) <==> !Has(flags, FLAG_PROTECTED)) && (Has(m, S_IWOTH) <==> !Has(flags, FLAG_PROTECTED))
    ensures var o := OpenFlags(flags);
            && (Has(o, O_CREAT) <==> Has(flags, FLAG_READWRITE) && !Has(flags, FLAG_NOCREATE))
            && o % 4 == (if Has(flags, FLAG_READWRITE) then O_RDWR else O_RDONLY)
  {
  }

  /**
   * The steps of `open` up to the `mmap` call: close, record path, flags
   * and offset, check the size, then open, stat and, for a short file,
   * truncate it to size. A failing step closes the region and then records
   * its `errno`. On success the region holds the new descriptor.
   */
  function OpenFile<T>(r: Region<T>, path: string, flags: Flags, count: nat, offset: nat, elemSize: nat, os: Os<T>): (o: Opened<T>)
  {
    var r0 := Close(r).(path := path, flags := flags % DEFINED_FLAGS, offset := offset);
    var fileSize := FileSize(count, offset, elemSize);
    if fileSize <= 0 || fileSize > MAX_BYTE_SIZE then Opened(r0.(error := ERANGE), false, None)
    else
      var call := Some(OpenCall(OpenFlags(flags), FileMode(flags)));
      match os.open
      case Err(e) => Opened(Close(r0).(error := e), false, call)
      case Ok =>
        var r1 := r0.(fd := os.fd);
        match os.fstat
        case Err(e) => Opened(Close(r1).(error := e), false, call)
        case Ok =>
          if os.fileBytes < fileSize && os.truncate.Err? then Opened(Close(r1).(error := os.truncate.errno), false, call)
          else Opened(r1, true, call)
  }

  /**
   * `open` as it is written: a failed `mmap` returns `MAP_FAILED`, which the
   * check against `nullptr` lets through, so the region is reported open
   * with its size set.
   */
  function OpenAsWritten<T>(r: Region<T>, path: string, flags: Flags, count: nat, offset: nat, elemSize: nat, os: Os<T>): (o: Opened<T>)
  {
    var f := OpenFile(r, path, flags, count, offset, elemSize, os);
    if !f.ok then f
    else
      var adr := if os.mmap.Ok? then Mapped(os.view) else MapFailed;
      Opened(f.region.(adr := adr, size := count), true, f.call)
  }

  /**
   * `open` with the `mmap` result compared against `MAP_FAILED`: a failed
   * mapping closes the region and records its `errno` like every other
   * failing step. The size is set last, only on success.
   */
  function Open<T>(r: Region<T>, path: string, flags: Flags, count: nat, offset: nat, elemSize: nat, os: Os<T>): (o: Opened<T>)
  {
    var f := OpenFile(r, path, flags, count, offset, elemSize, os);
    if !f.ok then f
    else match os.mmap
      case Err(e) => Opened(Close(f.region).(error := e), false, f.call)
      case Ok => Opened(f.region.(adr := Mapped(os.view), size := count), true, f.call)
  }

  /** A byte size of 0 or above 128 MiB is refused with `ERANGE` before any system call. */
  lemma OpenGuard<T>(r: Region<T>, path: string, flags: Flags, count: nat, offset: nat, elemSize: nat, os: Os<T>)
    requires var n := FileSize(count, offset, elemSize); n == 0 || n > MAX_BYTE_SIZE
    ensures var o := Open(r, path, flags, count, offset, elemSize, os);
            && !o.ok && o.call.None? && o.region.error == ERANGE && o.region.size == 0 && Closed(o.region)
  {
  }

  /** Reducing modulo 16 keeps bit b of x, for b one of 1, 2, 4, 8 (b * 2 * c == 16). */
  lemma LowBitKept(x: nat, b: nat, c: nat)
    requires b > 0 && c > 0 && b * (2 * c) == DEFINED_FLAGS
    ensures Has(x % DEFINED_FLAGS, b) <==> Has(x, b)
  {
    DivMod.ModMulDiv(x, b, 2 * c);
    DivMod.ModMulDiv(x / b, 2, c);
  }

  /** Only the four defined flag bits are kept, each as it was given. */
  lemma OpenFiltersFlags<T>(r: Region<T>, path: string, flags: Flags, count: nat, offset: nat, elemSize: nat, os: Os<T>)
    ensures var f := Open(r, path, flags, count, offset, elemSize, os).region.flags;
            && f < DEFINED_FLAGS
            && (Has(f, FLAG_NOCREATE) <==> Has(flags, FLAG_NOCREATE))
            && (Has(f, FLAG_READWRITE) <==> Has(flags, FLAG_READWRITE))
            && (Has(f, FLAG_SHARED) <==> Has(flags, FLAG_SHARED))
            && (Has(f, FLAG_PROTECTED) <==> Has(flags, FLAG_PROTECTED))
  {
    assert Open(r, path, flags, count, offset, elemSize, os).region.flags == flags % DEFINED_FLAGS;
    LowBitKept(flags, FLAG_NOCREATE, 8);
    LowBitKept(flags, FLAG_READWRITE, 4);
    LowBitKept(flags, FLAG_SHARED, 2);
    LowBitKept(flags, FLAG_PROTECTED, 1);
  }

  /**
   * An open within the size limit calls `open(2)` with the flags and
   * permissions above. It succeeds exactly when no system call fails (the
   * truncation counts only for a short file); a success leaves the region
   * open, mapped onto the view and sized last; a failure leaves it closed
   * with size 0 and the failing call's `errno`.
   */
  lemma OpenOutcome<T>(r: Region<T>, path: string, flags: Flags, count: nat, offset: nat, elemSize: nat, os: Os<T>)
    requires var n := FileSize(count, offset, elemSize); 0 < n <= MAX_BYTE_SIZE
    ensures var o := Open(r, path, flags, count, offset, elemSize, os);
            && o.call == Some(OpenCall(OpenFlags(flags), FileMode(flags)))
            && (o.ok <==> os.open.Ok? && os.fstat.Ok? && !(os.fileBytes < FileSize(count, offset, elemSize) && os.truncate.Err?) && os.mmap.Ok?)
            && (o.ok ==> !Closed(o.region) && o.region.fd == os.fd && o.region.adr == Mapped(os.view) && o.region.size == count)
            && (!o.ok ==> Closed(o.region) && o.region.size == 0)
  {
  }

  /** A failed open records the `errno` of the first system call that failed. */
  lemma OpenFailureErrno<T>(r: Region<T>, path: string, flags: Flags, count: nat, offset: nat, elemSize: nat, os: Os<T>)
    requires var n := FileSize(count, offset, elemSize); 0 < n <= MAX_BYTE_SIZE
    ensures var o := Open(r, path, flags, count, offset, elemSize, os);
            var short := os.fileBytes < FileSize(count, offset, elemSize);
            && (os.open.Err? ==> o.region.error == os.open.errno)
            && (os.open.Ok? && os.fstat.Err? ==> o.region.error == os.fstat.errno)
            && (os.open.Ok? && os.fstat.Ok? && short && os.truncate.Err? ==> o.region.error == os.truncate.errno)
            && (os.open.Ok? && os.fstat.Ok? && !(short && os.truncate.Err?) && os.mmap.Err? ==> o.region.error == os.mmap.errno)
  {
  }

  /** With a mapping of `count` elements, a successful open yields a usable region. */
  lemma OpenValid<T>(r: Region<T>, path: string, flags: Flags, count: nat, offset: nat, elemSize: nat, os: Os<T>)
    requires Valid(r) && |os.view| == count
    ensures Valid(Open(r, path, flags, count, offset, elemSize, os).region)
  {
  }

  /**
   * As written, a failed `mmap` is reported as a successful open: the region
   * claims `count` elements but holds the failed address, and is not usable.
   */
  lemma MapFailureReportedAsOpen<T>(r: Region<T>, path: string, flags: Flags, count: nat, offset: nat, elemSize: nat, os: Os<T>)
    requires var n := FileSize(count, offset, elemSize); 0 < n <= MAX_BYTE_SIZE
    requires os.open.Ok? && os.fstat.Ok? && os.truncate.Ok? && os.mmap.Err?
    ensures var o := OpenAsWritten(r, path, flags, count, offset, elemSize, os);
            o.ok && o.region.size == count && o.region.adr == MapFailed && !Valid(o.region)
    ensures !Open(r, path, flags, count, offset, elemSize, os).ok
  {
  }

  /** The written and the corrected open agree whenever `mmap` succeeds. */
  lemma OpenAgreesWhenMapped<T>(r: Region<T>, path: string, flags: Flags, count: nat, offset: nat, elemSize: nat, os: Os<T>)
    requires os.mmap.Ok?
    ensures OpenAsWritten(r, path, flags, count, offset, elemSize, os) == Open(r, path, flags, count, offset, elemSize, os)
  {
  }

  // ------------------------------------------------------------ access

  /** `get(index, d)`: the element, or d past the size or with nothing mapped. */
  function Get<T>(r: Region<T>, index: nat, d: T): (v: T)
    requires Valid(r)
    ensures index >= r.size || r.adr.Null? ==> v == d
    ensures index < r.size && r.adr.Mapped? ==> v == r.adr.view[index]
  {
    if index >= r.size || r.adr.Null? then d else r.adr.view[index]
  }

  /** `set(index, v)`: refused past the size, with nothing mapped, or on a read-only region. */
  function Set<T>(r: Region<T>, index: nat, v: T): (res: (Region<T>, bool))
    requires Valid(r)
    ensures Valid(res.0)
    ensures res.1 <==> index < r.size && r.adr.Mapped? && Has(r.flags, FLAG_READWRITE)
    ensures !res.1 ==> res.0 == r
  {
    if index >= r.size || r.adr.Null? || !Has(r.flags, FLAG_READWRITE) then (r, false)
    else (r.(adr := Mapped(r.adr.view[index := v])), true)
  }

  /** A stored element reads back, and no other element changes. */
  lemma SetThenGet<T>(r: Region<T>, index: nat, v: T, j: nat, d: T)
    requires Valid(r)
    ensures var (r', ok) := Set(r, index, v);
            && (ok ==> Get(r', index, d) == v)
            && (j != index ==> Get(r', j, d) == Get(r, j, d))
  {
  }

  /** `sync()`: only an open, read-write, mapped region of positive size asks `msync(2)`. */
  function Sync<T>(r: Region<T>, msync: Step): (ok: bool)
    ensures ok <==> !Closed(r) && Has(r.flags, FLAG_READWRITE) && !r.adr.Null? && r.size > 0 && msync.Ok?
  {
    if Closed(r) || !Has(r.flags, FLAG_READWRITE) || r.adr.Null? || r.size == 0 then false
    else msync.Ok?
  }
}
