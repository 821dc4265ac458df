/**
 * `FmmRedstoneClientAdapter`: the mod and a system-side program exchange
 * two 64-bit channel words through two small files that both map into
 * memory. Each file holds the word as sixteen ASCII hex digits, most
 * significant first. The file system is a map from path to contents; a
 * mapped buffer reads and writes the leading bytes of its file.
 */
module FmmAdapter {
  import opened JavaInt
  import opened Nibbles
  import opened Ascii

  type Fs = map<string, seq<Byte>>

  /** The largest map `FileMemMap.open` accepts. */
  const MAX_MAP_SIZE: int := 4096
  /** Sixteen hex digits: one per nibble of a `long`. */
  const MAP_SIZE: nat := 16
  /** The retry delay after an error the mod side stores (20 ticks); `tick()` never reads it and retries on the next tick. */
  const ERROR_RELOAD_DELAY: int := 20

  // ------------------------------------------------------------ hex digits

  /** `hex2nibble`: the value of a hex digit of either case; any other byte reads as 0. */
  function HexToNibble(b: Byte): (n: Nibble)
    ensures !IsHex(b) ==> n == 0
    ensures IsDigit(b) ==> n < 10
    ensures LOWER_A <= b <= LOWER_F ==> n >= 10
  {
    if UPPER_A <= b <= UPPER_F then b - UPPER_A + 10
    else if LOWER_A <= b <= LOWER_F then b - LOWER_A + 10
    else if DIGIT_0 <= b <= DIGIT_9 then b - DIGIT_0
    else 0
  }

  /**
   * `nibble2hex`: a lower-case hex digit for 0..15 that `hex2nibble` reads
   * back; anything else becomes '0', not a clamped 'f'.
   */
  function NibbleToHex(n: int): (b: Byte)
    ensures 0 <= n <= 15 ==> IsLowerHex(b) && HexToNibble(b) == n
    ensures !(0 <= n <= 15) ==> b == DIGIT_0
  {
    if n <= 0 then DIGIT_0
    else if n <= 9 then DIGIT_0 + n
    else if n <= 15 then LOWER_A + (n - 10)
    else DIGIT_0
  }

  /** Upper- and lower-case letters read the same. */
  lemma HexCaseInsensitive(b: Byte)
    requires IsUpperHex(b)
    ensures HexToNibble(b) == HexToNibble(b + (LOWER_A - UPPER_A))
  {
  }

  /** Lower-case digits survive the trip the other way as well. */
  lemma HexDigitRoundTrip(b: Byte)
    requires IsLowerHex(b)
    ensures NibbleToHex(HexToNibble(b)) == b
  {
  }

  // ---------------------------------------------------------- FileMemMap

  /**
   * A `FileMemMap`. Its byte array is `data`, so its size is `|data|`;
   * `mapped` says whether both the file and the buffer are held.
   */
  datatype MemMap = MemMap(path: string, isWrite: bool, data: seq<Byte>, mapped: bool)

  /** A fresh map holds `size` ASCII '0' characters and is not open. */
  function NewMap(path: string, output: bool, size: nat): (m: MemMap)
    ensures |m.data| == size && !m.mapped && m.path == path && m.isWrite == output
    ensures forall i :: 0 <= i < size ==> m.data[i] == DIGIT_0
  {
    MemMap(path, output, seq(size, i => DIGIT_0), false)
  }

  /** `closed()`. */
  predicate Closed(m: MemMap)
  {
    !m.mapped
  }

  /** `get`: the byte at `index`, or 0 outside the map. */
  function Get(m: MemMap, index: int): (b: Byte)
    ensures !(0 <= index < |m.data|) ==> b == 0
  {
    if index < 0 || index >= |m.data| then 0 else m.data[index]
  }

  /** `set`: stores a byte inside the map and ignores any other index. */
  function Set(m: MemMap, index: int, value: Byte): (r: MemMap)
    ensures |r.data| == |m.data| && r.path == m.path && r.isWrite == m.isWrite && r.mapped == m.mapped
    ensures 0 <= index < |m.data| ==> Get(r, index) == value
    ensures forall j :: 0 <= j < |m.data| && j != index ==> r.data[j] == m.data[j]
    ensures !(0 <= index < |m.data|) ==> r == m
  {
    if 0 <= index < |m.data| then m.(data := m.data[index := value]) else m
  }

  /** `close()`. */
  function Close(m: MemMap): (r: MemMap)
    ensures Closed(r) && r.data == m.data && r.path == m.path && r.isWrite == m.isWrite
  {
    m.(mapped := false)
  }

  datatype Opened = Opened(file: MemMap, fs: Fs, ok: bool)

  /**
   * `open(initialize)`. A size outside 1..4096 is refused before anything
   * else happens. An initializing open first writes the map's bytes over a
   * missing or short file. A write map then takes its bytes into the file.
   * A missing or short file fails the open; opening a missing file for
   * writing leaves it created and empty.
   */
  function Open(m: MemMap, initialize: bool, fs: Fs): (r: Opened)
  {
    var size := |m.data|;
    if size <= 0 || size > MAX_MAP_SIZE then Opened(m, fs, false)
    else
      var m0 := Close(m);
      var fs1 := if initialize && (m.path !in fs || |fs[m.path]| < size) then fs[m.path := m.data] else fs;
      if m.path !in fs1 then
        Opened(m0, if m.isWrite then fs1[m.path := []] else fs1, false)
      else if |fs1[m.path]| < size then Opened(m0, fs1, false)
      else if m.isWrite then Opened(m0.(mapped := true), fs1[m.path := m.data + fs1[m.path][size..]], true)
      else Opened(m0.(mapped := true), fs1, true)
  }

  /** A mapped buffer is backed by a file at least as long as the map. */
  predicate Backed(m: MemMap, fs: Fs)
  {
    m.mapped ==> m.path in fs && |fs[m.path]| >= |m.data|
  }

  /** The size guard: an empty or oversized map is refused and nothing changes, not even the file system. */
  lemma OpenGuard(m: MemMap, initialize: bool, fs: Fs)
    requires |m.data| == 0 || |m.data| > MAX_MAP_SIZE
    ensures Open(m, initialize, fs) == Opened(m, fs, false)
  {
  }

  /**
   * What an open within the size limit does: it succeeds exactly when the
   * file then exists and is long enough, leaves the map mapped and backed
   * exactly then, and a write map has its bytes at the start of the file.
   * No file is removed or shortened.
   */
  lemma OpenEffect(m: MemMap, initialize: bool, fs: Fs)
    requires 0 < |m.data| <= MAX_MAP_SIZE
    ensures var r := Open(m, initialize, fs);
            && r.file.data == m.data && r.file.path == m.path && r.file.isWrite == m.isWrite
            && (r.ok <==> !Closed(r.file))
            && (r.ok <==> initialize || (m.path in fs && |fs[m.path]| >= |m.data|))
            && Backed(r.file, r.fs)
            && (r.ok && m.isWrite ==> r.fs[m.path][..|m.data|] == m.data)
            && (r.ok && !m.isWrite ==> r.fs[m.path][..|m.data|] == (if initialize && (m.path !in fs || |fs[m.path]| < |m.data|) then m.data else fs[m.path][..|m.data|]))
            && (m.path in fs ==> m.path in r.fs && |r.fs[m.path]| >= |fs[m.path]|)
            && (forall p :: p != m.path ==> (p in r.fs <==> p in fs) && (p in fs ==> r.fs[p] == fs[p]))
  {
  }

  datatype Ticked = Ticked(file: MemMap, fs: Fs, ok: bool)

  /**
   * `FileMemMap.tick()`: a write map copies its bytes into the buffer, a read
   * map copies the buffer into its bytes. Without a buffer the access
   * throws, which closes the map and fails the tick.
   */
  function TickMap(m: MemMap, fs: Fs): (r: Ticked)
    requires Backed(m, fs)
    ensures r.ok <==> m.mapped
    ensures |r.file.data| == |m.data| && r.file.path == m.path && r.file.isWrite == m.isWrite
    ensures Backed(r.file, r.fs)
  {
    if !m.mapped then Ticked(Close(m), fs, false)
    else if m.isWrite then Ticked(m, fs[m.path := m.data + fs[m.path][|m.data|..]], true)
    else Ticked(m.(data := fs[m.path][..|m.data|]), fs, true)
  }

  /** A write map's tick puts its bytes at the start of its file; a read map's tick takes them from there. */
  lemma TickMapTransfers(m: MemMap, fs: Fs)
    requires Backed(m, fs) && m.mapped
    ensures var r := TickMap(m, fs);
            && (m.isWrite ==> r.file == m && r.fs[m.path][..|m.data|] == m.data && |r.fs[m.path]| == |fs[m.path]|)
            && (!m.isWrite ==> r.fs == fs && r.file.data == fs[m.path][..|m.data|] && r.file.mapped)
            && (forall p :: p != m.path ==> (p in r.fs <==> p in fs) && (p in fs ==> r.fs[p] == fs[p]))
  {
  }

  // ----------------------------------------------------------- the adapter

  /** `ipcIoPath`: "<tmp>/redstonepen.o.mmap" for the mod side's output, "<tmp>/redstonepen.i.mmap" for its input. */
  function IpcIoPath(tmp: string, mcSideOutput: bool): (p: string)
    ensures |p| == |tmp| + 19
    ensures p[|tmp| + 13] == if mcSideOutput then 'o' else 'i'
  {
    tmp + "/redstonepen" + "." + [if mcSideOutput then 'o' else 'i'] + ".mmap"
  }

  /** The two IPC files have different paths. */
  lemma IpcPathsDiffer(tmp: string)
    ensures IpcIoPath(tmp, true) != IpcIoPath(tmp, false)
  {
    assert IpcIoPath(tmp, true)[|tmp| + 13] != IpcIoPath(tmp, false)[|tmp| + 13];
  }

  datatype Adapter = Adapter(
    systemSide: bool,
    reopenDelay: int,
    inFile: MemMap,
    outFile: MemMap,
    inputWord: Word,
    outputWord: Word,
    inputChanged: bool,
    outputChanged: bool,
    ipcOpen: bool)

  /** The adapter's own invariant: two sixteen-byte maps, one read and one written, and 64-bit words. */
  predicate WellFormed(a: Adapter)
  {
    && |a.inFile.data| == MAP_SIZE && |a.outFile.data| == MAP_SIZE
    && !a.inFile.isWrite && a.outFile.isWrite
    && |a.inputWord| == LONG_NIBBLES && |a.outputWord| == LONG_NIBBLES
  }

  /**
   * `new Adapter(systemSide)`: the system side reads the ".o" file and writes
   * the ".i" file, the mod side the other way round. Nothing is open yet and
   * the output counts as changed, so the first open tick writes it.
   */
  function NewAdapter(tmp: string, systemSide: bool): (a: Adapter)
    ensures WellFormed(a) && !a.ipcOpen && a.outputChanged && !a.inputChanged
    ensures a.inFile.path == IpcIoPath(tmp, systemSide) && a.outFile.path == IpcIoPath(tmp, !systemSide)
    ensures a.reopenDelay == if systemSide then 0 else ERROR_RELOAD_DELAY
  {
    var delay := if systemSide then 0 else ERROR_RELOAD_DELAY;
    Adapter(systemSide, delay,
      NewMap(IpcIoPath(tmp, systemSide), false, MAP_SIZE),
      NewMap(IpcIoPath(tmp, !systemSide), true, MAP_SIZE),
      Zero(LONG_NIBBLES), Zero(LONG_NIBBLES), false, true, false)
  }

  /** Each side reads the file the other side writes, and the two files differ. */
  lemma SidesSwapFiles(tmp: string)
    ensures NewAdapter(tmp, true).inFile.path == NewAdapter(tmp, false).outFile.path
    ensures NewAdapter(tmp, false).inFile.path == NewAdapter(tmp, true).outFile.path
    ensures NewAdapter(tmp, true).inFile.path != NewAdapter(tmp, true).outFile.path
  {
    IpcPathsDiffer(tmp);
  }

  /** `setInputs`: stores the word, and raises the changed flag only when the word differs. */
  function SetInputs(a: Adapter, val: Word): (r: Adapter)
    ensures r.inputWord == val
    ensures r.inputChanged == (a.inputChanged || val != a.inputWord)
    ensures r.(inputWord := a.inputWord, inputChanged := a.inputChanged) == a
  {
    if val != a.inputWord then a.(inputWord := val, inputChanged := true) else a
  }

  /** `setOutputs`: the same for the output word. */
  function SetOutputs(a: Adapter, val: Word): (r: Adapter)
    ensures r.outputWord == val
    ensures r.outputChanged == (a.outputChanged || val != a.outputWord)
    ensures r.(outputWord := a.outputWord, outputChanged := a.outputChanged) == a
  {
    if val != a.outputWord then a.(outputWord := val, outputChanged := true) else a
  }

  /** Setting the current word changes nothing, and setting a word twice is setting it once. */
  lemma SettersIdempotent(a: Adapter, val: Word)
    ensures SetInputs(a, a.inputWord) == a && SetOutputs(a, a.outputWord) == a
    ensures SetInputs(SetInputs(a, val), val) == SetInputs(a, val)
    ensures SetOutputs(SetOutputs(a, val), val) == SetOutputs(a, val)
  {
  }

  // ------------------------------------------------------- word <-> bytes

  /** The word sixteen hex bytes spell: byte 0 is the most significant nibble. */
  function Decoded(bytes: seq<Byte>): (w: Word)
    requires |bytes| == MAP_SIZE
    ensures |w| == LONG_NIBBLES
  {
    seq(LONG_NIBBLES, j requires 0 <= j < LONG_NIBBLES => HexToNibble(bytes[15 - j]))
  }

  /** The sixteen lower-case hex bytes of a word, most significant nibble first. */
  function Encoded(w: Word): (bytes: seq<Byte>)
    requires |w| == LONG_NIBBLES
    ensures |bytes| == MAP_SIZE
    ensures forall i :: 0 <= i < MAP_SIZE ==> IsLowerHex(bytes[i])
  {
    seq(MAP_SIZE, i requires 0 <= i < MAP_SIZE => NibbleToHex(w[15 - i]))
  }

  /** Decoding the bytes a word was encoded to gives the word back. */
  lemma EncodedDecodes(w: Word)
    requires |w| == LONG_NIBBLES
    ensures Decoded(Encoded(w)) == w
  {
    var e := Encoded(w);
    forall j | 0 <= j < LONG_NIBBLES
      ensures Decoded(e)[j] == w[j]
    {
      assert e[15 - j] == NibbleToHex(w[j]);
    }
  }

  /** The input half of `tick`: `val = (val << 4) | hex2nibble(get(i))` for i = 0..15. */
  method DecodeInput(m: MemMap) returns (val: Word)
    requires |m.data| == MAP_SIZE
    ensures val == Decoded(m.data)
  {
    val := Zero(LONG_NIBBLES);
    var i := 0;
    while i < 16
      invariant 0 <= i <= 16 && |val| == LONG_NIBBLES
      invariant forall j :: 0 <= j < i ==> val[j] == HexToNibble(m.data[i - 1 - j])
      invariant forall j :: i <= j < LONG_NIBBLES ==> val[j] == 0
    {
      val := Or(ShiftUp(val, 1), Place(LONG_NIBBLES, HexToNibble(Get(m, i)), 0));
      i := i + 1;
    }
  }

  /** The output half of `tick`: byte i, from 15 down to 0, takes `nibble2hex(val & 0xf)`, then `val >>= 4`. */
  method EncodeOutput(m: MemMap, w: Word) returns (r: MemMap)
    requires |m.data| == MAP_SIZE && |w| == LONG_NIBBLES
    ensures r == m.(data := Encoded(w))
  {
    var val := w;
    r := m;
    var i := 15;
    while i >= 0
      invariant -1 <= i <= 15 && |val| == LONG_NIBBLES && |r.data| == MAP_SIZE
      invariant r == m.(data := r.data)
      invariant val[..i + 1] == w[15 - i..]
      invariant r.data[i + 1..] == Encoded(w)[i + 1..]
    {
      var b := NibbleToHex(Low(val[0]));
      assert b == Encoded(w)[i] by {
        assert val[0] == val[..i + 1][0];
      }
      r := Set(r, i, b);
      val := ShiftDown(val, true);
      i := i - 1;
    }
  }

  /**
   * `tick()` on an adapter that is not open: the system side creates and
   * initializes both maps, the mod side reopens both whenever either is
   * closed, and the second map is not tried if the first fails.
   */
  function Reopen(a: Adapter, fs: Fs): (r: (Adapter, Fs))
    requires WellFormed(a) && Backed(a.inFile, fs) && Backed(a.outFile, fs) && !a.ipcOpen
    ensures WellFormed(r.0) && Backed(r.0.inFile, r.1) && Backed(r.0.outFile, r.1)
    ensures r.0.ipcOpen ==> r.0.inFile.mapped && r.0.outFile.mapped
  {
    var i := Open(a.inFile, a.systemSide, fs);
    OpenEffect(a.inFile, a.systemSide, fs);
    if !i.ok then (a.(inFile := i.file), i.fs)
    else
      var o := Open(a.outFile, a.systemSide, i.fs);
      OpenEffect(a.outFile, a.systemSide, i.fs);
      (a.(inFile := i.file, outFile := o.file, ipcOpen := o.ok), o.fs)
  }

  /** The system side always gets both maps open, creating the files it needs. */
  lemma SystemSideOpens(a: Adapter, fs: Fs)
    requires WellFormed(a) && Backed(a.inFile, fs) && Backed(a.outFile, fs) && !a.ipcOpen && a.systemSide
    ensures var (r, fs') := Reopen(a, fs);
            r.ipcOpen && a.inFile.path in fs' && a.outFile.path in fs'
  {
    var i := Open(a.inFile, true, fs);
    OpenEffect(a.inFile, true, fs);
    OpenEffect(a.outFile, true, i.fs);
  }

  /** The mod side opens exactly when both files already exist and hold a whole word. */
  lemma ModSideNeedsFiles(a: Adapter, fs: Fs)
    requires WellFormed(a) && Backed(a.inFile, fs) && Backed(a.outFile, fs) && !a.ipcOpen && !a.systemSide
    ensures var (r, fs') := Reopen(a, fs);
            r.ipcOpen <==> (&& a.inFile.path in fs && |fs[a.inFile.path]| >= MAP_SIZE
                            && a.outFile.path in fs && |fs[a.outFile.path]| >= MAP_SIZE)
  {
    var i := Open(a.inFile, false, fs);
    OpenEffect(a.inFile, false, fs);
    OpenEffect(a.outFile, false, i.fs);
  }

  /**
   * `tick()` on an open adapter: it reads the input map and raises the
   * input flag if the word changed, writes a changed output word and keeps
   * the output flag raised if that failed, and stays open only while both
   * maps are.
   */
  function Exchange(a: Adapter, fs: Fs): (r: (Adapter, Fs))
    requires WellFormed(a) && Backed(a.inFile, fs) && Backed(a.outFile, fs)
    ensures WellFormed(r.0) && Backed(r.0.inFile, r.1) && Backed(r.0.outFile, r.1)
  {
    var i := TickMap(a.inFile, fs);
    var a1 := if i.ok then SetInputs(a, Decoded(i.file.data)) else a;
    var a2 := a1.(inFile := i.file);
    if a.outputChanged then
      var o := TickMap(a.outFile.(data := Encoded(a.outputWord)), fs);
      (a2.(outFile := o.file, outputChanged := !o.ok, ipcOpen := !Closed(i.file) && !Closed(o.file)), o.fs)
    else (a2.(ipcOpen := !Closed(i.file) && !Closed(a.outFile)), fs)
  }

  /** `tick()`. */
  function Tick(a: Adapter, fs: Fs): (r: (Adapter, Fs))
    requires WellFormed(a) && Backed(a.inFile, fs) && Backed(a.outFile, fs)
    ensures WellFormed(r.0) && Backed(r.0.inFile, r.1) && Backed(r.0.outFile, r.1)
  {
    if a.ipcOpen then Exchange(a, fs)
    else if a.systemSide || Closed(a.inFile) || Closed(a.outFile) then Reopen(a, fs)
    else (a, fs)
  }

  /** An open adapter whose maps are mapped reads its input word from the start of its input file. */
  lemma TickReadsInput(a: Adapter, fs: Fs)
    requires WellFormed(a) && Backed(a.inFile, fs) && Backed(a.outFile, fs)
    requires a.ipcOpen && a.inFile.mapped
    ensures var r := Tick(a, fs).0;
            && r.inputWord == Decoded(fs[a.inFile.path][..MAP_SIZE])
            && r.inputChanged == (a.inputChanged || r.inputWord != a.inputWord)
  {
    TickMapTransfers(a.inFile, fs);
  }

  /**
   * An open adapter with a changed output word writes its encoding to the
   * start of its output file, clears the output flag and stays open.
   */
  lemma TickWritesOutput(a: Adapter, fs: Fs)
    requires WellFormed(a) && Backed(a.inFile, fs) && Backed(a.outFile, fs)
    requires a.ipcOpen && a.inFile.mapped && a.outFile.mapped && a.outputChanged
    ensures var (r, fs') := Tick(a, fs);
            && fs'[a.outFile.path][..MAP_SIZE] == Encoded(a.outputWord)
            && !r.outputChanged && r.ipcOpen
            && (forall p :: p != a.outFile.path ==> (p in fs' <==> p in fs) && (p in fs ==> fs'[p] == fs[p]))
  {
    var o := a.outFile.(data := Encoded(a.outputWord));
    TickMapTransfers(o, fs);
    TickMapTransfers(a.inFile, fs);
  }

  /**
   * The exchange works end to end: after the mod side's tick writes a
   * changed output word, the system side's next tick reads that very word
   * as its input.
   */
  lemma OutputReachesOtherSide(tmp: string, mod: Adapter, sys: Adapter, fs: Fs)
    requires WellFormed(mod) && Backed(mod.inFile, fs) && Backed(mod.outFile, fs)
    requires mod.ipcOpen && mod.inFile.mapped && mod.outFile.mapped && mod.outputChanged
    requires mod.outFile.path == IpcIoPath(tmp, true) && sys.inFile.path == IpcIoPath(tmp, true)
    requires WellFormed(sys) && sys.ipcOpen && sys.inFile.mapped
    requires Backed(sys.inFile, fs) && Backed(sys.outFile, fs)
    ensures var fs' := Tick(mod, fs).1;
            Backed(sys.inFile, fs') && Backed(sys.outFile, fs') && Tick(sys, fs').0.inputWord == mod.outputWord
  {
    var fs' := Tick(mod, fs).1;
    TickWritesOutput(mod, fs);
    TickReadsInput(sys, fs');
    EncodedDecodes(mod.outputWord);
  }
}
