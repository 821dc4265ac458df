/**
 * `RedstoneClientAdapter` of the Python host: it writes the mod's input
 * channels as sixteen hex characters, last channel first, and reads the
 * mod's input and output back the same way. Values are Python integers,
 * the maps are the first sixteen bytes of each file, and the game directory
 * is a map from paths to file contents.
 */
module PythonAdapter {
  import opened Wrappers
  import opened JavaInt
  import opened Nibbles
  import opened Ascii
  import FmmAdapter

  const NUM_CHANNELS: nat := 16
  const USERCACHE: string := "usercache.json"
  const INPUT_FILE_NAME: string := "redstonepen.i.mmap"
  const OUTPUT_FILE_NAME: string := "redstonepen.o.mmap"

  /** The exceptions the adapter can raise: a `None` map is an `AttributeError`. */
  datatype PyError = ValueError | UnicodeDecodeError | AttributeError

  /** The two maps, or none once closed. */
  datatype Py = Py(inMap: Option<seq<Byte>>, outMap: Option<seq<Byte>>)

  /** `max(min(v, 15), 0)` for each value. */
  function Lim(xs: seq<int>): (r: seq<Nibble>)
    ensures |r| == |xs|
    ensures forall i :: 0 <= i < |xs| ==> r[i] == Limit(xs[i], 0, 15)
  {
    seq(|xs|, i requires 0 <= i < |xs| => Limit(xs[i], 0, 15))
  }

  /** `f"{v:1x}"` for a value in 0..15: one lower-case hex character. */
  function HexChar(v: Nibble): (c: Byte)
    ensures IsLowerHex(c)
  {
    if v < 10 then DIGIT_0 + v else LOWER_A + (v - 10)
  }

  /** `_xd`: the clamped values as hex characters, in reversed order. */
  function HexDump(xs: seq<int>): (s: seq<Byte>)
    ensures |s| == |xs|
  {
    if xs == [] then [] else HexDump(xs[1..]) + [HexChar(Limit(xs[0], 0, 15))]
  }

  /** Character i of the dump is the clamped value |xs| - 1 - i. */
  lemma {:induction false} HexDumpAt(xs: seq<int>, i: nat)
    requires i < |xs|
    ensures HexDump(xs)[i] == HexChar(Lim(xs)[|xs| - 1 - i])
  {
    if i < |xs| - 1 {
      HexDumpAt(xs[1..], i);
    }
  }

  /** `int(c, 16)` on one character: a hex digit of either case, or `ValueError`. */
  function HexValue(c: Byte): (r: Result<Nibble, PyError>)
    ensures r.Success? <==> IsHex(c)
  {
    if IsDigit(c) then Success(c - DIGIT_0)
    else if LOWER_A <= c <= LOWER_F then Success(c - LOWER_A + 10)
    else if UPPER_A <= c <= UPPER_F then Success(c - UPPER_A + 10)
    else Failure(ValueError)
  }

  /** The values of the characters, in reversed order, or the first `ValueError`. */
  function ParseDigits(s: seq<Byte>): (r: Result<seq<Nibble>, PyError>)
    ensures r.Success? ==> |r.value| == |s|
  {
    if |s| == 0 then Success([])
    else match HexValue(s[|s| - 1])
      case Failure(e) => Failure(e)
      case Success(d) =>
        match ParseDigits(s[..|s| - 1])
        case Failure(e) => Failure(e)
        case Success(rest) => Success([d] + rest)
  }

  /** `_xp(b.decode('ascii'))`: a byte of 0x80 or above fails the decode first. */
  function Parse(s: seq<Byte>): (r: Result<seq<Nibble>, PyError>)
  {
    if exists i :: 0 <= i < |s| && s[i] < 0 then Failure(UnicodeDecodeError)
    else ParseDigits(s)
  }

  /** Parsing succeeds exactly on strings of hex digits. */
  lemma {:induction false} ParseDigitsAccepts(s: seq<Byte>)
    ensures ParseDigits(s).Success? <==> forall i :: 0 <= i < |s| ==> IsHex(s[i])
  {
    if |s| > 0 {
      ParseDigitsAccepts(s[..|s| - 1]);
      if HexValue(s[|s| - 1]).Success? && ParseDigits(s[..|s| - 1]).Success? {
        forall i | 0 <= i < |s|
          ensures IsHex(s[i])
        {
          if i < |s| - 1 {
            assert s[i] == s[..|s| - 1][i];
          }
        }
      } else if !HexValue(s[|s| - 1]).Success? {
      } else {
        var i :| 0 <= i < |s| - 1 && !IsHex(s[..|s| - 1][i]);
        assert s[i] == s[..|s| - 1][i];
      }
    }
  }

  /** `_xp` reads back what `_xd` wrote: the clamped values, in their order. */
  lemma ParseHexDump(xs: seq<int>)
    ensures Parse(HexDump(xs)) == Success(Lim(xs))
  {
    var s := HexDump(xs);
    forall i | 0 <= i < |s|
      ensures s[i] >= 0
    {
      HexDumpAt(xs, i);
    }
    assert !exists i :: 0 <= i < |s| && s[i] < 0;
    DumpDigits(xs);
  }

  /** The digit reader alone reads back the dump. */
  lemma {:induction false} DumpDigits(xs: seq<int>)
    ensures ParseDigits(HexDump(xs)) == Success(Lim(xs))
  {
    if |xs| > 0 {
      var s := HexDump(xs);
      var v := Limit(xs[0], 0, 15);
      DumpDigits(xs[1..]);
      assert s == HexDump(xs[1..]) + [HexChar(v)];
      assert s[..|s| - 1] == HexDump(xs[1..]);
      HexValueOfChar(v);
      assert Lim(xs) == [v] + Lim(xs[1..]);
    }
  }

  /** `int(c, 16)` reads a written character back as its value. */
  lemma HexValueOfChar(v: Nibble)
    ensures HexValue(HexChar(v)) == Success(v)
  {
  }

  // ----------------------------------------------------------- the adapter

  /** `os.path.join(directory, name)` for a relative name. */
  function Join(dir: string, name: string): (p: string)
    ensures |name| > 0 ==> |p| > 0 && p[|p| - 1] == name[|name| - 1]
  {
    if dir == [] then name
    else if dir[|dir| - 1] == '/' then dir + name
    else dir + "/" + name
  }

  /**
   * The Python adapter maps files in the game directory it is given, the mod
   * maps them in its temporary directory: for a directory named without a
   * trailing separator, the two sides share both files exactly when the two
   * directories are the same.
   */
  lemma SharesModFiles(dir: string, tmp: string)
    requires dir != [] && dir[|dir| - 1] != '/'
    ensures (Join(dir, INPUT_FILE_NAME) == FmmAdapter.IpcIoPath(tmp, false)
             && Join(dir, OUTPUT_FILE_NAME) == FmmAdapter.IpcIoPath(tmp, true))
            <==> dir == tmp
  {
    var i := Join(dir, INPUT_FILE_NAME);
    if i == FmmAdapter.IpcIoPath(tmp, false) {
      assert |dir| == |tmp|;
      assert dir == i[..|dir|] == tmp;
    }
  }

  /** The text both files are created with: sixteen zeros and a newline. */
  function InitialText(): (t: seq<Byte>)
    ensures |t| == NUM_CHANNELS + 1 && t[NUM_CHANNELS] == NEWLINE
    ensures forall i :: 0 <= i < NUM_CHANNELS ==> t[i] == DIGIT_0
  {
    seq(NUM_CHANNELS, i => DIGIT_0) + [NEWLINE]
  }

  /**
   * The constructor: without `usercache.json` in the game directory it
   * raises `ValueError`; otherwise both files are (re)written with the
   * initial text and their first sixteen bytes are mapped.
   */
  function New(dir: string, fs: FmmAdapter.Fs): (r: Result<(Py, FmmAdapter.Fs), PyError>)
  {
    if Join(dir, USERCACHE) !in fs then Failure(ValueError)
    else
      var text := InitialText();
      var fs1 := fs[Join(dir, INPUT_FILE_NAME) := text][Join(dir, OUTPUT_FILE_NAME) := text];
      Success((Py(Some(text[..NUM_CHANNELS]), Some(text[..NUM_CHANNELS])), fs1))
  }

  /** Without `usercache.json` nothing is created; with it both maps read all channels as 0. */
  lemma NewEffect(dir: string, fs: FmmAdapter.Fs)
    ensures Join(dir, USERCACHE) !in fs <==> New(dir, fs) == Failure(ValueError)
    ensures New(dir, fs).Success? ==>
              var (p, fs1) := New(dir, fs).value;
              && GetInputChannels(p) == Success(Zero(NUM_CHANNELS))
              && GetOutputChannels(p) == Success(Zero(NUM_CHANNELS))
              && Join(dir, INPUT_FILE_NAME) in fs1 && Join(dir, OUTPUT_FILE_NAME) in fs1
              && fs1[Join(dir, INPUT_FILE_NAME)][..NUM_CHANNELS] == p.inMap.value
              && fs1[Join(dir, OUTPUT_FILE_NAME)][..NUM_CHANNELS] == p.outMap.value
  {
    if Join(dir, USERCACHE) in fs {
      var zeros := InitialText()[..NUM_CHANNELS];
      var values: seq<int> := Zero(NUM_CHANNELS);
      assert HexDump(values) == zeros by {
        forall i | 0 <= i < NUM_CHANNELS
          ensures HexDump(values)[i] == zeros[i]
        {
          HexDumpAt(values, i);
        }
      }
      ParseHexDump(values);
      assert Lim(values) == Zero(NUM_CHANNELS);
      assert zeros[..NUM_CHANNELS] == zeros;
      assert ReadChannels(Some(zeros)) == Success(Zero(NUM_CHANNELS));
    }
  }

  /** `close()`: every map is dropped. */
  function Close(p: Py): (r: Py)
    ensures r.inMap.None? && r.outMap.None?
  {
    Py(None, None)
  }

  /** `set_input_channels(values)`: exactly sixteen values, written at offset 0. */
  function SetInputChannels(p: Py, xs: seq<int>): (r: Result<Py, PyError>)
    requires Sized(p)
    ensures r.Success? ==> Sized(r.value)
    ensures |xs| != NUM_CHANNELS ==> r == Failure(ValueError)
    ensures |xs| == NUM_CHANNELS && p.inMap.None? ==> r == Failure(AttributeError)
    ensures r.Success? ==> r.value.outMap == p.outMap && r.value.inMap.Some?
  {
    if |xs| != NUM_CHANNELS then Failure(ValueError)
    else match p.inMap
      case None => Failure(AttributeError)
      case Some(_) => Success(p.(inMap := Some(HexDump(xs))))
  }

  /** Sixteen bytes read from a map, parsed. */
  function ReadChannels(m: Option<seq<Byte>>): (r: Result<seq<Nibble>, PyError>)
    requires m.Some? ==> |m.value| == NUM_CHANNELS
    ensures m.None? ==> r == Failure(AttributeError)
    ensures r.Success? ==> |r.value| == NUM_CHANNELS
  {
    match m
    case None => Failure(AttributeError)
    case Some(bytes) => Parse(bytes[..NUM_CHANNELS])
  }

  predicate Sized(p: Py)
  {
    (p.inMap.Some? ==> |p.inMap.value| == NUM_CHANNELS) && (p.outMap.Some? ==> |p.outMap.value| == NUM_CHANNELS)
  }

  function GetInputChannels(p: Py): (r: Result<seq<Nibble>, PyError>)
    requires Sized(p)
  {
    ReadChannels(p.inMap)
  }

  function GetOutputChannels(p: Py): (r: Result<seq<Nibble>, PyError>)
    requires Sized(p)
  {
    ReadChannels(p.outMap)
  }

  /** Reading fails exactly on a closed map or a byte that is not a hex digit. */
  lemma ReadChannelsFails(m: Option<seq<Byte>>)
    requires m.Some? ==> |m.value| == NUM_CHANNELS
    ensures ReadChannels(m).Success? <==> m.Some? && forall i :: 0 <= i < NUM_CHANNELS ==> IsHex(m.value[i])
  {
    if m.Some? {
      var s := m.value[..NUM_CHANNELS];
      ParseDigitsAccepts(s);
      assert forall i :: 0 <= i < NUM_CHANNELS ==> s[i] == m.value[i];
    }
  }

  /** Reading the inputs back after setting them gives the clamped values. */
  lemma SetThenGet(p: Py, xs: seq<int>)
    requires Sized(p) && p.inMap.Some? && |xs| == NUM_CHANNELS
    ensures var r := SetInputChannels(p, xs);
            r.Success? && Sized(r.value) && GetInputChannels(r.value) == Success(Lim(xs))
  {
    var r := SetInputChannels(p, xs).value;
    assert HexDump(xs)[..NUM_CHANNELS] == HexDump(xs);
    ParseHexDump(xs);
  }

  /** The mod decodes channel j of a dump as the clamped value j. */
  lemma DecodedAt(xs: seq<int>, j: nat)
    requires |xs| == NUM_CHANNELS && j < NUM_CHANNELS
    ensures FmmAdapter.Decoded(HexDump(xs))[j] == Lim(xs)[j]
  {
    var v := Lim(xs)[j];
    DumpChannel(xs, j);
    ModReadsHexChar(v);
    DecodedByte(HexDump(xs), j, HexChar(v));
  }

  /** Channel j sits at byte 15 - j of the dump. */
  lemma DumpChannel(xs: seq<int>, j: nat)
    requires |xs| == NUM_CHANNELS && j < NUM_CHANNELS
    ensures HexDump(xs)[15 - j] == HexChar(Lim(xs)[j])
  {
    HexDumpAt(xs, 15 - j);
  }

  /** The mod reads a Python hex character back as its value. */
  lemma ModReadsHexChar(v: Nibble)
    ensures FmmAdapter.HexToNibble(HexChar(v)) == v
  {
    SameDigitsAsMod(v);
  }

  /** Channel j of a decoded dump is read from byte 15 - j alone. */
  lemma DecodedByte(bytes: seq<Byte>, j: nat, b: Byte)
    requires |bytes| == FmmAdapter.MAP_SIZE && j < NUM_CHANNELS && bytes[15 - j] == b
    ensures FmmAdapter.Decoded(bytes)[j] == FmmAdapter.HexToNibble(b)
  {
  }

  /** The mod decodes the clamped channels from what `set_input_channels` writes. */
  lemma ModReadsPythonInput(xs: seq<int>)
    requires |xs| == NUM_CHANNELS
    ensures FmmAdapter.Decoded(HexDump(xs)) == Lim(xs)
  {
    forall j | 0 <= j < NUM_CHANNELS
      ensures FmmAdapter.Decoded(HexDump(xs))[j] == Lim(xs)[j]
    {
      DecodedAt(xs, j);
    }
  }

  /** Python's hex characters are the ones the mod writes. */
  lemma SameDigitsAsMod(v: Nibble)
    ensures HexChar(v) == FmmAdapter.NibbleToHex(v)
  {
  }

  /** The channels the mod encodes into its output file are the ones `get_output_channels` returns. */
  lemma PythonReadsModOutput(p: Py, w: Word)
    requires |w| == LONG_NIBBLES && p.outMap == Some(FmmAdapter.Encoded(w))
    ensures Sized(p) ==> GetOutputChannels(p) == Success(w)
  {
    var e := FmmAdapter.Encoded(w);
    assert e == HexDump(w) by {
      forall i | 0 <= i < NUM_CHANNELS
        ensures e[i] == HexDump(w)[i]
      {
        HexDumpAt(w, i);
        assert Lim(w)[15 - i] == w[15 - i];
        SameDigitsAsMod(w[15 - i]);
      }
    }
    ParseHexDump(w);
    assert Lim(w) == w;
    assert e[..NUM_CHANNELS] == e;
  }
}
