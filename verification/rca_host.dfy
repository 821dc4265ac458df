/**
 * `rca::rlc_client_adapter`, the C++ host side of the redstone client
 * adapter: two byte regions of sixteen hex digits each, the mod's input
 * (written here) and the mod's output (read here). Byte 15 - c of a region
 * holds channel c.
 */
module HostAdapter {
  import opened Nibbles
  import opened Ascii
  import MappedFile
  import HostUtil
  import FmmAdapter
  import opened JavaInt

  const NUM_CHANNELS: nat := 16
  /** `channel_type` is `size_t`. */
  const SIZE_MOD: nat := 0x1_0000_0000_0000_0000
  const INPUT_FILE_NAME: string := "redstonepen.i.mmap"
  const OUTPUT_FILE_NAME: string := "redstonepen.o.mmap"

  type Region = MappedFile.Region<Byte>

  datatype Rca = Rca(inp: Region, out: Region)

  predicate Valid(a: Rca)
  {
    MappedFile.Valid(a.inp) && MappedFile.Valid(a.out)
  }

  /** `ok()`: both regions are open. */
  predicate Ok(a: Rca)
  {
    !MappedFile.Closed(a.inp) && !MappedFile.Closed(a.out)
  }

  /**
   * `channel_pos(ch) = 16 - 1 - ch` in `size_t`: channel 0 is the last byte,
   * and a channel past 15 wraps to an index of at least 16.
   */
  function ChannelPos(ch: nat): (pos: nat)
    requires ch < SIZE_MOD
    ensures pos < SIZE_MOD
    ensures ch < NUM_CHANNELS ==> pos == NUM_CHANNELS - 1 - ch
    ensures ch >= NUM_CHANNELS ==> pos >= NUM_CHANNELS
  {
    (NUM_CHANNELS - 1 - ch) % SIZE_MOD
  }

  /** The channel stored at a region's byte for channel ch; 0 when the region cannot give it. */
  function Read(r: Region, ch: nat): (v: Nibble)
    requires MappedFile.Valid(r) && ch < SIZE_MOD
  {
    HostUtil.HexToNybble(MappedFile.Get(r, ChannelPos(ch), 0))
  }

  /** The sixteen channels of a region, nibble i for channel i. */
  function Channels(r: Region): (w: Word)
    requires MappedFile.Valid(r)
    ensures |w| == LONG_NIBBLES
  {
    seq(LONG_NIBBLES, i requires 0 <= i < LONG_NIBBLES => Read(r, i))
  }

  /** `get_input(ch)`. */
  function GetInput(a: Rca, ch: nat): (v: Nibble)
    requires Valid(a) && ch < SIZE_MOD
    ensures ch >= NUM_CHANNELS && a.inp.size <= NUM_CHANNELS ==> v == 0
    ensures ch < NUM_CHANNELS ==> v == Channels(a.inp)[ch]
  {
    Read(a.inp, ch)
  }

  /** `get_output(ch)`. */
  function GetOutput(a: Rca, ch: nat): (v: Nibble)
    requires Valid(a) && ch < SIZE_MOD
    ensures ch >= NUM_CHANNELS && a.out.size <= NUM_CHANNELS ==> v == 0
    ensures ch < NUM_CHANNELS ==> v == Channels(a.out)[ch]
  {
    Read(a.out, ch)
  }

  /** A region every channel can be written to. */
  predicate Writable(r: Region)
  {
    && MappedFile.Valid(r)
    && r.adr.Mapped?
    && r.size >= NUM_CHANNELS
    && MappedFile.Has(r.flags, MappedFile.FLAG_READWRITE)
  }

  /** A region no channel can be written to. */
  predicate ReadOnly(r: Region)
  {
    r.size == 0 || !r.adr.Mapped? || !MappedFile.Has(r.flags, MappedFile.FLAG_READWRITE)
  }

  /** `set_input(ch, value)`: the hex digit of the value clamped to 0..15. */
  function SetInput(a: Rca, ch: nat, value: int): (r: Rca)
    requires Valid(a) && ch < SIZE_MOD
    ensures Valid(r) && r.out == a.out
    ensures r.inp.size == a.inp.size && r.inp.flags == a.inp.flags && r.inp.adr.Mapped? == a.inp.adr.Mapped?
    ensures ReadOnly(a.inp) || (ch >= NUM_CHANNELS && a.inp.size <= NUM_CHANNELS) ==> r == a
  {
    a.(inp := MappedFile.Set(a.inp, ChannelPos(ch), HostUtil.NybbleToHex(JavaInt.Limit(value, 0, 15))).0)
  }

  /**
   * A written channel reads back clamped and no other channel changes.
   */
  lemma SetInputEffect(a: Rca, ch: nat, value: int, other: nat)
    requires Valid(a) && Writable(a.inp) && ch < NUM_CHANNELS && other < SIZE_MOD
    ensures GetInput(SetInput(a, ch, value), ch) == JavaInt.Limit(value, 0, 15)
    ensures other != ch ==> GetInput(SetInput(a, ch, value), other) == GetInput(a, other)
  {
    var c := HostUtil.NybbleToHex(JavaInt.Limit(value, 0, 15));
    MappedFile.SetThenGet(a.inp, ChannelPos(ch), c, ChannelPos(other), 0);
  }

  /** `get_inputs()`/`get_outputs()`: sixteen times `word <<= 4; word |= channel(15 - k)`. */
  method ReadWord(r: Region) returns (word: Word)
    requires MappedFile.Valid(r)
    ensures word == Channels(r)
  {
    word := Zero(LONG_NIBBLES);
    var k := 0;
    while k < NUM_CHANNELS
      invariant 0 <= k <= NUM_CHANNELS && |word| == LONG_NIBBLES
      invariant forall j :: 0 <= j < k ==> word[j] == Read(r, NUM_CHANNELS - k + j)
      invariant forall j :: k <= j < LONG_NIBBLES ==> word[j] == 0
    {
      word := Or(ShiftUp(word, 1), Place(LONG_NIBBLES, Read(r, NUM_CHANNELS - 1 - k), 0));
      k := k + 1;
    }
  }

  method GetInputs(a: Rca) returns (word: Word)
    requires Valid(a)
    ensures word == Channels(a.inp)
    ensures forall ch :: 0 <= ch < NUM_CHANNELS ==> word[ch] == GetInput(a, ch)
  {
    word := ReadWord(a.inp);
  }

  method GetOutputs(a: Rca) returns (word: Word)
    requires Valid(a)
    ensures word == Channels(a.out)
    ensures forall ch :: 0 <= ch < NUM_CHANNELS ==> word[ch] == GetOutput(a, ch)
  {
    word := ReadWord(a.out);
  }

  /** The word `set_inputs` writes: `(word & ~mask_out) | (current & mask_out)`. */
  function Masked(word: Word, maskOut: Word, current: Word): (w: Word)
    requires |word| == |maskOut| == |current|
    ensures |w| == |word|
  {
    Or(And(word, Not(maskOut)), And(current, maskOut))
  }

  /** Nibbles under a full mask keep the current value; under an empty mask they take the new one. */
  lemma MaskedKeeps(word: Word, maskOut: Word, current: Word, i: nat)
    requires |word| == |maskOut| == |current| && i < |word|
    ensures maskOut[i] == 15 ==> Masked(word, maskOut, current)[i] == current[i]
    ensures maskOut[i] == 0 ==> Masked(word, maskOut, current)[i] == word[i]
  {
    var w := Masked(word, maskOut, current);
    assert w[i] == OrN(AndN(word[i], NotN(maskOut[i])), AndN(current[i], maskOut[i]));
    if maskOut[i] == 15 {
      assert AndN(word[i], NotN(15)) == 0 by { BitsDetermine(AndN(word[i], NotN(15))); }
      assert AndN(current[i], 15) == current[i] by { BitsDetermine(current[i]); }
      assert OrN(0, current[i]) == current[i] by { BitsDetermine(current[i]); }
    } else if maskOut[i] == 0 {
      assert AndN(word[i], NotN(0)) == word[i] by { BitsDetermine(word[i]); }
      assert AndN(current[i], 0) == 0 by { BitsDetermine(AndN(current[i], 0)); }
      assert OrN(word[i], 0) == word[i] by { BitsDetermine(word[i]); }
    }
  }

  /** One step of `set_inputs`: channel ch takes nibble v, the other channels keep theirs. */
  lemma WriteStep(a: Rca, ch: nat, v: Nibble)
    requires Valid(a) && Writable(a.inp) && ch < NUM_CHANNELS
    ensures forall j :: 0 <= j < LONG_NIBBLES ==>
      Channels(SetInput(a, ch, v).inp)[j] == if j == ch then v else Channels(a.inp)[j]
  {
    forall j | 0 <= j < LONG_NIBBLES
      ensures Channels(SetInput(a, ch, v).inp)[j] == if j == ch then v else Channels(a.inp)[j]
    {
      SetInputEffect(a, ch, v, j);
    }
  }

  /** Overwriting element ch of `target[..ch] + current[ch..]` with `target[ch]` moves the seam one place up. */
  lemma Overwrite(before: Word, after: Word, target: Word, current: Word, ch: nat)
    requires |before| == |after| == |target| == |current| && ch < |target|
    requires before == target[..ch] + current[ch..]
    requires forall j :: 0 <= j < |after| ==> after[j] == if j == ch then target[ch] else before[j]
    ensures after == target[..ch + 1] + current[ch + 1..]
  {
  }

  /** `word & 0xf` is the next nibble of the target, and `word >>= 4` brings up the one after it. */
  lemma ShiftStep(w: Word, target: Word, ch: nat)
    requires |w| == |target| && ch < |target|
    requires w[..|w| - ch] == target[ch..]
    ensures Low(w[0]) == target[ch]
    ensures ShiftDown(w, false)[..|w| - (ch + 1)] == target[ch + 1..]
  {
    assert w[0] == w[..|w| - ch][0];
  }

  /**
   * The write loop of `set_inputs`: channels 0..15 in turn take `word & 0xf`,
   * after which `word >>= 4`.
   */
  method WriteWord(a: Rca, target: Word) returns (r: Rca)
    requires Valid(a) && |target| == LONG_NIBBLES
    ensures Valid(r) && r.out == a.out
    ensures Writable(a.inp) ==> Channels(r.inp) == target
    ensures ReadOnly(a.inp) ==> r == a
  {
    var current := Channels(a.inp);
    var w := target;
    r := a;
    var ch := 0;
    while ch < NUM_CHANNELS
      invariant 0 <= ch <= NUM_CHANNELS && |w| == LONG_NIBBLES
      invariant Valid(r) && r.out == a.out
      invariant r.inp.size == a.inp.size && r.inp.flags == a.inp.flags && r.inp.adr.Mapped? == a.inp.adr.Mapped?
      invariant w[..LONG_NIBBLES - ch] == target[ch..]
      invariant Writable(a.inp) ==> Channels(r.inp) == target[..ch] + current[ch..]
      invariant ReadOnly(a.inp) ==> r == a
    {
      var v := Low(w[0]);
      ShiftStep(w, target, ch);
      var r' := SetInput(r, ch, v);
      if Writable(a.inp) {
        WriteStep(r, ch, v);
        Overwrite(Channels(r.inp), Channels(r'.inp), target, current, ch);
      }
      r := r';
      w := ShiftDown(w, false);
      ch := ch + 1;
    }
    assert target[..ch] + current[ch..] == target;
  }

  /** `set_inputs(word, mask_out)`: the masked word, written channel by channel. */
  method SetInputs(a: Rca, word: Word, maskOut: Word) returns (r: Rca)
    requires Valid(a) && |word| == |maskOut| == LONG_NIBBLES
    ensures Valid(r) && r.out == a.out
    ensures Writable(a.inp) ==> Channels(r.inp) == Masked(word, maskOut, Channels(a.inp))
    ensures ReadOnly(a.inp) ==> r == a
  {
    var current := GetInputs(a);
    r := WriteWord(a, Masked(word, maskOut, current));
  }

  // ------------------------------------------------------------ open/close

  /** `flag_shared | flag_readwrite` for the mod's input, `flag_shared` for its output. */
  const INPUT_FLAGS: nat := MappedFile.FLAG_SHARED + MappedFile.FLAG_READWRITE
  const OUTPUT_FLAGS: nat := MappedFile.FLAG_SHARED

  /** `close()`: both regions are closed. */
  function Close(a: Rca): (r: Rca)
    ensures !Ok(r) && MappedFile.Closed(r.inp) && MappedFile.Closed(r.out)
    ensures Valid(a) ==> Valid(r)
  {
    Rca(MappedFile.Close(a.inp), MappedFile.Close(a.out))
  }

  /**
   * The files `close()` removes after closing both regions: the input's
   * path, then the output's. A region never opened has an empty path.
   */
  function Unlinked(a: Rca): (paths: seq<string>)
  {
    [a.inp.path, a.out.path]
  }

  /** Closing keeps both paths, so a second `close()` removes the same files again. */
  lemma CloseKeepsUnlinked(a: Rca)
    ensures Unlinked(Close(a)) == Unlinked(a) && |Unlinked(a)| == 2
  {
  }

  /**
   * `open()`: close, then map sixteen bytes of the input file shared and
   * read-write, then sixteen bytes of the output file shared and read-only.
   * A failure throws (the `false`); a failed output map closes the input
   * again.
   */
  function Open(a: Rca, tmp: string, inOs: MappedFile.Os<Byte>, outOs: MappedFile.Os<Byte>): (r: (Rca, bool))
  {
    var c := Close(a);
    var i := MappedFile.Open(c.inp, tmp + "/" + INPUT_FILE_NAME, INPUT_FLAGS, NUM_CHANNELS, 0, 1, inOs);
    if !i.ok then (Rca(i.region, c.out), false)
    else
      var o := MappedFile.Open(c.out, tmp + "/" + OUTPUT_FILE_NAME, OUTPUT_FLAGS, NUM_CHANNELS, 0, 1, outOs);
      if !o.ok then (Rca(MappedFile.Close(i.region), o.region), false)
      else (Rca(i.region, o.region), true)
  }

  /** A mapping that succeeds and shows the sixteen requested bytes. */
  predicate Maps(os: MappedFile.Os<Byte>)
  {
    && os.open.Ok? && os.fstat.Ok? && (os.fileBytes < NUM_CHANNELS ==> os.truncate.Ok?) && os.mmap.Ok?
    && |os.view| == NUM_CHANNELS
  }

  /**
   * `open()` succeeds exactly when both maps do, and then `ok()` holds: the
   * input is writable and shared, the output shared and read-only. On
   * failure `ok()` is false and the input is closed.
   */
  lemma OpenEffect(a: Rca, tmp: string, inOs: MappedFile.Os<Byte>, outOs: MappedFile.Os<Byte>)
    requires Valid(a) && |inOs.view| == NUM_CHANNELS && |outOs.view| == NUM_CHANNELS
    ensures var (r, ok) := Open(a, tmp, inOs, outOs);
            && Valid(r)
            && (ok <==> Maps(inOs) && Maps(outOs))
            && (ok <==> Ok(r))
            && (!ok ==> MappedFile.Closed(r.inp))
            && (ok ==> Writable(r.inp) && MappedFile.Has(r.inp.flags, MappedFile.FLAG_SHARED))
            && (ok ==> r.out.size == NUM_CHANNELS && ReadOnly(r.out) && !MappedFile.Has(r.out.flags, MappedFile.FLAG_READWRITE))
            && (ok ==> MappedFile.Has(r.out.flags, MappedFile.FLAG_SHARED))
  {
    var c := Close(a);
    MappedFile.OpenOutcome(c.inp, tmp + "/" + INPUT_FILE_NAME, INPUT_FLAGS, NUM_CHANNELS, 0, 1, inOs);
    MappedFile.OpenValid(c.inp, tmp + "/" + INPUT_FILE_NAME, INPUT_FLAGS, NUM_CHANNELS, 0, 1, inOs);
    var i := MappedFile.Open(c.inp, tmp + "/" + INPUT_FILE_NAME, INPUT_FLAGS, NUM_CHANNELS, 0, 1, inOs);
    if i.ok {
      MappedFile.OpenOutcome(c.out, tmp + "/" + OUTPUT_FILE_NAME, OUTPUT_FLAGS, NUM_CHANNELS, 0, 1, outOs);
      MappedFile.OpenValid(c.out, tmp + "/" + OUTPUT_FILE_NAME, OUTPUT_FLAGS, NUM_CHANNELS, 0, 1, outOs);
    }
  }

  /**
   * An `open()` records the input file's path whatever happens after, and
   * after a successful one the next `close()` removes exactly the two files
   * it mapped in `tmp`.
   */
  lemma OpenThenCloseUnlinks(a: Rca, tmp: string, inOs: MappedFile.Os<Byte>, outOs: MappedFile.Os<Byte>)
    ensures var (r, ok) := Open(a, tmp, inOs, outOs);
            && Unlinked(r)[0] == tmp + "/" + INPUT_FILE_NAME
            && (ok ==> Unlinked(r) == [tmp + "/" + INPUT_FILE_NAME, tmp + "/" + OUTPUT_FILE_NAME])
            && Unlinked(Close(r)) == Unlinked(r)
  {
  }

  // ------------------------------------------------------- with the mod

  /** A channel the host sets is the channel the mod decodes from the input file. */
  lemma InputReachesMod(a: Rca, ch: nat, value: int)
    requires Valid(a) && Writable(a.inp) && |a.inp.adr.view| == NUM_CHANNELS && ch < NUM_CHANNELS
    ensures var r := SetInput(a, ch, value);
            r.inp.adr.Mapped? && |r.inp.adr.view| == NUM_CHANNELS
            && FmmAdapter.Decoded(r.inp.adr.view)[ch] == JavaInt.Limit(value, 0, 15)
  {
    var r := SetInput(a, ch, value);
    var c := HostUtil.NybbleToHex(JavaInt.Limit(value, 0, 15));
    assert r.inp.adr.view == a.inp.adr.view[NUM_CHANNELS - 1 - ch := c];
    HostUtil.AgreesWithJava(c, 0);
  }

  /** The word the mod encodes into the output file is the word `get_outputs()` returns. */
  lemma ModOutputReachesHost(a: Rca, w: Word)
    requires Valid(a) && |w| == LONG_NIBBLES
    requires a.out.adr == MappedFile.Mapped(FmmAdapter.Encoded(w)) && a.out.size == NUM_CHANNELS
    ensures Channels(a.out) == w
  {
    var e := FmmAdapter.Encoded(w);
    forall ch | 0 <= ch < LONG_NIBBLES
      ensures Channels(a.out)[ch] == w[ch]
    {
      assert e[15 - ch] == FmmAdapter.NibbleToHex(w[ch]);
      HostUtil.AgreesWithJava(e[15 - ch], 0);
      FmmAdapter.HexDigitRoundTrip(e[15 - ch]);
    }
  }
}
