/**
 * The channel packing that `RedstoneClientAdapter` gives every adapter as
 * default methods. The sixteen redstone channels of a cached 64-bit word
 * are its nibbles, channel c being bits 4c..4c+3. Inputs and outputs are
 * packed the same way, so one definition serves both.
 */
module ChannelWord {
  import opened JavaInt
  import opened Nibbles

  /** `numChannels()`. */
  const NUM_CHANNELS: nat := 16

  /**
   * The nibble a channel index addresses. Java takes a long's shift
   * distance modulo 64, so `4*c` shifts by 4 * (c mod 16).
   */
  function Slot(c: int): (k: nat)
    ensures k < NUM_CHANNELS
    ensures 0 <= c < NUM_CHANNELS ==> k == c
  {
    c % 16
  }

  /** `getInputChannel` / `getOutputChannel`: `(word >> (4*c)) & 0xf`. */
  function GetChannel(w: Word, c: int): (v: int)
    requires |w| == LONG_NIBBLES
    ensures 0 <= v <= 15
    ensures v == w[Slot(c)]
  {
    NibbleAt(w, Slot(c))
  }

  /** The mask `(~0xfL) << (4*k)`: all ones strictly above nibble k, zero at k and below. */
  function KeepAbove(k: nat): (m: Word)
    requires k < LONG_NIBBLES
    ensures |m| == LONG_NIBBLES && IsMask(m)
    ensures forall i :: 0 <= i < LONG_NIBBLES ==> (m[i] == 15 <==> i > k)
  {
    ShiftUp(Not(NibbleMask(LONG_NIBBLES, 0)), k)
  }

  /**
   * `setInputChannel` / `setOutputChannel`:
   * `(word & (~0xfL << 4c)) | ((clamp(v, 0, 15) & 0xf) << 4c)`.
   * Channel c reads back the clamped value and the channels above it keep
   * theirs, but the mask also clears every channel below c.
   */
  function SetChannel(w: Word, c: int, v: int): (r: Word)
    requires |w| == LONG_NIBBLES
    ensures |r| == LONG_NIBBLES
  {
    var k := Slot(c);
    Or(And(w, KeepAbove(k)), Place(LONG_NIBBLES, Low(Limit(v, 0, 15)), k))
  }

  /** After `SetChannel`, channel c holds the clamped value, the channels above it are kept and those below it cleared. */
  lemma SetChannelAt(w: Word, c: int, v: int, i: nat)
    requires |w| == LONG_NIBBLES && i < LONG_NIBBLES
    ensures SetChannel(w, c, v)[i] == if i == Slot(c) then Limit(v, 0, 15) else if i > Slot(c) then w[i] else 0
  {
    var k := Slot(c);
    var l := Limit(v, 0, 15);
    var m := KeepAbove(k);
    var a := And(w, m);
    var p := Place(LONG_NIBBLES, Low(l), k);
    LowSignal(l);
    AndMask(w, m);
    assert SetChannel(w, c, v) == Or(a, p);
    assert SetChannel(w, c, v)[i] == OrN(a[i], p[i]);
    assert a[i] == if i > k then w[i] else 0;
    assert p[i] == if i == k then l else 0;
  }

  /** Setting a channel and reading it back gives the value clamped to the redstone range. */
  lemma ReadBack(w: Word, c: int, v: int)
    requires |w| == LONG_NIBBLES
    ensures GetChannel(SetChannel(w, c, v), c) == Limit(v, 0, 15)
    ensures 0 <= v <= 15 ==> GetChannel(SetChannel(w, c, v), c) == v
  {
    SetChannelAt(w, c, v, Slot(c));
  }

  /** Channels written from the top down survive: a later write to a lower channel keeps a higher one. */
  lemma DescendingWritesKeep(w: Word, c: int, d: int, v: int, u: int)
    requires |w| == LONG_NIBBLES && 0 <= d < c < NUM_CHANNELS
    ensures GetChannel(SetChannel(SetChannel(w, c, v), d, u), c) == Limit(v, 0, 15)
  {
    SetChannelAt(w, c, v, c);
    SetChannelAt(SetChannel(w, c, v), d, u, c);
  }

  /** Written from the bottom up they do not: a later write to a higher channel clears a lower one. */
  lemma AscendingWritesLose(w: Word, c: int, d: int, v: int, u: int)
    requires |w| == LONG_NIBBLES && 0 <= c < d < NUM_CHANNELS
    ensures GetChannel(SetChannel(SetChannel(w, c, v), d, u), c) == 0
  {
    SetChannelAt(SetChannel(w, c, v), d, u, c);
  }

  /** Writes channels k-1, k-2, ..., 0 of `vs`, in that order. */
  function WriteDown(w: Word, vs: seq<int>, k: nat): (r: Word)
    requires |w| == LONG_NIBBLES && k <= |vs| && k <= NUM_CHANNELS
    ensures |r| == LONG_NIBBLES
    decreases k
  {
    if k == 0 then w else WriteDown(SetChannel(w, k - 1, vs[k - 1]), vs, k - 1)
  }

  /** Writing channels from the top down stores every one of them, clamped, and leaves the rest. */
  lemma {:induction false} WriteDownStoresAll(w: Word, vs: seq<int>, k: nat)
    requires |w| == LONG_NIBBLES && k <= |vs| && k <= NUM_CHANNELS
    ensures forall i :: 0 <= i < k ==> WriteDown(w, vs, k)[i] == Limit(vs[i], 0, 15)
    ensures forall i :: k <= i < LONG_NIBBLES ==> WriteDown(w, vs, k)[i] == w[i]
    decreases k
  {
    if k > 0 {
      var w' := SetChannel(w, k - 1, vs[k - 1]);
      WriteDownStoresAll(w', vs, k - 1);
      forall i | 0 <= i < LONG_NIBBLES
        ensures w'[i] == if i == k - 1 then Limit(vs[k - 1], 0, 15) else if i > k - 1 then w[i] else 0
      {
        SetChannelAt(w, k - 1, vs[k - 1], i);
      }
    }
  }

  // The mask the setters evidently mean is `~(0xfL << 4c)`, which clears
  // nibble c alone, so that the new value replaces channel c and nothing else.

  /** The channel setter with the intended mask: channel c replaced by the clamped value. */
  function SetChannelIntended(w: Word, c: int, v: int): (r: Word)
    requires |w| == LONG_NIBBLES
    ensures |r| == LONG_NIBBLES
  {
    w[Slot(c) := Low(Limit(v, 0, 15))]
  }

  /** With the intended mask, channel c holds the clamped value and every other channel is kept. */
  lemma SetChannelIntendedAt(w: Word, c: int, v: int, i: nat)
    requires |w| == LONG_NIBBLES && i < LONG_NIBBLES
    ensures SetChannelIntended(w, c, v)[i] == if i == Slot(c) then Limit(v, 0, 15) else w[i]
  {
    LowSignal(Limit(v, 0, 15));
  }

  /** With the intended mask, writes to two different channels keep each other, in either order. */
  lemma IntendedWritesKeep(w: Word, c: int, d: int, v: int, u: int)
    requires |w| == LONG_NIBBLES && Slot(c) != Slot(d)
    ensures GetChannel(SetChannelIntended(SetChannelIntended(w, c, v), d, u), c) == Limit(v, 0, 15)
    ensures GetChannel(SetChannelIntended(SetChannelIntended(w, c, v), d, u), d) == Limit(u, 0, 15)
  {
    var w1 := SetChannelIntended(w, c, v);
    var w2 := SetChannelIntended(w1, d, u);
    SetChannelIntendedAt(w, c, v, Slot(c));
    SetChannelIntendedAt(w1, d, u, Slot(c));
    SetChannelIntendedAt(w1, d, u, Slot(d));
    assert GetChannel(w2, c) == w2[Slot(c)] == w1[Slot(c)];
    assert GetChannel(w2, d) == w2[Slot(d)];
  }
}
