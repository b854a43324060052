/**
 * The frame index: from the checkpoints (known frame offsets) and the frame
 * size, the byte offset of every frame of the file, each tagged with how it
 * was found — 'K' at a checkpoint, 'D' one frame delta after the previous
 * frame, 'B' a multiple of a repeated checkpoint distance ("big delta")
 * after the last checkpoint passed.
 */
module IndexBuilder {
  import opened Common
  import opened Checkpoints
  import opened Scanf

  const Int32Min: int := -0x8000_0000
  const Int32Max: int := 0x7FFF_FFFF

  const FileTooSmall: string := "File too small for even one frame."

  datatype FrameType = Key | Delta | Big

  /** One index slot: the frame's byte offset and how it was found. */
  datatype Entry = Entry(offset: int, kind: FrameType)

  /** `(w * h * bpp) >> 3`: the arithmetic shift is floor division, as Dafny's `/` by 8 is. */
  function FrameSize(width: int, height: int, bitsPerPixel: nat): (r: int)
    ensures r * 8 <= width * height * bitsPerPixel < r * 8 + 8
  {
    (width * height * bitsPerPixel) / 8
  }

  /** The number of whole frames in the file, or the error when there is not even one. */
  function MaxFrame(filelen: nat, framesize: nat): (r: Result<nat>)
    requires framesize > 0
    ensures r.Ok? <==> filelen >= framesize
    ensures r.Ok? ==> r.value * framesize <= filelen < (r.value + 1) * framesize
    ensures r.Err? ==> r.msg == FileTooSmall
  {
    var maxframe := filelen / framesize;
    if maxframe < 1 then Err(FileTooSmall) else Ok(maxframe)
  }

  /** The `(int)` casts of checkpoint distances lose nothing: every byte gap between neighbours fits 32 bits. */
  predicate GapsFitInt32(ri: seq<Checkpoint>)
  {
    forall j :: 1 <= j < |ri| ==> Int32Min <= ri[j].bytepos - ri[j - 1].bytepos <= Int32Max
  }

  function FrameGap(ri: seq<Checkpoint>, j: nat): int
    requires 1 <= j < |ri|
  {
    ri[j].framenr - ri[j - 1].framenr
  }

  function ByteGap(ri: seq<Checkpoint>, j: nat): int
    requires 1 <= j < |ri|
  {
    ri[j].bytepos - ri[j - 1].bytepos
  }

  /**
   * The loop's variables at the top of an iteration: the frame about to be
   * stored, its offset and type, the checkpoint cursor `p_ri`, the frame delta,
   * and the big delta with its frame step and the count of big steps taken.
   */
  datatype State = State(frame: nat, pri: nat, bytepos: int, kind: FrameType,
                         delta: int, bigDelta: int, bigFrameStep: int, bigSteps: int)

  /** Before the loop: frame 0 at the first checkpoint, one frame size as the delta, no big delta. */
  function Init(ri: seq<Checkpoint>, framesize: nat): (s: State)
    requires |ri| >= 1
    ensures s.frame == 0 && s.pri == 0 && s.bytepos == ri[0].bytepos && s.kind == Key
  {
    State(0, 0, ri[0].bytepos, Key, framesize, 0, 0, 0)
  }

  predicate Valid(ri: seq<Checkpoint>, s: State)
  {
    s.pri < |ri|
  }

  /** The offset of the `steps`-th big step: the big delta times the count, in exact arithmetic. */
  function BigStepOffset(base: int, bigDelta: int, steps: int): (r: int)
    ensures steps == 0 ==> r == base
    ensures steps >= 0 && bigDelta >= 0 ==> r >= base
  {
    base + bigDelta * steps
  }

  /** Advancing past a checkpoint: when the frame has reached the next-but-last cursor position, the cursor moves on and the big step count restarts at one. */
  function Advance(ri: seq<Checkpoint>, s: State): (r: State)
    requires Valid(ri, s)
    ensures Valid(ri, r) && r.frame == s.frame && (r.pri == s.pri || r.pri == s.pri + 1)
  {
    if s.pri < |ri| - 1 && ri[s.pri].framenr <= s.frame then s.(pri := s.pri + 1, bigSteps := 1) else s
  }

  /** The next frame's offset and type: a big step, else the checkpoint it is, else one delta on. */
  function Place(ri: seq<Checkpoint>, s: State): (r: State)
    requires Valid(ri, s)
    ensures Valid(ri, r) && r.pri == s.pri && r.frame == s.frame + 1
    ensures r.delta == s.delta && r.bigDelta == s.bigDelta && r.bigFrameStep == s.bigFrameStep
  {
    var frame := s.frame + 1;
    if s.pri > 0 && ri[s.pri - 1].framenr + s.bigSteps * s.bigFrameStep == frame then
      s.(frame := frame, bytepos := BigStepOffset(ri[s.pri - 1].bytepos, s.bigDelta, s.bigSteps), bigSteps := s.bigSteps + 1, kind := Big)
    else if ri[s.pri].framenr == frame then
      s.(frame := frame, bytepos := ri[s.pri].bytepos, kind := Key)
    else
      s.(frame := frame, bytepos := s.bytepos + s.delta, kind := Delta)
  }

  /**
   * The new delta and big delta: a checkpoint one frame after its predecessor
   * gives the frame delta; two equal frame distances in a row give the big
   * delta; a shrinking distance, or a frame that has reached the checkpoint,
   * clears the big delta.
   */
  function Retune(ri: seq<Checkpoint>, s: State): (r: State)
    requires Valid(ri, s) && GapsFitInt32(ri)
    ensures Valid(ri, r) && r.frame == s.frame && r.pri == s.pri && r.bytepos == s.bytepos && r.kind == s.kind && r.bigSteps == s.bigSteps
    ensures r.bigFrameStep == s.bigFrameStep || r.bigFrameStep == 0 ||
            (s.pri > 1 && r.bigFrameStep == FrameGap(ri, s.pri) == FrameGap(ri, s.pri - 1))
    ensures r.delta == s.delta || (s.pri > 0 && r.delta == ByteGap(ri, s.pri))
  {
    var p := s.pri;
    if p > 0 && ri[p].framenr == ri[p - 1].framenr + 1 then
      s.(delta := ByteGap(ri, p))
    else if p > 1 then
      if FrameGap(ri, p) == FrameGap(ri, p - 1) then
        s.(bigFrameStep := FrameGap(ri, p), bigDelta := ByteGap(ri, p))
      else
        var t := if FrameGap(ri, p) < FrameGap(ri, p - 1) then s.(bigDelta := 0, bigFrameStep := 0) else s;
        if s.frame >= ri[p].framenr then t.(bigDelta := 0, bigFrameStep := 0) else t
    else s
  }

  /** One iteration of the loop (after the current frame's offset is stored). */
  function Step(ri: seq<Checkpoint>, s: State): (r: State)
    requires Valid(ri, s) && GapsFitInt32(ri)
    ensures Valid(ri, r) && r.frame == s.frame + 1
  {
    Retune(ri, Place(ri, Advance(ri, s)))
  }

  /** The loop's state at the top of the iteration for frame `n`. */
  function Iterate(ri: seq<Checkpoint>, framesize: nat, n: nat): (s: State)
    requires |ri| >= 1 && GapsFitInt32(ri)
    ensures Valid(ri, s) && s.frame == n
  {
    if n == 0 then Init(ri, framesize) else Step(ri, Iterate(ri, framesize, n - 1))
  }

  /** The index slot the loop stores for frame `n`. */
  function EntryAt(ri: seq<Checkpoint>, framesize: nat, n: nat): (e: Entry)
    requires |ri| >= 1 && GapsFitInt32(ri)
    ensures n == 0 ==> e == Entry(ri[0].bytepos, Key)
  {
    Entry(Iterate(ri, framesize, n).bytepos, Iterate(ri, framesize, n).kind)
  }

  /** The slots for frames `0 .. n-1`, in order. */
  function Entries(ri: seq<Checkpoint>, framesize: nat, n: nat): (r: seq<Entry>)
    requires |ri| >= 1 && GapsFitInt32(ri)
    ensures |r| == n
    ensures forall k :: 0 <= k < n ==> r[k] == EntryAt(ri, framesize, k)
  {
    if n == 0 then [] else Entries(ri, framesize, n - 1) + [EntryAt(ri, framesize, n - 1)]
  }

  lemma EntriesGrow(ri: seq<Checkpoint>, framesize: nat, n: nat, s: State)
    requires |ri| >= 1 && GapsFitInt32(ri) && s == Iterate(ri, framesize, n)
    ensures Entries(ri, framesize, n + 1) == Entries(ri, framesize, n) + [Entry(s.bytepos, s.kind)]
    ensures Iterate(ri, framesize, n + 1) == Step(ri, s)
  {
  }

  /** Every slot's frame lies entirely inside a file of `filelen` bytes. */
  predicate InsideFile(slots: seq<Entry>, framesize: nat, filelen: int)
  {
    forall k :: 0 <= k < |slots| ==> slots[k].offset + framesize <= filelen
  }

  lemma InsideFileGrows(slots: seq<Entry>, e: Entry, framesize: nat, filelen: int)
    requires InsideFile(slots, framesize, filelen) && e.offset + framesize <= filelen
    ensures InsideFile(slots + [e], framesize, filelen)
  {
    assert forall k :: 0 <= k < |slots| ==> (slots + [e])[k] == slots[k];
  }

  /** Stores frame `n`'s offset in its slot and the next frame's type in the slot after it. */
  method Store(index: array<Entry>, n: nat, offset: int, next: FrameType)
    requires n + 1 < index.Length
    modifies index
    ensures index[..n + 1] == old(index[..n]) + [Entry(offset, old(index[n].kind))]
    ensures forall k :: 0 <= k < n ==> index[k] == old(index[k])
    ensures index[n + 1].kind == next
  {
    index[n] := index[n].(offset := offset);
    index[n + 1] := index[n + 1].(kind := next);
  }

  /**
   * The index loop (src/rawsource26.cpp): stores frames while there is a next
   * frame to index and it fits in the file.  Every stored slot is the model's
   * entry for its frame, every stored frame lies entirely inside the file,
   * and the loop stops at the frame limit or at the first frame that would
   * run past the end of the file.  Slot `numFrames` receives only its type,
   * as in the source; the offsets past it are never written.
   */
  method BuildIndex(ri: seq<Checkpoint>, framesize: nat, filelen: int, maxframe: nat)
    returns (index: array<Entry>, numFrames: nat)
    requires |ri| >= 1 && GapsFitInt32(ri)
    ensures fresh(index) && index.Length == maxframe + 1 && numFrames <= maxframe
    ensures index[..numFrames] == Entries(ri, framesize, numFrames)
    ensures index[numFrames].kind == Iterate(ri, framesize, numFrames).kind
    ensures InsideFile(Entries(ri, framesize, numFrames), framesize, filelen)
    ensures numFrames == maxframe || Iterate(ri, framesize, numFrames).bytepos + framesize > filelen
  {
    index := new Entry[maxframe + 1](_ => Entry(0, Key));
    var s := Init(ri, framesize);
    index[0] := index[0].(kind := Key);
    while s.frame < maxframe && s.bytepos + framesize <= filelen
      invariant s.frame <= maxframe && s == Iterate(ri, framesize, s.frame)
      invariant index[..s.frame] == Entries(ri, framesize, s.frame)
      invariant InsideFile(Entries(ri, framesize, s.frame), framesize, filelen)
      invariant index[s.frame].kind == s.kind
      decreases maxframe - s.frame
    {
      var t := Step(ri, s);
      EntriesGrow(ri, framesize, s.frame, s);
      InsideFileGrows(Entries(ri, framesize, s.frame), Entry(s.bytepos, s.kind), framesize, filelen);
      Store(index, s.frame, s.bytepos, t.kind);
      assert t.frame == s.frame + 1 && index[t.frame].kind == t.kind;
      s := t;
    }
    numFrames := s.frame;
  }

  // ------------------------------------------------------------- properties

  /** Slot `k` of the first `n` is frame `k`'s entry. */
  lemma {:induction false} EntriesAt(ri: seq<Checkpoint>, framesize: nat, n: nat, k: nat)
    requires |ri| >= 1 && GapsFitInt32(ri) && k < n
    ensures Entries(ri, framesize, n)[k] == EntryAt(ri, framesize, k)
  {
    var front := Entries(ri, framesize, n - 1);
    assert Entries(ri, framesize, n) == front + [EntryAt(ri, framesize, n - 1)];
    if k < n - 1 {
      EntriesAt(ri, framesize, n - 1, k);
      assert Entries(ri, framesize, n)[k] == front[k];
    }
  }

  /** One loop iteration over a single checkpoint at frame 0: one frame size on. */
  lemma SingleStep(ri: seq<Checkpoint>, framesize: nat, s: State)
    requires |ri| == 1 && ri[0].framenr == 0
    requires Valid(ri, s) && s.delta == framesize && s.bigFrameStep == 0
    ensures var r := Step(ri, s);
            && r.bytepos == s.bytepos + framesize && r.kind == Delta
            && r.pri == 0 && r.delta == framesize && r.bigFrameStep == 0
  {
  }

  /**
   * With the single checkpoint frame 0 (an explicit index naming only it),
   * frames follow one another at one frame size each, all found by delta.
   */
  lemma {:induction false} SingleCheckpointIsLinear(ri: seq<Checkpoint>, framesize: nat, n: nat)
    requires |ri| == 1 && ri[0].framenr == 0
    ensures var s := Iterate(ri, framesize, n);
            && s.bytepos == ri[0].bytepos + n * framesize
            && (n >= 1 ==> s.kind == Delta)
            && s.pri == 0 && s.delta == framesize && s.bigFrameStep == 0
  {
    if n > 0 {
      SingleCheckpointIsLinear(ri, framesize, n - 1);
      SingleStep(ri, framesize, Iterate(ri, framesize, n - 1));
      assert (n - 1) * framesize + framesize == n * framesize;
    }
  }

  /** One loop iteration over the synthetic pair: frame 1 is the second checkpoint, every later frame one stride on. */
  lemma PairStep(ri: seq<Checkpoint>, s: State)
    requires |ri| == 2 && ri[0].framenr == 0 && ri[1].framenr == 1 && GapsFitInt32(ri)
    requires Valid(ri, s) && s.bigFrameStep == 0
    requires s.frame == 0 ==> s.pri == 0
    requires s.frame >= 1 ==> s.pri == 1 && s.delta == ByteGap(ri, 1)
    ensures var r := Step(ri, s);
            && r.pri == 1 && r.delta == ByteGap(ri, 1) && r.bigFrameStep == 0
            && r.bytepos == (if s.frame == 0 then ri[1].bytepos else s.bytepos + ByteGap(ri, 1))
            && r.kind == (if s.frame == 0 then Key else Delta)
  {
  }

  /** Over two checkpoints at frames 0 and 1, frame `n >= 1` lies `n - 1` strides after the second. */
  lemma {:induction false} PairIsLinear(ri: seq<Checkpoint>, framesize: nat, n: nat)
    requires |ri| == 2 && ri[0].framenr == 0 && ri[1].framenr == 1 && GapsFitInt32(ri) && n >= 1
    ensures var s := Iterate(ri, framesize, n);
            && s.bytepos == ri[1].bytepos + (n - 1) * ByteGap(ri, 1)
            && s.kind == (if n == 1 then Key else Delta)
            && s.pri == 1 && s.delta == ByteGap(ri, 1) && s.bigFrameStep == 0
  {
    if n > 1 {
      PairIsLinear(ri, framesize, n - 1);
      PairStep(ri, Iterate(ri, framesize, n - 1));
      assert (n - 2) * ByteGap(ri, 1) + ByteGap(ri, 1) == (n - 1) * ByteGap(ri, 1);
    } else {
      PairStep(ri, Iterate(ri, framesize, 0));
    }
  }

  /**
   * Without an index, frame `n` starts `n` strides of frame header plus frame
   * after the header offset; frames 0 and 1 are checkpoints, the rest deltas.
   */
  lemma UnindexedFramesAreEvenlySpaced(headerOffset: int, frameOffset: int, framesize: nat,
                                       indexFile: Option<string>, fmt: NumberFormat, n: nat)
    requires Int32Min <= frameOffset + framesize <= Int32Max
    ensures var r := RawindexSpec([], headerOffset, frameOffset, framesize, indexFile, fmt);
            && r.Ok? && GapsFitInt32(r.value)
            && Iterate(r.value, framesize, n).bytepos == headerOffset + n * (frameOffset + framesize)
            && Iterate(r.value, framesize, n).kind == (if n <= 1 then Key else Delta)
  {
    var stride := frameOffset + framesize;
    var ri := [Checkpoint(0, headerOffset), Checkpoint(1, headerOffset + stride)];
    assert RawindexSpec([], headerOffset, frameOffset, framesize, indexFile, fmt) == Ok(ri);
    assert ByteGap(ri, 1) == stride;
    if n > 0 {
      PairIsLinear(ri, framesize, n);
      assert stride + (n - 1) * stride == n * stride;
    }
  }

  /** Frame numbers strictly increase along the checkpoint list. */
  predicate Ascending(ri: seq<Checkpoint>)
  {
    forall i, j :: 0 <= i < j < |ri| ==> ri[i].framenr < ri[j].framenr
  }

  /** No two neighbouring checkpoint distances are equal, so no big delta is ever set up. */
  predicate NoRepeatedGap(ri: seq<Checkpoint>)
  {
    forall j :: 2 <= j < |ri| ==> FrameGap(ri, j) != FrameGap(ri, j - 1)
  }

  /**
   * The cursor invariant over ascending checkpoints without repeated
   * distances: after frame 0 the cursor rests on the first checkpoint not yet
   * passed (or the last one), the frame is a checkpoint exactly when it is the
   * cursor's, and then it has the checkpoint's offset.
   */
  predicate OnCursor(ri: seq<Checkpoint>, s: State)
  {
    && s.bigFrameStep == 0 && 1 <= s.pri < |ri|
    && ri[s.pri - 1].framenr < s.frame
    && (s.pri < |ri| - 1 ==> s.frame <= ri[s.pri].framenr)
    && (s.kind == Key <==> ri[s.pri].framenr == s.frame)
    && (s.kind == Key ==> s.bytepos == ri[s.pri].bytepos)
  }

  lemma CursorStep(ri: seq<Checkpoint>, s: State)
    requires |ri| >= 2 && GapsFitInt32(ri) && Ascending(ri) && NoRepeatedGap(ri) && ri[0].framenr == 0
    requires Valid(ri, s) && (if s.frame == 0 then s.pri == 0 && s.bigFrameStep == 0 else OnCursor(ri, s))
    ensures OnCursor(ri, Step(ri, s))
  {
    var a := Advance(ri, s);
    assert 1 <= a.pri && ri[a.pri - 1].framenr <= s.frame;
    assert a.pri < |ri| - 1 ==> s.frame < ri[a.pri].framenr;
  }

  lemma {:induction false} CursorInvariant(ri: seq<Checkpoint>, framesize: nat, n: nat)
    requires |ri| >= 2 && GapsFitInt32(ri) && Ascending(ri) && NoRepeatedGap(ri) && ri[0].framenr == 0
    requires n >= 1
    ensures OnCursor(ri, Iterate(ri, framesize, n))
  {
    if n > 1 {
      CursorInvariant(ri, framesize, n - 1);
    }
    CursorStep(ri, Iterate(ri, framesize, n - 1));
  }

  /**
   * Over ascending checkpoints with no repeated distance, every checkpoint's
   * frame is indexed as a checkpoint at exactly the checkpoint's offset, and
   * every other frame after frame 0 is not.
   */
  lemma CheckpointsAreKeyFrames(ri: seq<Checkpoint>, framesize: nat, n: nat)
    requires |ri| >= 1 && GapsFitInt32(ri) && Ascending(ri) && NoRepeatedGap(ri) && ri[0].framenr == 0
    ensures forall j :: 0 <= j < |ri| && ri[j].framenr == n ==>
              Iterate(ri, framesize, n).kind == Key && Iterate(ri, framesize, n).bytepos == ri[j].bytepos
    ensures Iterate(ri, framesize, n).kind == Key ==> exists j :: 0 <= j < |ri| && ri[j].framenr == n
  {
    if n >= 1 && |ri| >= 2 {
      CursorInvariant(ri, framesize, n);
    } else if n >= 1 {
      SingleCheckpointIsLinear(ri, framesize, n);
    }
  }

  /** A checkpoint-typed frame after frame 0 sits exactly where the checkpoint under the cursor says. */
  lemma KeyFramesSitAtCheckpoints(ri: seq<Checkpoint>, framesize: nat, n: nat)
    requires |ri| >= 1 && GapsFitInt32(ri) && n >= 1
    requires Iterate(ri, framesize, n).kind == Key
    ensures var s := Iterate(ri, framesize, n);
            ri[s.pri].framenr == n && s.bytepos == ri[s.pri].bytepos
  {
    var s := Iterate(ri, framesize, n - 1);
    var a := Advance(ri, s);
    assert Iterate(ri, framesize, n) == Retune(ri, Place(ri, a));
  }

  /**
   * Three checkpoints at frames 0, P and 2P (P of at least 2): the setting in
   * which the loop learns a big delta from two equal frame distances and then
   * extrapolates it past the last checkpoint.
   */
  predicate EvenlySpacedTriple(ri: seq<Checkpoint>)
  {
    && |ri| == 3 && ri[0].framenr == 0 && ri[1].framenr >= 2
    && ri[2].framenr == 2 * ri[1].framenr && GapsFitInt32(ri)
  }

  /** The frame `k` big steps of `p` frames after frame `p`, counted up one step at a time. */
  function Periods(p: nat, k: nat): nat
  {
    if k == 0 then p else Periods(p, k - 1) + p
  }

  lemma {:induction false} PeriodsAreMultiples(p: nat, k: nat)
    ensures Periods(p, k) == p + k * p
  {
    if k > 0 {
      PeriodsAreMultiples(p, k - 1);
    }
  }

  /**
   * The loop's state at frame `P + k*P + r` after the big delta is learned:
   * `k` big steps past the middle checkpoint and `r` frame deltas on, the
   * frame a big step exactly when `r` is 0.
   */
  predicate Extrapolating(ri: seq<Checkpoint>, framesize: nat, s: State, k: nat, r: nat)
    requires EvenlySpacedTriple(ri)
  {
    && s.pri == 2 && s.bigFrameStep == ri[1].framenr && s.bigDelta == ByteGap(ri, 2)
    && s.delta == framesize && s.bigSteps == k + 1
    && s.bytepos == BigStepOffset(ri[1].bytepos, ByteGap(ri, 2), k) + r * framesize
    && s.kind == (if r == 0 then Big else Delta)
  }

  /** One iteration while extrapolating: a frame delta, or the next big step when `r` reaches P. */
  lemma ExtrapolatingStep(ri: seq<Checkpoint>, framesize: nat, s: State, k: nat, r: nat)
    requires EvenlySpacedTriple(ri) && Valid(ri, s) && r < ri[1].framenr
    requires s.frame == Periods(ri[1].framenr, k) + r
    requires Extrapolating(ri, framesize, s, k, r)
    ensures r + 1 < ri[1].framenr ==> Extrapolating(ri, framesize, Step(ri, s), k, r + 1)
    ensures r + 1 == ri[1].framenr ==> Extrapolating(ri, framesize, Step(ri, s), k + 1, 0)
  {
    var p := ri[1].framenr;
    PeriodsAreMultiples(p, k + 1);
    assert ri[1].framenr + s.bigSteps * s.bigFrameStep == Periods(p, k) + p;
    assert Periods(p, k) >= p;
    assert Advance(ri, s) == s;
    var pl := Place(ri, s);
    if r + 1 == p {
      assert pl == s.(frame := s.frame + 1, bytepos := BigStepOffset(ri[1].bytepos, s.bigDelta, k + 1),
                      bigSteps := k + 2, kind := Big);
    } else {
      assert ri[2].framenr != s.frame + 1;
      assert pl == s.(frame := s.frame + 1, bytepos := s.bytepos + framesize, kind := Delta);
      assert r * framesize + framesize == (r + 1) * framesize;
    }
    assert Retune(ri, pl) == pl;
  }

  /**
   * The loop's state over an evenly spaced triple, frame by frame: frame 0 as
   * initialised; up to the middle checkpoint one frame delta at a time and
   * then the checkpoint itself; after it, `k` big steps and `r` deltas on,
   * where `k + 1` is the big step count.
   */
  predicate Tracks(ri: seq<Checkpoint>, framesize: nat, s: State)
  {
    && EvenlySpacedTriple(ri)
    && var p := ri[1].framenr;
       if s.frame == 0 then s == Init(ri, framesize)
       else if s.frame <= p then
         && s.pri == 1 && s.bigFrameStep == 0 && s.delta == framesize && s.bigSteps == 1
         && s.bytepos == (if s.frame == p then ri[1].bytepos else ri[0].bytepos + s.frame * framesize)
         && s.kind == (if s.frame == p then Key else Delta)
       else
         && s.bigSteps >= 1
         && Periods(p, s.bigSteps - 1) <= s.frame < Periods(p, s.bigSteps - 1) + p
         && Extrapolating(ri, framesize, s, s.bigSteps - 1, s.frame - Periods(p, s.bigSteps - 1))
  }

  /** Up to the middle checkpoint, and the iteration that leaves it and learns the big delta. */
  lemma TracksBeforeMiddle(ri: seq<Checkpoint>, framesize: nat, s: State)
    requires Valid(ri, s) && Tracks(ri, framesize, s) && s.frame <= ri[1].framenr
    ensures Tracks(ri, framesize, Step(ri, s))
  {
    var p := ri[1].framenr;
    var a := Advance(ri, s);
    var pl := Place(ri, a);
    if s.frame == p {
      assert a == s.(pri := 2, bigSteps := 1);
      assert pl == a.(frame := s.frame + 1, bytepos := s.bytepos + framesize, kind := Delta);
      assert Periods(p, 0) == p;
    } else {
      assert a.pri == 1 && a.bigSteps == 1 && a.delta == framesize && a.bigFrameStep == 0;
      if s.frame + 1 < p {
        assert pl.bytepos == ri[0].bytepos + s.frame * framesize + framesize;
        assert s.frame * framesize + framesize == (s.frame + 1) * framesize;
      }
    }
  }

  /** After the middle checkpoint. */
  lemma TracksAfterMiddle(ri: seq<Checkpoint>, framesize: nat, s: State)
    requires Valid(ri, s) && Tracks(ri, framesize, s) && s.frame > ri[1].framenr
    ensures Tracks(ri, framesize, Step(ri, s))
  {
    var p := ri[1].framenr;
    var k := s.bigSteps - 1;
    ExtrapolatingStep(ri, framesize, s, k, s.frame - Periods(p, k));
    assert Periods(p, k + 1) == Periods(p, k) + p;
  }

  /** `inv` holds of the loop's state at every frame when it holds initially and every iteration keeps it. */
  lemma {:induction false} IterateKeeps(ri: seq<Checkpoint>, framesize: nat, inv: State -> bool, n: nat)
    requires |ri| >= 1 && GapsFitInt32(ri)
    requires inv(Init(ri, framesize))
    requires forall s {:trigger Step(ri, s)} :: Valid(ri, s) && inv(s) ==> inv(Step(ri, s))
    ensures inv(Iterate(ri, framesize, n))
  {
    if n > 0 {
      IterateKeeps(ri, framesize, inv, n - 1);
    }
  }

  /** Two ways of writing a frame as whole periods plus a remainder below P agree. */
  lemma {:induction false} PeriodsUnique(p: nat, k: nat, r: nat, b: nat, q: nat)
    requires p >= 1 && r < p && q < p && Periods(p, k) + r == Periods(p, b) + q
    ensures k == b && r == q
  {
    if k > 0 && b > 0 {
      PeriodsUnique(p, k - 1, r, b - 1, q);
    }
  }

  /** A tracked state at frame `Periods(P, k) + r` is `k` big steps and `r` deltas on. */
  lemma TrackedFrame(ri: seq<Checkpoint>, framesize: nat, s: State, k: nat, r: nat)
    requires Tracks(ri, framesize, s) && r < ri[1].framenr && (k >= 1 || r >= 1)
    requires s.frame == Periods(ri[1].framenr, k) + r
    ensures Extrapolating(ri, framesize, s, k, r)
  {
    var p := ri[1].framenr;
    assert s.frame > p by {
      if k >= 1 {
        assert Periods(p, k) == Periods(p, k - 1) + p;
      }
    }
    PeriodsUnique(p, k, r, s.bigSteps - 1, s.frame - Periods(p, s.bigSteps - 1));
  }

  /** Every iteration over an evenly spaced triple keeps `Tracks`. */
  lemma TracksIsKept(ri: seq<Checkpoint>, framesize: nat)
    ensures forall t {:trigger Step(ri, t)} :: Valid(ri, t) && Tracks(ri, framesize, t) ==> Tracks(ri, framesize, Step(ri, t))
  {
    forall t | Valid(ri, t) && Tracks(ri, framesize, t)
      ensures Tracks(ri, framesize, Step(ri, t))
    {
      if t.frame <= ri[1].framenr {
        TracksBeforeMiddle(ri, framesize, t);
      } else {
        TracksAfterMiddle(ri, framesize, t);
      }
    }
  }

  lemma TracksEveryFrame(ri: seq<Checkpoint>, framesize: nat, n: nat)
    requires EvenlySpacedTriple(ri)
    ensures Tracks(ri, framesize, Iterate(ri, framesize, n))
  {
    TracksIsKept(ri, framesize);
    IterateKeeps(ri, framesize, t => Tracks(ri, framesize, t), n);
  }

  /**
   * Past the middle checkpoint the index extrapolates the learned big delta:
   * frame `P + k*P + r` (written `Periods(P, k) + r`, see `PeriodsAreMultiples`)
   * lies `k` big deltas after the middle checkpoint and `r` frame sizes on,
   * and is a big step exactly when `r` is 0 — so frame 2P lands on the last
   * checkpoint and every later multiple of P is a further big delta on.
   */
  lemma BigDeltaIsExtrapolated(ri: seq<Checkpoint>, framesize: nat, k: nat, r: nat)
    requires EvenlySpacedTriple(ri) && r < ri[1].framenr && (k >= 1 || r >= 1)
    ensures var s := Iterate(ri, framesize, Periods(ri[1].framenr, k) + r);
            && s.bytepos == BigStepOffset(ri[1].bytepos, ByteGap(ri, 2), k) + r * framesize
            && s.kind == (if r == 0 then Big else Delta)
  {
    var n := Periods(ri[1].framenr, k) + r;
    TracksEveryFrame(ri, framesize, n);
    TrackedFrame(ri, framesize, Iterate(ri, framesize, n), k, r);
  }

  // ------------------------------------------------------ one iteration

  /**
   * The cursor moves at most one checkpoint per frame, and only while it is
   * before the last checkpoint and the frame has reached the checkpoint under
   * it; a move restarts the big step count, so the frame placed right after it
   * has taken at most that one big step.
   */
  lemma CursorMovesAtMostOne(ri: seq<Checkpoint>, framesize: nat, n: nat)
    requires |ri| >= 1 && GapsFitInt32(ri)
    ensures var s := Iterate(ri, framesize, n);
            var t := Iterate(ri, framesize, n + 1);
            && t.pri == (if s.pri < |ri| - 1 && ri[s.pri].framenr <= n then s.pri + 1 else s.pri)
            && (t.pri == s.pri + 1 ==> t.bigSteps == (if t.kind == Big then 2 else 1))
  {
    var s := Iterate(ri, framesize, n);
    assert Iterate(ri, framesize, n + 1) == Retune(ri, Place(ri, Advance(ri, s)));
  }

  /**
   * A frame is a big step exactly when it lies a whole number of big frame
   * steps after the checkpoint behind the cursor; it is then that many big
   * deltas on from that checkpoint's offset.
   */
  lemma BigStepFires(ri: seq<Checkpoint>, framesize: nat, n: nat)
    requires |ri| >= 1 && GapsFitInt32(ri)
    ensures var a := Advance(ri, Iterate(ri, framesize, n));
            var t := Iterate(ri, framesize, n + 1);
            && (t.kind == Big <==> a.pri > 0 && ri[a.pri - 1].framenr + a.bigSteps * a.bigFrameStep == n + 1)
            && (t.kind == Big ==> t.bytepos == BigStepOffset(ri[a.pri - 1].bytepos, a.bigDelta, a.bigSteps)
                                  && t.bigSteps == a.bigSteps + 1)
  {
    var a := Advance(ri, Iterate(ri, framesize, n));
    assert Iterate(ri, framesize, n + 1) == Retune(ri, Place(ri, a));
  }

  /**
   * A frame that is the cursor's checkpoint, and is not a big step, takes the
   * checkpoint's offset and is tagged 'K'; a 'K' frame is always the cursor's
   * checkpoint at its offset.
   */
  lemma FrameSnapsToCheckpoint(ri: seq<Checkpoint>, framesize: nat, n: nat)
    requires |ri| >= 1 && GapsFitInt32(ri)
    ensures var a := Advance(ri, Iterate(ri, framesize, n));
            var t := Iterate(ri, framesize, n + 1);
            && (ri[t.pri].framenr == n + 1 && t.kind != Big ==> t.kind == Key && t.bytepos == ri[t.pri].bytepos)
            && (t.kind == Key ==> ri[t.pri].framenr == n + 1 && t.bytepos == ri[t.pri].bytepos)
            && (t.kind == Delta <==> t.kind != Big && ri[t.pri].framenr != n + 1)
            && (t.kind == Delta ==> t.bytepos == a.bytepos + a.delta)
  {
    var a := Advance(ri, Iterate(ri, framesize, n));
    assert Iterate(ri, framesize, n + 1) == Retune(ri, Place(ri, a));
  }

  /**
   * After each frame the deltas are retuned to the cursor `p`: a checkpoint
   * one frame after its predecessor sets the frame delta; two equal
   * consecutive frame distances set the big frame step and big delta; a
   * distance shorter than the one before, or a frame that has reached the
   * checkpoint, clears them.
   */
  lemma DeltasAreRetuned(ri: seq<Checkpoint>, framesize: nat, n: nat)
    requires |ri| >= 1 && GapsFitInt32(ri)
    ensures var s := Iterate(ri, framesize, n);
            var t := Iterate(ri, framesize, n + 1);
            var p := t.pri;
            && (p > 0 && FrameGap(ri, p) == 1 ==> t.delta == ByteGap(ri, p))
            && (p > 1 && FrameGap(ri, p) != 1 && FrameGap(ri, p) == FrameGap(ri, p - 1) ==>
                  t.bigFrameStep == FrameGap(ri, p) && t.bigDelta == ByteGap(ri, p))
            && (p > 1 && FrameGap(ri, p) != 1 && FrameGap(ri, p) != FrameGap(ri, p - 1) &&
                (FrameGap(ri, p) < FrameGap(ri, p - 1) || n + 1 >= ri[p].framenr) ==>
                  t.bigFrameStep == 0 && t.bigDelta == 0)
            && (p > 1 && FrameGap(ri, p) != 1 && FrameGap(ri, p) > FrameGap(ri, p - 1) && n + 1 < ri[p].framenr ==>
                  t.bigFrameStep == s.bigFrameStep && t.bigDelta == s.bigDelta)
            && (!(p > 0 && FrameGap(ri, p) == 1) ==> t.delta == s.delta)
  {
    var s := Iterate(ri, framesize, n);
    assert Iterate(ri, framesize, n + 1) == Retune(ri, Place(ri, Advance(ri, s)));
  }

  // ------------------------------------------- 32-bit big delta product

  /** A value reduced to a two's-complement 32-bit integer, as a wrapping `int` product is. */
  function WrapInt32(v: int): (r: int)
    ensures Int32Min <= r <= Int32Max
    ensures (r - v) % 0x1_0000_0000 == 0
    ensures Int32Min <= v <= Int32Max ==> r == v
  {
    (v - Int32Min) % 0x1_0000_0000 + Int32Min
  }

  /** The source's big step offset: `big_delta * big_steps` is a product of two `int`s and wraps before it is added. */
  function BigStepOffsetAsWritten(base: int, bigDelta: int, steps: int): (r: int)
    ensures Int32Min <= r - base <= Int32Max
    ensures (r - BigStepOffset(base, bigDelta, steps)) % 0x1_0000_0000 == 0
  {
    base + WrapInt32(bigDelta * steps)
  }

  /** The two agree exactly while the product fits in 32 bits. */
  lemma BigStepOffsetAgreesWhileProductFits(base: int, bigDelta: int, steps: int)
    ensures BigStepOffsetAsWritten(base, bigDelta, steps) == BigStepOffset(base, bigDelta, steps)
            <==> Int32Min <= bigDelta * steps <= Int32Max
  {
  }

  /**
   * Checkpoints every 25 frames of a 1920x1080 4:2:0 clip give a big delta of
   * 77760000 bytes; the 28th big step (frame 700 after the checkpoint) then
   * lands 2^32 bytes before its true offset, at a negative position.
   */
  lemma BigStepOffsetWrapsAt28Steps()
    ensures FrameSize(1920, 1080, 12) * 25 == 77760000
    ensures BigStepOffset(0, 77760000, 28) == 2177280000
    ensures BigStepOffsetAsWritten(0, 77760000, 28) == 2177280000 - 0x1_0000_0000 < 0
    ensures BigStepOffsetAsWritten(0, 77760000, 27) == BigStepOffset(0, 77760000, 27)
  {
  }

  /** Each further big step lands exactly one big delta further on. */
  lemma {:induction false} BigStepsAreEvenlySpaced(base: int, bigDelta: int, steps: int)
    ensures BigStepOffset(base, bigDelta, steps + 1) == BigStepOffset(base, bigDelta, steps) + bigDelta
  {
    assert bigDelta * (steps + 1) == bigDelta * steps + bigDelta;
  }

  /**
   * The model stores the exact big step offset (the corrected product); it is
   * the source's wrapping offset as long as `k` big deltas fit 32 bits.
   */
  lemma BigDeltaIsExtrapolatedAsWritten(ri: seq<Checkpoint>, framesize: nat, k: nat, r: nat)
    requires EvenlySpacedTriple(ri) && r < ri[1].framenr && (k >= 1 || r >= 1)
    requires Int32Min <= ByteGap(ri, 2) * k <= Int32Max
    ensures Iterate(ri, framesize, Periods(ri[1].framenr, k) + r).bytepos
            == BigStepOffsetAsWritten(ri[1].bytepos, ByteGap(ri, 2), k) + r * framesize
  {
    BigDeltaIsExtrapolated(ri, framesize, k, r);
    BigStepOffsetAgreesWhileProductFits(ri[1].bytepos, ByteGap(ri, 2), k);
  }

  /**
   * Checkpoints "0:0 25:77760000 50:155520000" over 1920x1080 4:2:0 frames:
   * the model puts frame 725, the 28th big step, at 2255040000, where the
   * source's wrapping product puts it at a negative offset.
   */
  lemma WrappedBigStepAtFrame725(ri: seq<Checkpoint>, framesize: nat)
    requires ri == [Checkpoint(0, 0), Checkpoint(25, 77760000), Checkpoint(50, 155520000)]
    requires framesize == FrameSize(1920, 1080, 12)
    ensures EvenlySpacedTriple(ri) && Periods(ri[1].framenr, 28) == 725
    ensures Iterate(ri, framesize, Periods(ri[1].framenr, 28)).bytepos == 2255040000
    ensures Iterate(ri, framesize, Periods(ri[1].framenr, 28)).kind == Big
    ensures BigStepOffsetAsWritten(ri[1].bytepos, ByteGap(ri, 2), 28) == -2039927296
  {
    PeriodsAreMultiples(ri[1].framenr, 28);
    BigDeltaIsExtrapolated(ri, framesize, 28, 0);
  }
}
