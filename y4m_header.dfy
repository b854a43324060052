/**
 * The YUV4MPEG2 stream header: the magic "YUV4MPEG2", a line of space-led
 * tags (W width, H height, I interlacing, F frame rate, C colour space),
 * then the first frame's "FRAME" line.  `parse_y4m` and the legacy
 * `RawSource::ParseHeader` walk the same tag line the same way; they differ
 * in how they report the outcome.
 */
module Y4mHeader {
  import opened Common
  import opened Scanf
  import PixelTypes

  const StreamMagic: string := "YUV4MPEG2"
  const FrameMagic: string := "FRAME"
  /** The size of the legacy header buffer (`MAX_Y4M_HEADER`). */
  const MaxLegacyHeader: nat := 128
  /** The legacy constructor's width limit (`MAX_WIDTH`). */
  const MaxLegacyWidth: int := 4096

  datatype FieldOrder = TopFieldFirst | BottomFieldFirst

  /** Why the tag scan stopped early. */
  datatype Stop =
    | Interlaced    // "Im": mixed interlacing
    | BadFrameRate  // an F tag with a zero numerator or denominator
    | BadColorTag   // a C tag none of the known prefixes matches

  /**
   * What the scan has read so far: the width and height (`%d`), numerator and
   * denominator (`%u`), the last rate handed to `SetFPS`, the last field order
   * set, the last C word read, and the code of the last C tag.
   */
  datatype Tags = Tags(width: int, height: int, num: nat, den: nat, fps: Option<(nat, nat)>,
                       order: Option<FieldOrder>, ctag: string, color: Option<int>)

  const NoTags: Tags := Tags(0, 0, 0, 0, None, None, "", None)

  /**
   * What the scan keeps true of its tags: a rate with no zero part is the one
   * last handed to `SetFPS`, and a colour code is one that names a pixel type.
   */
  predicate RateSet(t: Tags)
  {
    && (t.num == 0 || t.den == 0 || t.fps == Some((t.num, t.den)))
    && (t.color.Some? ==> PixelTypes.HeaderCodeName(t.color.value).Some?)
  }

  /** The scan position, what has been read, and whether the scan has failed. */
  datatype Cursor = Cursor(i: nat, tags: Tags, stop: Option<Stop>)

  /** `strncmp(buf + i, " X", 2) == 0`. */
  predicate TagAt(buf: string, i: nat, x: char)
  {
    At(buf, i) == ' ' && At(buf, i + 1) == x
  }

  /** `strncmp(buf + i, lit, |lit|) == 0` for a literal without NUL. */
  predicate MatchesAt(buf: string, i: nat, lit: string)
  {
    forall k :: 0 <= k < |lit| ==> At(buf, i + k) == lit[k]
  }

  predicate HasPrefix(t: string, p: string)
  {
    |p| <= |t| && t[..|p|] == p
  }

  /**
   * The C tag's colour code: the prefixes are tried in this order, so
   * "444alpha" wins over "444" and "420jpeg" or "420paldv" count as 420.
   */
  function ColorTagCode(ctag: string): (r: Option<int>)
    ensures r.Some? ==> PixelTypes.HeaderCodeName(r.value).Some?
    ensures r.Some? <==> HasPrefix(ctag, "444") || HasPrefix(ctag, "422") || HasPrefix(ctag, "411")
                         || HasPrefix(ctag, "420") || HasPrefix(ctag, "mono")
  {
    if HasPrefix(ctag, "444alpha") then Some(4444)
    else if HasPrefix(ctag, "444") then Some(444)
    else if HasPrefix(ctag, "422") then Some(422)
    else if HasPrefix(ctag, "411") then Some(411)
    else if HasPrefix(ctag, "420") then Some(420)
    else if HasPrefix(ctag, "mono") then Some(8)
    else None
  }

  /** How the common colour words are read. */
  lemma ColorTagExamples()
    ensures ColorTagCode("420jpeg") == Some(420)
    ensures ColorTagCode("444alpha") == Some(4444)
    ensures ColorTagCode("444") == Some(444)
    ensures ColorTagCode("mono") == Some(8)
    ensures ColorTagCode("mon") == None
  {
    assert "420jpeg"[..3] == "420";
    assert "444alpha"[..8] == "444alpha";
    assert "444"[..3] == "444";
    assert "mono"[..4] == "mono";
  }

  /** `%d` into a variable that keeps its value when the conversion fails. */
  function IntOr(buf: string, i: nat, old_: int): (r: int)
    ensures ScanInt(buf, i, Decimal).Some? ==> r == ScanInt(buf, i, Decimal).value.value
    ensures ScanInt(buf, i, Decimal).None? ==> r == old_
  {
    match ScanInt(buf, i, Decimal)
    case Some(n) => n.value
    case None => old_
  }

  /** ` W`: the width follows. */
  function SeeWidth(buf: string, c: Cursor): (r: Cursor)
    requires c.stop.None?
    ensures r.stop.None? && r.i >= c.i
    ensures !TagAt(buf, c.i, 'W') ==> r == c
    ensures TagAt(buf, c.i, 'W') ==> r.i == c.i + 2 && r.tags == c.tags.(width := r.tags.width)
    ensures TagAt(buf, c.i, 'W') && ScanInt(buf, c.i + 2, Decimal).Some? ==>
              r.tags.width == ScanInt(buf, c.i + 2, Decimal).value.value
    ensures ScanInt(buf, c.i + 2, Decimal).None? ==> r.tags == c.tags
    ensures RateSet(c.tags) ==> RateSet(r.tags)
  {
    if TagAt(buf, c.i, 'W') then Cursor(c.i + 2, c.tags.(width := IntOr(buf, c.i + 2, c.tags.width)), None)
    else c
  }

  /** ` H`: the height follows. */
  function SeeHeight(buf: string, c: Cursor): (r: Cursor)
    requires c.stop.None?
    ensures r.stop.None? && r.i >= c.i
    ensures !TagAt(buf, c.i, 'H') ==> r == c
    ensures TagAt(buf, c.i, 'H') ==> r.i == c.i + 2 && r.tags == c.tags.(height := r.tags.height)
    ensures TagAt(buf, c.i, 'H') && ScanInt(buf, c.i + 2, Decimal).Some? ==>
              r.tags.height == ScanInt(buf, c.i + 2, Decimal).value.value
    ensures ScanInt(buf, c.i + 2, Decimal).None? ==> r.tags == c.tags
    ensures RateSet(c.tags) ==> RateSet(r.tags)
  {
    if TagAt(buf, c.i, 'H') then Cursor(c.i + 2, c.tags.(height := IntOr(buf, c.i + 2, c.tags.height)), None)
    else c
  }

  /** ` I`: 'm' (mixed) stops the scan, 't' and 'b' set the field order, anything else is ignored. */
  function SeeInterlace(buf: string, c: Cursor): (r: Cursor)
    requires c.stop.None?
    ensures r.i >= c.i && (r.stop.Some? ==> r.stop == Some(Interlaced))
    ensures !TagAt(buf, c.i, 'I') ==> r == c
    ensures TagAt(buf, c.i, 'I') ==> r.i == c.i + 2 && r.tags == c.tags.(order := r.tags.order)
    ensures r.stop.Some? <==> TagAt(buf, c.i, 'I') && At(buf, c.i + 2) == 'm'
    ensures TagAt(buf, c.i, 'I') && At(buf, c.i + 2) == 't' ==> r.tags.order == Some(TopFieldFirst)
    ensures TagAt(buf, c.i, 'I') && At(buf, c.i + 2) == 'b' ==> r.tags.order == Some(BottomFieldFirst)
    ensures !(TagAt(buf, c.i, 'I') && At(buf, c.i + 2) in "tb") ==> r.tags == c.tags
    ensures RateSet(c.tags) ==> RateSet(r.tags)
  {
    if !TagAt(buf, c.i, 'I') then c
    else
      var j := c.i + 2;
      if At(buf, j) == 'm' then Cursor(j, c.tags, Some(Interlaced))
      else if At(buf, j) == 't' then Cursor(j, c.tags.(order := Some(TopFieldFirst)), None)
      else if At(buf, j) == 'b' then Cursor(j, c.tags.(order := Some(BottomFieldFirst)), None)
      else Cursor(j, c.tags, None)
  }

  /** `sscanf(buf + i, "%u:%u", &num, &den)`: each variable is stored only when its conversion succeeds. */
  function ScanRate(buf: string, i: nat, num: nat, den: nat): (r: (nat, nat))
    ensures ScanInt(buf, i, Decimal).None? ==> r == (num, den)
    ensures ScanInt(buf, i, Decimal).Some? ==> r.0 == Wrap32(ScanInt(buf, i, Decimal).value.value)
    ensures r.1 != den ==>
              (&& ScanInt(buf, i, Decimal).Some?
               && var e := ScanInt(buf, i, Decimal).value.end;
                  && At(buf, e) == ':' && ScanInt(buf, e + 1, Decimal).Some?
                  && r.1 == Wrap32(ScanInt(buf, e + 1, Decimal).value.value))
  {
    match ScanInt(buf, i, Decimal)
    case None => (num, den)
    case Some(n) =>
      if At(buf, n.end) != ':' then (Wrap32(n.value), den)
      else match ScanInt(buf, n.end + 1, Decimal)
        case None => (Wrap32(n.value), den)
        case Some(d) => (Wrap32(n.value), Wrap32(d.value))
  }

  /** ` F`: the frame rate follows; a zero numerator or denominator stops the scan. */
  function SeeRate(buf: string, c: Cursor): (r: Cursor)
    requires c.stop.None?
    ensures r.i >= c.i && (r.stop.Some? ==> r.stop == Some(BadFrameRate))
    ensures !TagAt(buf, c.i, 'F') ==> r == c
    ensures TagAt(buf, c.i, 'F') ==>
              && r.i == c.i + 2 && (r.tags.num, r.tags.den) == ScanRate(buf, c.i + 2, c.tags.num, c.tags.den)
              && (r.stop.Some? <==> r.tags.num == 0 || r.tags.den == 0)
              && r.tags == c.tags.(num := r.tags.num, den := r.tags.den, fps := r.tags.fps)
              && (r.stop.None? ==> r.tags.fps == Some((r.tags.num, r.tags.den)))
              && (r.stop.Some? ==> r.tags.fps == c.tags.fps)
    ensures RateSet(c.tags) && r.stop.None? ==> RateSet(r.tags)
  {
    if !TagAt(buf, c.i, 'F') then c
    else
      var j := c.i + 2;
      var rate := ScanRate(buf, j, c.tags.num, c.tags.den);
      var t := c.tags.(num := rate.0, den := rate.1);
      if rate.0 == 0 || rate.1 == 0 then Cursor(j, t, Some(BadFrameRate))
      else Cursor(j, t.(fps := Some(rate)), None)
  }

  /** ` C`: the colour word follows (`%s`, kept from before when there is none); an unknown one stops the scan. */
  function SeeColor(buf: string, c: Cursor): (r: Cursor)
    requires c.stop.None?
    ensures r.i >= c.i && (r.stop.Some? ==> r.stop == Some(BadColorTag))
    ensures r.stop.None? ==> r.tags.color == c.tags.color || ColorTagCode(r.tags.ctag) == r.tags.color
    ensures !TagAt(buf, c.i, 'C') ==> r == c
    ensures TagAt(buf, c.i, 'C') ==>
              && r.i == c.i + 2
              && r.tags.ctag == (if ScanWord(buf, c.i + 2).Some? then ScanWord(buf, c.i + 2).value else c.tags.ctag)
              && (r.stop.Some? <==> ColorTagCode(r.tags.ctag).None?)
              && (r.stop.None? ==> r.tags == c.tags.(ctag := r.tags.ctag, color := ColorTagCode(r.tags.ctag)))
              && (r.stop.Some? ==> r.tags == c.tags.(ctag := r.tags.ctag))
    ensures RateSet(c.tags) ==> RateSet(r.tags)
  {
    if !TagAt(buf, c.i, 'C') then c
    else
      var j := c.i + 2;
      var ctag := match ScanWord(buf, j) case Some(w) => w case None => c.tags.ctag;
      match ColorTagCode(ctag)
      case None => Cursor(j, c.tags.(ctag := ctag), Some(BadColorTag))
      case Some(code) => Cursor(j, c.tags.(ctag := ctag, color := Some(code)), None)
  }

  /** One pass of the loop body: the five tag tests in order at the moving position, then one step on. */
  function Step(buf: string, c: Cursor): (r: Cursor)
    requires c.stop.None?
    ensures r.i > c.i || r.stop.Some?
    ensures RateSet(c.tags) && r.stop.None? ==> RateSet(r.tags)
  {
    var c3 := SeeInterlace(buf, SeeHeight(buf, SeeWidth(buf, c)));
    if c3.stop.Some? then c3
    else
      var c4 := SeeRate(buf, c3);
      if c4.stop.Some? then c4
      else
        var c5 := SeeColor(buf, c4);
        if c5.stop.Some? then c5 else c5.(i := c5.i + 1)
  }

  /** The tag loop: runs until the buffer ends, a newline is reached, or a tag stops it. */
  function ScanTags(buf: string, c: Cursor): (r: Cursor)
    requires c.stop.None?
    ensures r.stop.None? ==> r.i >= |buf| || buf[r.i] == '\n'
    ensures RateSet(c.tags) && r.stop.None? ==> RateSet(r.tags)
    decreases |buf| - c.i
  {
    if c.i >= |buf| || buf[c.i] == '\n' then c
    else
      var n := Step(buf, c);
      if n.stop.Some? then n else ScanTags(buf, n)
  }

  /** The loop starts just after the magic, with nothing read. */
  const Start: Cursor := Cursor(|StreamMagic|, NoTags, None)

  /** The end of the line that starts at `i`: the next newline, or the end of the buffer. */
  function LineEnd(buf: string, i: nat): (e: nat)
    ensures i <= e && (e < |buf| ==> buf[e] == '\n') && (e == i || e <= |buf|)
    ensures forall k :: i <= k < e ==> buf[k] != '\n'
    decreases |buf| - i
  {
    if i < |buf| && buf[i] != '\n' then LineEnd(buf, i + 1) else i
  }

  datatype Failure = Unsupported | HeaderError

  /** What the parse of a header buffer comes to. */
  datatype Outcome =
    | NotY4m
    | Failed(why: Failure, tags: Tags)
    | Parsed(tags: Tags, headerOffset: nat, frameOffset: nat)

  /**
   * Both parsers: no magic means the buffer is not a YUV4MPEG2 header; a stop
   * in the tag line is an error ("Im" is unsupported, the rest are header
   * errors), as is a missing width, height, numerator or denominator or a
   * missing "FRAME" after the tag line.  On success the first frame's data
   * starts just past the end of the FRAME line, and `frameOffset` is the
   * length of that line with its newline.
   */
  function Parse(buf: string): (r: Outcome)
    ensures r.NotY4m? <==> !MatchesAt(buf, 0, StreamMagic)
    ensures r.Failed? && r.why == Unsupported <==> MatchesAt(buf, 0, StreamMagic) && ScanTags(buf, Start).stop == Some(Interlaced)
  {
    if !MatchesAt(buf, 0, StreamMagic) then NotY4m else Conclude(buf, ScanTags(buf, Start))
  }

  /** What follows the tag loop: the stop, the required tags, the FRAME line. */
  function Conclude(buf: string, c: Cursor): (r: Outcome)
    ensures !r.NotY4m? && TagsOf(r) == c.tags
    ensures r.Failed? && r.why == Unsupported <==> c.stop == Some(Interlaced)
    ensures r.Parsed? <==>
              (&& c.stop.None? && c.tags.num != 0 && c.tags.den != 0 && c.tags.width != 0 && c.tags.height != 0
               && MatchesAt(buf, c.i + 1, FrameMagic))
    ensures r.Parsed? ==>
              (&& r.frameOffset >= |FrameMagic| + 1 && r.headerOffset == c.i + 1 + r.frameOffset
               && var e := r.headerOffset - 1;
                  && e <= |buf| && (e < |buf| ==> buf[e] == '\n')
                  && forall k :: c.i + 1 + |FrameMagic| <= k < e ==> buf[k] != '\n')
  {
    if c.stop == Some(Interlaced) then Failed(Unsupported, c.tags)
    else if c.stop.Some? then Failed(HeaderError, c.tags)
    else if c.tags.num == 0 || c.tags.den == 0 || c.tags.width == 0 || c.tags.height == 0 then Failed(HeaderError, c.tags)
    else if !MatchesAt(buf, c.i + 1, FrameMagic) then Failed(HeaderError, c.tags)
    else
      assert At(buf, c.i + 1 + 4) == FrameMagic[4];
      var e := LineEnd(buf, c.i + 1 + |FrameMagic|);
      Parsed(c.tags, e + 1, e - c.i)
  }

  /** The tags an outcome other than `NotY4m` carries. */
  function TagsOf(p: Outcome): Tags
    requires !p.NotY4m?
  {
    if p.Failed? then p.tags else p.tags
  }

  /**
   * An accepted header has a width, a height and a frame rate with neither part
   * zero, handed to `SetFPS`; its tag line ends with a newline that is followed
   * by "FRAME"; the FRAME line is at least "FRAME\n" long and the first frame's
   * data starts right after it, within one byte past the buffer.
   */
  lemma ParsedHeaderIsComplete(buf: string)
    requires Parse(buf).Parsed?
    ensures var p := Parse(buf);
            && p.tags.width != 0 && p.tags.height != 0 && p.tags.num != 0 && p.tags.den != 0
            && p.tags.fps == Some((p.tags.num, p.tags.den))
            && p.frameOffset >= |FrameMagic| + 1 && p.headerOffset <= |buf| + 1
            && var f := p.headerOffset - p.frameOffset;
               && 1 <= f && f + |FrameMagic| <= |buf| && buf[f - 1] == '\n' && buf[f..f + |FrameMagic|] == FrameMagic
  {
    var c := ScanTags(buf, Start);
    assert Parse(buf) == Conclude(buf, c);
    ConcludedHeaderIsComplete(buf, c);
  }

  lemma ConcludedHeaderIsComplete(buf: string, c: Cursor)
    requires Conclude(buf, c).Parsed? && RateSet(c.tags)
    requires c.stop.None? ==> c.i >= |buf| || buf[c.i] == '\n'
    ensures var p := Conclude(buf, c);
            && p.tags.width != 0 && p.tags.height != 0 && p.tags.num != 0 && p.tags.den != 0
            && p.tags.fps == Some((p.tags.num, p.tags.den))
            && p.frameOffset >= |FrameMagic| + 1 && p.headerOffset <= |buf| + 1
            && var f := p.headerOffset - p.frameOffset;
               && 1 <= f && f + |FrameMagic| <= |buf| && buf[f - 1] == '\n' && buf[f..f + |FrameMagic|] == FrameMagic
  {
    var f := c.i + 1;
    FrameLineAt(buf, f);
    var e := LineEnd(buf, f + |FrameMagic|);
    assert Conclude(buf, c) == Parsed(c.tags, e + 1, e - c.i);
  }

  /** "FRAME" matched at `f` lies inside the buffer. */
  lemma FrameLineAt(buf: string, f: nat)
    requires MatchesAt(buf, f, FrameMagic)
    ensures f + |FrameMagic| <= |buf| && buf[f..f + |FrameMagic|] == FrameMagic
  {
    assert FrameMagic[4] == 'E' && At(buf, f + 4) == 'E';
    forall k | 0 <= k < 5 ensures buf[f + k] == FrameMagic[k] {
      assert At(buf, f + k) == FrameMagic[k];
    }
  }

  // ------------------------------------------------- well-formed headers

  /** The text `x + t` found at `p`: `x` sits at `p` and `t` follows it. */
  lemma Split(buf: string, p: nat, x: string, t: string)
    requires p <= |buf| && buf[p..] == x + t
    ensures p + |x| <= |buf| && buf[p..p + |x|] == x && buf[p + |x|..] == t
    ensures forall k :: 0 <= k < |x| ==> buf[p + k] == x[k]
  {
    assert buf[p..p + |x|] == buf[p..][..|x|];
    assert buf[p + |x|..] == buf[p..][|x|..];
    forall k | 0 <= k < |x| ensures buf[p + k] == x[k] {
      assert buf[p + k] == buf[p..][k];
    }
  }

  /** A literal matched at `p` is matched at the start of what follows `p`, and back. */
  lemma MatchesShift(buf: string, p: nat, lit: string)
    requires p <= |buf|
    ensures MatchesAt(buf, p, lit) <==> MatchesAt(buf[p..], 0, lit)
  {
    forall k | 0 <= k < |lit| ensures At(buf, p + k) == At(buf[p..], k) {
    }
  }

  /** Characters that are neither a space nor a newline start no tag: the loop steps over them one by one. */
  lemma {:induction false} SkipRun(buf: string, c: Cursor, e: nat)
    requires c.stop.None? && c.i <= e <= |buf|
    requires forall k :: c.i <= k < e ==> buf[k] != ' ' && buf[k] != '\n'
    ensures ScanTags(buf, c) == ScanTags(buf, c.(i := e))
    decreases e - c.i
  {
    if c.i < e {
      assert Step(buf, c) == c.(i := c.i + 1);
      SkipRun(buf, c.(i := c.i + 1), e);
    }
  }

  /** One pass of the loop body at a tag, then the run of characters that start no tag. */
  lemma StepThenRun(buf: string, c: Cursor, e: nat)
    requires c.stop.None? && c.i < |buf| && buf[c.i] != '\n'
    requires Step(buf, c).stop.None? && Step(buf, c).i <= e <= |buf|
    requires forall k :: Step(buf, c).i <= k < e ==> buf[k] != ' ' && buf[k] != '\n'
    ensures ScanTags(buf, c) == ScanTags(buf, Step(buf, c).(i := e))
  {
    assert ScanTags(buf, c) == ScanTags(buf, Step(buf, c));
    SkipRun(buf, Step(buf, c), e);
  }

  /** One pass of the loop body at a ` W` tag whose `%d` reads `w`: the width becomes `w`, and the pass ends one past the tag. */
  lemma WidthPass(buf: string, c: Cursor, w: int, e: nat)
    requires c.stop.None? && TagAt(buf, c.i, 'W') && ScanInt(buf, c.i + 2, Decimal) == Some(Scanned(w, e))
    requires '0' <= At(buf, c.i + 2) <= '9'
    ensures Step(buf, c) == Cursor(c.i + 3, c.tags.(width := w), None)
  {
    var x := Cursor(c.i + 2, c.tags.(width := w), None);
    assert SeeWidth(buf, c) == x;
    assert SeeHeight(buf, x) == x;
    assert SeeInterlace(buf, x) == x;
    assert SeeRate(buf, x) == x;
    assert SeeColor(buf, x) == x;
  }

  /** A ` W` tag whose `%d` reads `w` and ends at `e`, with only digits before `e`: the width becomes `w`. */
  lemma WidthTagStep(buf: string, c: Cursor, w: int, e: nat)
    requires c.stop.None? && TagAt(buf, c.i, 'W') && ScanInt(buf, c.i + 2, Decimal) == Some(Scanned(w, e))
    requires forall k :: c.i + 2 <= k < e ==> '0' <= buf[k] <= '9'
    ensures ScanTags(buf, c) == ScanTags(buf, Cursor(e, c.tags.(width := w), None))
  {
    WidthPass(buf, c, w, e);
    StepThenRun(buf, c, e);
  }

  /** One pass of the loop body at a ` H` tag whose `%d` reads `h`. */
  lemma HeightPass(buf: string, c: Cursor, h: int, e: nat)
    requires c.stop.None? && TagAt(buf, c.i, 'H') && ScanInt(buf, c.i + 2, Decimal) == Some(Scanned(h, e))
    requires '0' <= At(buf, c.i + 2) <= '9'
    ensures Step(buf, c) == Cursor(c.i + 3, c.tags.(height := h), None)
  {
    var x := Cursor(c.i + 2, c.tags.(height := h), None);
    assert SeeWidth(buf, c) == c;
    assert SeeHeight(buf, c) == x;
    assert SeeInterlace(buf, x) == x;
    assert SeeRate(buf, x) == x;
    assert SeeColor(buf, x) == x;
  }

  /** A ` H` tag whose `%d` reads `h` and ends at `e`, with only digits before `e`: the height becomes `h`. */
  lemma HeightTagStep(buf: string, c: Cursor, h: int, e: nat)
    requires c.stop.None? && TagAt(buf, c.i, 'H') && ScanInt(buf, c.i + 2, Decimal) == Some(Scanned(h, e))
    requires forall k :: c.i + 2 <= k < e ==> '0' <= buf[k] <= '9'
    ensures ScanTags(buf, c) == ScanTags(buf, Cursor(e, c.tags.(height := h), None))
  {
    HeightPass(buf, c, h, e);
    StepThenRun(buf, c, e);
  }

  /** `SeeRate` at a ` F` tag whose `%u:%u` reads a rate with neither part zero stores it and does not stop. */
  lemma RateSeen(buf: string, c: Cursor, n: nat, d: nat)
    requires c.stop.None? && TagAt(buf, c.i, 'F') && ScanRate(buf, c.i + 2, c.tags.num, c.tags.den) == (n, d)
    requires n != 0 && d != 0
    ensures SeeRate(buf, c) == Cursor(c.i + 2, c.tags.(num := n, den := d, fps := Some((n, d))), None)
  {
  }

  /** One pass of the loop body at a ` F` tag where `SeeRate` stores a rate and does not stop. */
  lemma RatePass(buf: string, c: Cursor, x: Cursor)
    requires c.stop.None? && TagAt(buf, c.i, 'F') && '0' <= At(buf, c.i + 2) <= '9'
    requires SeeRate(buf, c) == x && x.i == c.i + 2 && x.stop.None?
    ensures Step(buf, c) == x.(i := c.i + 3)
  {
    assert SeeWidth(buf, c) == c;
    assert SeeHeight(buf, c) == c;
    assert SeeInterlace(buf, c) == c;
    assert SeeColor(buf, x) == x;
  }

  /**
   * A ` F` tag whose `%u:%u` reads a rate with neither part zero, with no
   * space or newline before `e`: the rate is stored and handed to `SetFPS`.
   */
  lemma RateTagStep(buf: string, c: Cursor, n: nat, d: nat, e: nat)
    requires c.stop.None? && TagAt(buf, c.i, 'F') && ScanRate(buf, c.i + 2, c.tags.num, c.tags.den) == (n, d)
    requires n != 0 && d != 0 && '0' <= At(buf, c.i + 2) <= '9' && c.i + 3 <= e <= |buf|
    requires forall k :: c.i + 2 <= k < e ==> buf[k] != ' ' && buf[k] != '\n'
    ensures ScanTags(buf, c) == ScanTags(buf, Cursor(e, c.tags.(num := n, den := d, fps := Some((n, d))), None))
  {
    RateSeen(buf, c, n, d);
    RatePass(buf, c, Cursor(c.i + 2, c.tags.(num := n, den := d, fps := Some((n, d))), None));
    StepThenRun(buf, c, e);
  }

  /** One pass of the loop body at a ` C` tag whose `%s` reads a known colour space. */
  lemma ColorPass(buf: string, c: Cursor, w: string)
    requires c.stop.None? && TagAt(buf, c.i, 'C') && ScanWord(buf, c.i + 2) == Some(w) && ColorTagCode(w).Some?
    ensures Step(buf, c) == Cursor(c.i + 3, c.tags.(ctag := w, color := ColorTagCode(w)), None)
  {
    var x := Cursor(c.i + 2, c.tags.(ctag := w, color := ColorTagCode(w)), None);
    assert SeeWidth(buf, c) == c;
    assert SeeHeight(buf, c) == c;
    assert SeeInterlace(buf, c) == c;
    assert SeeRate(buf, c) == c;
    assert SeeColor(buf, c) == x;
  }

  /**
   * A ` C` tag whose `%s` reads `w`, a known colour space, with no space or
   * newline before `e`: the word and its colour code are stored.
   */
  lemma ColorTagStep(buf: string, c: Cursor, w: string, e: nat)
    requires c.stop.None? && TagAt(buf, c.i, 'C') && ScanWord(buf, c.i + 2) == Some(w) && ColorTagCode(w).Some?
    requires c.i + 3 <= e <= |buf| && forall k :: c.i + 2 <= k < e ==> buf[k] != ' ' && buf[k] != '\n'
    ensures ScanTags(buf, c) == ScanTags(buf, Cursor(e, c.tags.(ctag := w, color := ColorTagCode(w)), None))
  {
    ColorPass(buf, c, w);
    StepThenRun(buf, c, e);
  }

  /** The digits of `v` after the text `tag` at `p`: what `%d` reads there, and where it stops. */
  lemma NumberChars(buf: string, p: nat, tag: string, v: nat, t: string, q: nat, e: nat)
    requires p <= |buf| && buf[p..] == tag + DecimalString(v) + t && q == p + |tag| && e == q + |DecimalString(v)|
    requires t == [] || !IsDigitIn(t[0], 10)
    ensures e <= |buf| && buf[e..] == t && forall k :: 0 <= k < |tag| ==> buf[p + k] == tag[k]
    ensures ScanInt(buf, q, Decimal) == Some(Scanned(v, e))
    ensures forall k :: q <= k < e ==> '0' <= buf[k] <= '9'
  {
    var d := DecimalString(v);
    Split(buf, p, tag + d, t);
    assert buf[q..e] == d;
    assert SignedDecimal(v) == d;
    ScanIntReadsDecimal(buf, q, v);
    forall k | q <= k < e ensures '0' <= buf[k] <= '9' {
      assert buf[k] == d[k - q];
    }
  }

  /** A ` W` tag with the digits of `w` sets the width to `w`; the scan resumes at `e`, after the digits. */
  lemma ReadWidthTag(buf: string, c: Cursor, w: nat, t: string, e: nat)
    requires c.stop.None? && c.i <= |buf| && buf[c.i..] == " W" + DecimalString(w) + t && e == c.i + 2 + |DecimalString(w)|
    requires t == [] || !IsDigitIn(t[0], 10)
    ensures e <= |buf| && buf[e..] == t
    ensures ScanTags(buf, c) == ScanTags(buf, Cursor(e, c.tags.(width := w), None))
  {
    NumberChars(buf, c.i, " W", w, t, c.i + 2, e);
    assert buf[c.i] == ' ' && buf[c.i + 1] == 'W';
    WidthTagStep(buf, c, w, e);
  }

  /** A ` H` tag with the digits of `h` sets the height to `h`; the scan resumes at `e`, after the digits. */
  lemma ReadHeightTag(buf: string, c: Cursor, h: nat, t: string, e: nat)
    requires c.stop.None? && c.i <= |buf| && buf[c.i..] == " H" + DecimalString(h) + t && e == c.i + 2 + |DecimalString(h)|
    requires t == [] || !IsDigitIn(t[0], 10)
    ensures e <= |buf| && buf[e..] == t
    ensures ScanTags(buf, c) == ScanTags(buf, Cursor(e, c.tags.(height := h), None))
  {
    NumberChars(buf, c.i, " H", h, t, c.i + 2, e);
    assert buf[c.i] == ' ' && buf[c.i + 1] == 'H';
    HeightTagStep(buf, c, h, e);
  }

  /** `%u:%u` with both conversions succeeding, on numbers below 2^32, stores both. */
  lemma ScanRateReads(buf: string, i: nat, num: nat, den: nat, n: nat, m: nat, d: nat, e: nat)
    requires ScanInt(buf, i, Decimal) == Some(Scanned(n, m)) && At(buf, m) == ':'
    requires ScanInt(buf, m + 1, Decimal) == Some(Scanned(d, e))
    requires n < 0x1_0000_0000 && d < 0x1_0000_0000
    ensures ScanRate(buf, i, num, den) == (n, d)
  {
  }

  /** The characters of ` F<n>` at `p`: the tag, and the numerator `%u` reads. */
  lemma RateChars(buf: string, p: nat, n: nat, t: string, m: nat)
    requires p <= |buf| && buf[p..] == " F" + DecimalString(n) + t && m == p + 2 + |DecimalString(n)|
    requires t == [] || !IsDigitIn(t[0], 10)
    ensures m <= |buf| && buf[m..] == t && TagAt(buf, p, 'F') && '0' <= At(buf, p + 2) <= '9'
    ensures ScanInt(buf, p + 2, Decimal) == Some(Scanned(n, m))
    ensures forall k :: p + 2 <= k < m ==> '0' <= buf[k] <= '9'
  {
    NumberChars(buf, p, " F", n, t, p + 2, m);
    assert buf[p] == ' ' && buf[p + 1] == 'F';
  }

  /** The characters of `:<d>` at `m`: the colon, and the denominator `%u` reads after it. */
  lemma ColonChars(buf: string, m: nat, d: nat, t: string, e: nat)
    requires m <= |buf| && buf[m..] == ":" + DecimalString(d) + t && e == m + 1 + |DecimalString(d)|
    requires t == [] || !IsDigitIn(t[0], 10)
    ensures e <= |buf| && buf[e..] == t && At(buf, m) == ':'
    ensures ScanInt(buf, m + 1, Decimal) == Some(Scanned(d, e))
    ensures forall k :: m + 1 <= k < e ==> '0' <= buf[k] <= '9'
  {
    NumberChars(buf, m, ":", d, t, m + 1, e);
    assert buf[m] == ':';
  }

  /** Digits, a colon and digits again hold no space and no newline. */
  lemma RateHasNoBreak(buf: string, i: nat, m: nat, e: nat)
    requires i <= m < e <= |buf| && buf[m] == ':'
    requires forall k :: i <= k < m ==> '0' <= buf[k] <= '9'
    requires forall k :: m + 1 <= k < e ==> '0' <= buf[k] <= '9'
    ensures forall k :: i <= k < e ==> buf[k] != ' ' && buf[k] != '\n'
  {
    forall k | i <= k < e ensures buf[k] != ' ' && buf[k] != '\n' {
      if k < m {
        assert '0' <= buf[k] <= '9';
      } else if k > m {
        assert '0' <= buf[k] <= '9';
      }
    }
  }

  /**
   * A ` F` tag with the digits of a numerator and a denominator, neither zero
   * and both below 2^32, sets the rate and hands it to `SetFPS`.
   */
  lemma ReadRateTag(buf: string, c: Cursor, n: nat, d: nat, t: string, e: nat)
    requires c.stop.None? && c.i <= |buf| && buf[c.i..] == " F" + DecimalString(n) + (":" + DecimalString(d) + t)
    requires e == c.i + 3 + |DecimalString(n)| + |DecimalString(d)|
    requires 0 < n < 0x1_0000_0000 && 0 < d < 0x1_0000_0000 && (t == [] || !IsDigitIn(t[0], 10))
    ensures e <= |buf| && buf[e..] == t
    ensures ScanTags(buf, c) == ScanTags(buf, Cursor(e, c.tags.(num := n, den := d, fps := Some((n, d))), None))
  {
    var m := c.i + 2 + |DecimalString(n)|;
    RateChars(buf, c.i, n, ":" + DecimalString(d) + t, m);
    ColonChars(buf, m, d, t, e);
    ScanRateReads(buf, c.i + 2, c.tags.num, c.tags.den, n, m, d, e);
    RateHasNoBreak(buf, c.i + 2, m, e);
    RateTagStep(buf, c, n, d, e);
  }

  /** A colour word the C tag can carry: a known colour space, without white space or NUL. */
  predicate ColorWord(ctag: string)
  {
    ColorTagCode(ctag).Some? && forall k :: 0 <= k < |ctag| ==> !IsSpace(ctag[k]) && ctag[k] != '\0'
  }

  /** The characters of ` C<word>` at `p`: `%s` reads the word, and none is a space or a newline. */
  lemma ColorChars(buf: string, p: nat, w: string, t: string, e: nat)
    requires p <= |buf| && buf[p..] == " C" + w + t && e == p + 2 + |w|
    requires ColorWord(w) && (t == [] || IsSpace(t[0]) || t[0] == '\0')
    ensures e <= |buf| && buf[e..] == t && TagAt(buf, p, 'C') && p + 3 <= e
    ensures ScanWord(buf, p + 2) == Some(w)
    ensures forall k :: p + 2 <= k < e ==> buf[k] != ' ' && buf[k] != '\n'
  {
    Split(buf, p, " C" + w, t);
    assert buf[p + 2..e] == w;
    assert |w| >= 3;
    ScanWordReads(buf, p + 2, w);
    forall k | p + 2 <= k < e ensures buf[k] != ' ' && buf[k] != '\n' {
      assert buf[k] == w[k - p - 2];
    }
  }

  /**
   * A ` C` tag with a word of a known colour space, followed by white space,
   * NUL or the end, stores the word and its colour code.
   */
  lemma ReadColorTag(buf: string, c: Cursor, w: string, t: string, e: nat)
    requires c.stop.None? && c.i <= |buf| && buf[c.i..] == " C" + w + t && e == c.i + 2 + |w|
    requires ColorWord(w) && (t == [] || IsSpace(t[0]) || t[0] == '\0')
    ensures e <= |buf| && buf[e..] == t
    ensures ScanTags(buf, c) == ScanTags(buf, Cursor(e, c.tags.(ctag := w, color := ColorTagCode(w)), None))
  {
    ColorChars(buf, c.i, w, t, e);
    ColorTagStep(buf, c, w, e);
  }

  /** A tag line with a width, a height, a frame rate and a colour space, before `t`. */
  function TagLine(w: nat, h: nat, n: nat, d: nat, ctag: string, t: string): string
  {
    " W" + DecimalString(w) + (" H" + DecimalString(h) + (" F" + DecimalString(n) + (":" + DecimalString(d) + (" C" + ctag + t))))
  }

  /** The tags `TagLine` writes, read into the empty record. */
  function TagLineTags(w: nat, h: nat, n: nat, d: nat, ctag: string): Tags
  {
    Tags(w, h, n, d, Some((n, d)), None, ctag, ColorTagCode(ctag))
  }

  /** The four tags of `TagLine` are read in turn, and the scan continues where `t` begins, at `e`. */
  lemma ReadTagLine(buf: string, w: nat, h: nat, n: nat, d: nat, ctag: string, t: string, e: nat)
    requires buf == StreamMagic + TagLine(w, h, n, d, ctag, t) && e == |buf| - |t|
    requires 0 < n < 0x1_0000_0000 && 0 < d < 0x1_0000_0000 && ColorWord(ctag)
    requires t == [] || IsSpace(t[0]) || t[0] == '\0'
    ensures e <= |buf| && buf[e..] == t
    ensures ScanTags(buf, Start) == ScanTags(buf, Cursor(e, TagLineTags(w, h, n, d, ctag), None))
  {
    var t3 := " C" + ctag + t;
    var t2 := " F" + DecimalString(n) + (":" + DecimalString(d) + t3);
    var t1 := " H" + DecimalString(h) + t2;
    assert buf[|StreamMagic|..] == " W" + DecimalString(w) + t1;
    var e1, e2, e3 := |buf| - |t1|, |buf| - |t2|, |buf| - |t3|;
    ReadWidthTag(buf, Start, w, t1, e1);
    var c1 := Cursor(e1, NoTags.(width := w), None);
    ReadHeightTag(buf, c1, h, t2, e2);
    var c2 := Cursor(e2, c1.tags.(height := h), None);
    ReadRateTag(buf, c2, n, d, t3, e3);
    var c3 := Cursor(e3, c2.tags.(num := n, den := d, fps := Some((n, d))), None);
    ReadColorTag(buf, c3, ctag, t, e);
    assert c3.tags.(ctag := ctag, color := ColorTagCode(ctag)) == TagLineTags(w, h, n, d, ctag);
  }

  /**
   * After the tag line, a newline and then "FRAME" and a newline: the header
   * is accepted with the tags read, and the first frame starts after "FRAME\n".
   */
  lemma FrameLineAccepts(buf: string, c: Cursor, rest: string)
    requires c.stop.None? && c.i <= |buf| && buf[c.i..] == "\n" + (FrameMagic + "\n" + rest)
    requires c.tags.num != 0 && c.tags.den != 0 && c.tags.width != 0 && c.tags.height != 0
    ensures Conclude(buf, ScanTags(buf, c)) == Parsed(c.tags, c.i + 7, |FrameMagic| + 1)
  {
    Split(buf, c.i, "\n", FrameMagic + "\n" + rest);
    Split(buf, c.i + 1, FrameMagic + "\n", rest);
    assert ScanTags(buf, c) == c;
    assert MatchesAt(buf, c.i + 1, FrameMagic);
    assert LineEnd(buf, c.i + 1 + |FrameMagic|) == c.i + 6;
  }

  /** The whole header: the magic, a tag line, and the first FRAME line as "FRAME" and a newline. */
  function Rendered(w: nat, h: nat, n: nat, d: nat, ctag: string, rest: string): string
  {
    StreamMagic + TagLine(w, h, n, d, ctag, "\n" + (FrameMagic + "\n" + rest))
  }

  /** Both parsers run the tag loop from `Start` and conclude; `Parse` is that once the magic is there. */
  lemma ParseAfterMagic(buf: string, c: Cursor, x: Outcome)
    requires c.stop.None? && MatchesAt(buf, 0, StreamMagic)
    requires ScanTags(buf, Start) == ScanTags(buf, c) && Conclude(buf, ScanTags(buf, c)) == x
    ensures Parse(buf) == x
  {
  }

  /** The magic at the start of `StreamMagic + t`. */
  lemma MagicAt(buf: string, t: string)
    requires buf == StreamMagic + t
    ensures MatchesAt(buf, 0, StreamMagic)
  {
    Split(buf, 0, StreamMagic, t);
  }

  /**
   * A header with a non-zero width and height, a frame rate with neither part
   * zero, a known colour space and a FRAME line is accepted with exactly those
   * values; the first frame's data starts right after "FRAME\n".
   */
  lemma WellFormedHeaderIsAccepted(buf: string, w: nat, h: nat, n: nat, d: nat, ctag: string, rest: string)
    requires buf == Rendered(w, h, n, d, ctag, rest)
    requires w > 0 && h > 0 && 0 < n < 0x1_0000_0000 && 0 < d < 0x1_0000_0000 && ColorWord(ctag)
    ensures Parse(buf) == Parsed(TagLineTags(w, h, n, d, ctag), |buf| - |rest|, |FrameMagic| + 1)
  {
    var t := "\n" + (FrameMagic + "\n" + rest);
    var nl := |buf| - |t|;
    MagicAt(buf, TagLine(w, h, n, d, ctag, t));
    ReadTagLine(buf, w, h, n, d, ctag, t, nl);
    var c := Cursor(nl, TagLineTags(w, h, n, d, ctag), None);
    FrameLineAccepts(buf, c, rest);
    ParseAfterMagic(buf, c, Parsed(TagLineTags(w, h, n, d, ctag), |buf| - |rest|, |FrameMagic| + 1));
  }

  /** A header whose interlacing is " Im" (mixed) is unsupported: `parse_y4m` throws, and the legacy code is -2. */
  lemma MixedInterlacingIsUnsupported(buf: string, w: nat, h: nat, rest: string)
    requires buf == StreamMagic + (" W" + DecimalString(w) + (" H" + DecimalString(h) + (" Im" + rest)))
    ensures Parse(buf) == Failed(Unsupported, NoTags.(width := w, height := h))
    ensures LegacyCode(Parse(buf)) == -2 && Y4mResult(Parse(buf)) == Err(PixelTypes.HeaderUnsupported)
  {
    var t2 := " Im" + rest;
    var t1 := " H" + DecimalString(h) + t2;
    MagicAt(buf, " W" + DecimalString(w) + t1);
    assert buf[|StreamMagic|..] == " W" + DecimalString(w) + t1;
    var e1, e2 := |buf| - |t1|, |buf| - |t2|;
    ReadWidthTag(buf, Start, w, t1, e1);
    var c1 := Cursor(e1, NoTags.(width := w), None);
    ReadHeightTag(buf, c1, h, t2, e2);
    var c2 := Cursor(e2, c1.tags.(height := h), None);
    InterlacedStops(buf, c2, rest);
    ParseAfterMagic(buf, c2, Failed(Unsupported, NoTags.(width := w, height := h)));
  }

  /** " Im" at the cursor stops the scan there as unsupported. */
  lemma InterlacedStops(buf: string, c: Cursor, rest: string)
    requires c.stop.None? && c.i <= |buf| && buf[c.i..] == " Im" + rest
    ensures Conclude(buf, ScanTags(buf, c)) == Failed(Unsupported, c.tags)
  {
    Split(buf, c.i, " Im", rest);
    assert SeeHeight(buf, SeeWidth(buf, c)) == c;
    assert Step(buf, c) == Cursor(c.i + 2, c.tags, Some(Interlaced));
  }

  /** A header without an F tag is a header error (-1): nothing sets the frame rate. */
  lemma MissingRateIsHeaderError(buf: string, w: nat, h: nat, ctag: string, rest: string)
    requires buf == StreamMagic + (" W" + DecimalString(w) + (" H" + DecimalString(h) + (" C" + ctag + ("\n" + rest))))
    requires ColorWord(ctag)
    ensures Parse(buf) == Failed(HeaderError, NoTags.(width := w, height := h, ctag := ctag, color := ColorTagCode(ctag)))
    ensures LegacyCode(Parse(buf)) == -1 && Y4mResult(Parse(buf)) == Err(PixelTypes.HeaderError)
  {
    var t := "\n" + rest;
    var t2 := " C" + ctag + t;
    var t1 := " H" + DecimalString(h) + t2;
    MagicAt(buf, " W" + DecimalString(w) + t1);
    assert buf[|StreamMagic|..] == " W" + DecimalString(w) + t1;
    var e1, e2, e3 := |buf| - |t1|, |buf| - |t2|, |buf| - |t|;
    ReadWidthTag(buf, Start, w, t1, e1);
    var c1 := Cursor(e1, NoTags.(width := w), None);
    ReadHeightTag(buf, c1, h, t2, e2);
    var c2 := Cursor(e2, c1.tags.(height := h), None);
    ReadColorTag(buf, c2, ctag, t, e3);
    var c3 := Cursor(e3, c2.tags.(ctag := ctag, color := ColorTagCode(ctag)), None);
    LineStops(buf, c3, rest);
    ParseAfterMagic(buf, c3, Failed(HeaderError, c3.tags));
  }

  /** At a newline the tag loop is over. */
  lemma LineStops(buf: string, c: Cursor, rest: string)
    requires c.stop.None? && c.i <= |buf| && buf[c.i..] == "\n" + rest
    ensures ScanTags(buf, c) == c
  {
    Split(buf, c.i, "\n", rest);
  }

  /** A complete tag line followed by a line that does not start with "FRAME" is a header error (-1). */
  lemma MissingFrameLineIsHeaderError(buf: string, w: nat, h: nat, n: nat, d: nat, ctag: string, rest: string)
    requires buf == StreamMagic + TagLine(w, h, n, d, ctag, "\n" + rest)
    requires w > 0 && h > 0 && 0 < n < 0x1_0000_0000 && 0 < d < 0x1_0000_0000 && ColorWord(ctag)
    requires !MatchesAt(rest, 0, FrameMagic)
    ensures Parse(buf) == Failed(HeaderError, TagLineTags(w, h, n, d, ctag))
    ensures LegacyCode(Parse(buf)) == -1 && Y4mResult(Parse(buf)) == Err(PixelTypes.HeaderError)
  {
    var t := "\n" + rest;
    var nl := |buf| - |t|;
    MagicAt(buf, TagLine(w, h, n, d, ctag, t));
    ReadTagLine(buf, w, h, n, d, ctag, t, nl);
    var c := Cursor(nl, TagLineTags(w, h, n, d, ctag), None);
    FrameLineRejects(buf, c, rest);
    ParseAfterMagic(buf, c, Failed(HeaderError, c.tags));
  }

  /** A newline not followed by "FRAME" ends the tag loop with a header error. */
  lemma FrameLineRejects(buf: string, c: Cursor, rest: string)
    requires c.stop.None? && c.i <= |buf| && buf[c.i..] == "\n" + rest && !MatchesAt(rest, 0, FrameMagic)
    ensures Conclude(buf, ScanTags(buf, c)) == Failed(HeaderError, c.tags)
  {
    LineStops(buf, c, rest);
    Split(buf, c.i, "\n", rest);
    MatchesShift(buf, c.i + 1, FrameMagic);
  }

  // ------------------------------------------------------------ the parsers

  /** The tag loop, one tag test after another at the moving position. */
  method ScanTagLine(buf: string) returns (c: Cursor)
    ensures c == ScanTags(buf, Start)
  {
    c := Start;
    while c.i < |buf| && buf[c.i] != '\n'
      invariant c.stop.None? && ScanTags(buf, c) == ScanTags(buf, Start)
      decreases |buf| - c.i
    {
      ghost var c0 := c;
      c := SeeWidth(buf, c);
      c := SeeHeight(buf, c);
      c := SeeInterlace(buf, c);
      if c.stop.Some? {
        return;
      }
      c := SeeRate(buf, c);
      if c.stop.Some? {
        return;
      }
      c := SeeColor(buf, c);
      if c.stop.Some? {
        return;
      }
      c := c.(i := c.i + 1);
      assert c == Step(buf, c0);
    }
  }

  /** The loop that runs to the end of the FRAME line. */
  method FindLineEnd(buf: string, i: nat) returns (e: nat)
    ensures e == LineEnd(buf, i)
  {
    e := i;
    while e < |buf| && buf[e] != '\n'
      invariant i <= e && LineEnd(buf, e) == LineEnd(buf, i)
      decreases |buf| - e
    {
      e := e + 1;
    }
  }

  /**
   * What both parsers do after the tag loop: a stop is an error; so is a zero
   * width, height, numerator or denominator, and a line after the tag line that
   * does not start with "FRAME"; else the FRAME line is run to its end.
   */
  method FinishHeader(buf: string, c: Cursor) returns (outcome: Outcome)
    ensures outcome == Conclude(buf, c)
  {
    var t := c.tags;
    if c.stop == Some(Interlaced) {
      return Failed(Unsupported, t);
    }
    if c.stop.Some? {
      return Failed(HeaderError, t);
    }
    if t.num == 0 || t.den == 0 || t.width == 0 || t.height == 0 {
      return Failed(HeaderError, t);
    }
    var headerOffset := c.i + 1;
    if !MatchesAt(buf, headerOffset, FrameMagic) {
      return Failed(HeaderError, t);
    }
    var e := FindLineEnd(buf, headerOffset + |FrameMagic|);
    var frameOffset := e - headerOffset + 1;
    return Parsed(t, headerOffset + frameOffset, frameOffset);
  }

  /** The part of AviSynth's `VideoInfo` the header sets. */
  class VideoInfo {
    var width: int
    var height: int
    var fpsNum: nat
    var fpsDen: nat
    var fieldOrder: Option<FieldOrder>

    constructor (width: int, height: int, fpsNum: nat, fpsDen: nat)
      ensures this.width == width && this.height == height && this.fpsNum == fpsNum && this.fpsDen == fpsDen
      ensures fieldOrder == None
    {
      this.width := width;
      this.height := height;
      this.fpsNum := fpsNum;
      this.fpsDen := fpsDen;
      fieldOrder := None;
    }
  }

  /** What the scan leaves in `vi`: width and height, and the last rate and field order set, if any. */
  predicate VideoInfoFrom(vi: VideoInfo, t: Tags, oldNum: nat, oldDen: nat, oldOrder: Option<FieldOrder>)
    reads vi
  {
    && vi.width == t.width && vi.height == t.height
    && (vi.fpsNum, vi.fpsDen) == (if t.fps.Some? then t.fps.value else (oldNum, oldDen))
    && vi.fieldOrder == (if t.order.Some? then t.order else oldOrder)
  }

  /** Stores what the scan read into `vi`, as the loop does tag by tag. */
  method SetVideoInfo(vi: VideoInfo, t: Tags)
    modifies vi
    ensures VideoInfoFrom(vi, t, old(vi.fpsNum), old(vi.fpsDen), old(vi.fieldOrder))
  {
    vi.width := t.width;
    vi.height := t.height;
    if t.fps.Some? {
      vi.fpsNum, vi.fpsDen := t.fps.value.0, t.fps.value.1;
    }
    if t.order.Some? {
      vi.fieldOrder := t.order;
    }
  }

  /** The name `parse_y4m` leaves at the start of the buffer: "i420" unless a C tag named one. */
  function PixelTypeName(t: Tags): (name: string)
    ensures |name| == 4
  {
    match t.color
    case None => "i420"
    case Some(code) => if PixelTypes.HeaderCodeName(code).Some? && |PixelTypes.HeaderCodeName(code).value| == 4 then PixelTypes.HeaderCodeName(code).value else "i420"
  }

  /** `parse_y4m`'s result: false, an exception, or true with the two offsets. */
  function Y4mResult(p: Outcome): (r: Result<Option<(nat, nat)>>)
    ensures r == Ok(None) <==> p.NotY4m?
    ensures r.Err? <==> p.Failed?
    ensures p.Failed? ==> r.msg == (if p.why == Unsupported then PixelTypes.HeaderUnsupported else PixelTypes.HeaderError)
    ensures p.Parsed? ==> r == Ok(Some((p.headerOffset, p.frameOffset)))
  {
    match p
    case NotY4m => Ok(None)
    case Failed(Unsupported, _) => Err(PixelTypes.HeaderUnsupported)
    case Failed(HeaderError, _) => Err(PixelTypes.HeaderError)
    case Parsed(_, headerOffset, frameOffset) => Ok(Some((headerOffset, frameOffset)))
  }

  /** The magic is nine characters long, so a header that has it has at least nine. */
  lemma MagicLength(buf: string)
    requires MatchesAt(buf, 0, StreamMagic)
    ensures |buf| >= |StreamMagic|
  {
    assert StreamMagic[8] == '2' && At(buf, 8) == '2';
  }

  /** `strcpy(buf, name)` for a four-character name. */
  method CopyName(header: array<char>, name: string)
    requires |name| == 4 && header.Length >= 5
    modifies header
    ensures header[..] == name + ['\0'] + old(header[5..])
  {
    for k := 0 to 4
      invariant header[..k] == name[..k] && header[k..] == old(header[k..])
    {
      header[k] := name[k];
      assert header[..k + 1] == header[..k] + [name[k]];
    }
    header[4] := '\0';
    assert header[..] == header[..4] + [header[4]] + header[5..];
    assert name[..4] == name;
  }

  /**
   * `parse_y4m` (src/utils.cpp, copied in src/y4m_parse.cpp): the result is
   * false without the magic (nothing changes), an error, or true with the
   * first frame's offset and the FRAME line's length.  With the magic, the
   * buffer starts with the pixel type's name and its NUL and `vi` holds what
   * the tag line set, also when an error is thrown part way.
   */
  method ParseY4m(header: array<char>, vi: VideoInfo) returns (r: Result<Option<(nat, nat)>>)
    modifies header, vi
    ensures var p := Parse(old(header[..]));
            && r == Y4mResult(p)
            && (p.NotY4m? ==> header[..] == old(header[..]) && unchanged(vi))
            && (!p.NotY4m? ==>
                  && header.Length >= 5
                  && header[..] == PixelTypeName(TagsOf(p)) + ['\0'] + old(header[5..])
                  && VideoInfoFrom(vi, TagsOf(p), old(vi.fpsNum), old(vi.fpsDen), old(vi.fieldOrder)))
  {
    var buf := header[..];
    if !MatchesAt(buf, 0, StreamMagic) {
      return Ok(None);
    }
    MagicLength(buf);
    vi.height := 0;
    vi.width := 0;
    CopyName(header, "i420");
    var c := ScanTagLine(buf);
    var t := c.tags;
    SetVideoInfo(vi, t);
    ghost var rest := header[5..];
    CopyName(header, PixelTypeName(t));
    assert header[5..] == rest;
    var outcome := FinishHeader(buf, c);
    return Y4mResult(outcome);
  }

  /** The legacy return code: 0 no header, -1 header error, -2 unsupported, else the colour code (420 by default). */
  function LegacyCode(p: Outcome): (r: int)
    ensures p.NotY4m? ==> r == 0
    ensures p.Failed? ==> r == (if p.why == Unsupported then -2 else -1)
    ensures p.Parsed? ==> r == (if p.tags.color.Some? then p.tags.color.value else 420)
  {
    match p
    case NotY4m => 0
    case Failed(Unsupported, _) => -2
    case Failed(HeaderError, _) => -1
    case Parsed(t, _, _) => if t.color.Some? then t.color.value else 420
  }

  /** The legacy source object's header state: its `VideoInfo`, the first frame's offset and the FRAME line's length. */
  class LegacySource {
    const vi: VideoInfo
    var headerOffset: int
    var headerLen: int

    constructor (vi: VideoInfo)
      ensures this.vi == vi && headerOffset == 0 && headerLen == 0
    {
      this.vi := vi;
      headerOffset := 0;
      headerLen := 0;
    }

    /**
     * `RawSource::ParseHeader` (src/rawsource26.cpp) over the 128-byte header
     * buffer: the same scan as `parse_y4m`, reported as a return code; the
     * offsets are set only on success.
     */
    method ParseHeader(headerbuf: string) returns (ret: int)
      requires |headerbuf| == MaxLegacyHeader
      modifies this, vi
      ensures var p := Parse(headerbuf);
              && ret == LegacyCode(p)
              && (p.NotY4m? ==> unchanged(vi))
              && (!p.NotY4m? ==> VideoInfoFrom(vi, TagsOf(p), old(vi.fpsNum), old(vi.fpsDen), old(vi.fieldOrder)))
              && (if p.Parsed? then headerOffset == p.headerOffset && headerLen == p.frameOffset
                  else headerOffset == old(headerOffset) && headerLen == old(headerLen))
    {
      if !MatchesAt(headerbuf, 0, StreamMagic) {
        return 0;
      }
      vi.height := 0;
      vi.width := 0;
      var colorspace := 420;
      var c := ScanTagLine(headerbuf);
      var t := c.tags;
      SetVideoInfo(vi, t);
      if t.color.Some? {
        colorspace := t.color.value;
      }
      var outcome := FinishHeader(headerbuf, c);
      if outcome.Parsed? {
        headerOffset, headerLen := outcome.headerOffset, outcome.frameOffset;
        return colorspace;
      }
      return LegacyCode(outcome);
    }
  }

  /**
   * On the same 128-byte buffer the two parsers agree: the legacy code is 0
   * exactly when `parse_y4m` returns false, -2 or -1 exactly when it throws the
   * unsupported or the header error, and otherwise names, through the
   * constructor's code switch, the same pixel type up to letter case.
   */
  lemma ParsersAgree(buf: string, pixType: string)
    requires |buf| == MaxLegacyHeader
    ensures var p := Parse(buf);
            && (LegacyCode(p) == 0 <==> Y4mResult(p) == Ok(None))
            && (LegacyCode(p) == -2 <==> Y4mResult(p) == Err(PixelTypes.HeaderUnsupported))
            && (LegacyCode(p) == -1 <==> Y4mResult(p) == Err(PixelTypes.HeaderError))
            && (p.Parsed? ==> && PixelTypes.CanonicalHeaderName(LegacyCode(p), pixType).Ok?
                              && PixelTypes.StrIEq(PixelTypeName(p.tags), PixelTypes.CanonicalHeaderName(LegacyCode(p), pixType).value))
  {
    var p := Parse(buf);
    if p.Parsed? {
      var t := p.tags;
      if t.color.Some? {
        ColorCodeNamed(t.color.value);
      } else {
        DefaultNameMatches();
      }
    }
  }

  /** A colour code names a four-letter pixel type other than -1 or -2. */
  lemma ColorCodeNamed(code: int)
    requires PixelTypes.HeaderCodeName(code).Some?
    ensures code != 0 && code != -1 && code != -2 && |PixelTypes.HeaderCodeName(code).value| == 4
    ensures PixelTypes.StrIEq(PixelTypes.HeaderCodeName(code).value, PixelTypes.HeaderCodeName(code).value)
  {
    PixelTypes.StrIEqIsLowerEquality(PixelTypes.HeaderCodeName(code).value, PixelTypes.HeaderCodeName(code).value);
  }

  /** The default "i420" and the legacy default "I420" are the same name up to case. */
  lemma DefaultNameMatches()
    ensures PixelTypes.HeaderCodeName(420) == Some("I420")
    ensures PixelTypes.StrIEq("i420", "I420")
  {
    PixelTypes.StrIEqIsLowerEquality("i420", "I420");
    assert PixelTypes.LowerStr("i420") == PixelTypes.LowerStr("I420");
  }

  /** The legacy constructor's width check, which precedes the code switch whatever the code. */
  function LegacyHeaderPixelType(ret: int, width: int, pixType: string): (r: Result<string>)
    requires PixelTypes.HeaderCodeName(ret).Some? ==> |pixType| >= 4
    ensures r.Err? <==> width > MaxLegacyWidth || ret in {-1, -2}
    ensures width > MaxLegacyWidth ==> r == Err(WidthTooBig(width))
    ensures width <= MaxLegacyWidth ==> r == PixelTypes.ApplyHeaderCode(ret, pixType)
  {
    if width > MaxLegacyWidth then Err(WidthTooBig(width))
    else PixelTypes.ApplyHeaderCode(ret, pixType)
  }

  /** "Width too big(<width>). Maximum acceptable width is 4096." */
  function WidthTooBig(width: int): string
    requires width >= 0
  {
    "Width too big(" + DecimalString(width) + "). Maximum acceptable width is 4096."
  }
}
