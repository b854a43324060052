/**
 * The checkpoint descriptor: whitespace-separated `frame:offset` tokens,
 * inline or read from an index file, parsed best-effort into the list of
 * (frame number, byte position) checkpoints that anchor the frame index.
 */
module Checkpoints {
  import opened Common
  import opened Scanf

  datatype Checkpoint = Checkpoint(framenr: int, bytepos: int)

  const FrameZeroMandatory: string := "When using an index: frame 0 is mandatory"
  const CannotOpenIndexFile: string := "Cannot open indexfile."

  /** The separators handed to `strtok`. */
  predicate IsSep(c: char) { c == ' ' || c == '\n' }

  /** A C string ends at its first NUL. */
  function CStr(s: string): (r: string)
    ensures |r| <= |s| && r == s[..|r|] && '\0' !in r
    ensures |r| < |s| ==> s[|r|] == '\0'
  {
    if s == [] || s[0] == '\0' then [] else [s[0]] + CStr(s[1..])
  }

  // ---------------------------------------------------------------- tokens

  /** End of the run of non-separators that starts at `p`. */
  function RunEnd(s: string, p: nat): (e: nat)
    requires p <= |s|
    ensures p <= e <= |s| && (forall k :: p <= k < e ==> !IsSep(s[k])) && (e < |s| ==> IsSep(s[e]))
    decreases |s| - p
  {
    if p == |s| || IsSep(s[p]) then p else RunEnd(s, p + 1)
  }

  /**
   * The tokens `strtok(s, " \n")` returns from position `p` on, in order: at
   * most one per character, and none exactly when only separators are left.
   */
  function TokensFrom(s: string, p: nat): (r: seq<string>)
    requires p <= |s|
    ensures |r| <= |s| - p
    ensures r == [] <==> forall k :: p <= k < |s| ==> IsSep(s[k])
    decreases |s| - p
  {
    if p == |s| then []
    else if IsSep(s[p]) then TokensFrom(s, p + 1)
    else [s[p..RunEnd(s, p)]] + TokensFrom(s, RunEnd(s, p))
  }

  /** The tokens of the whole text; there are none exactly when the text is blank. */
  function Tokens(s: string): (r: seq<string>)
    ensures r == [] <==> forall k :: 0 <= k < |s| ==> IsSep(s[k])
  {
    TokensFrom(s, 0)
  }

  /** Every token is non-empty and holds no separator. */
  lemma {:induction false} TokensAreSeparatorFree(s: string, p: nat)
    requires p <= |s|
    ensures forall i :: 0 <= i < |TokensFrom(s, p)| ==>
      TokensFrom(s, p)[i] != [] && forall k :: 0 <= k < |TokensFrom(s, p)[i]| ==> !IsSep(TokensFrom(s, p)[i][k])
    decreases |s| - p
  {
    if p < |s| {
      if IsSep(s[p]) {
        TokensAreSeparatorFree(s, p + 1);
      } else {
        TokensAreSeparatorFree(s, RunEnd(s, p));
      }
    }
  }

  /**
   * One step of `strtok`: from position `p`, skip separators; `None` when the
   * text is exhausted, else the token and the position just after it.
   */
  method NextToken(text: string, p: nat) returns (token: Option<string>, q: nat)
    requires p <= |text|
    ensures p <= q <= |text|
    ensures token.None? ==> TokensFrom(text, p) == []
    ensures token.Some? ==> TokensFrom(text, p) == [token.value] + TokensFrom(text, q)
  {
    q := p;
    while q < |text| && IsSep(text[q])
      invariant p <= q <= |text|
      invariant TokensFrom(text, p) == TokensFrom(text, q)
    {
      q := q + 1;
    }
    if q == |text| {
      return None, q;
    }
    var start := q;
    while q < |text| && !IsSep(text[q])
      invariant start <= q <= |text|
      invariant RunEnd(text, start) == RunEnd(text, q)
    {
      q := q + 1;
    }
    token := Some(text[start..q]);
  }

  // --------------------------------------------------------------- entries

  /** Position of the first ':' (`strchr`). */
  function IndexOfColon(s: string): (r: Option<nat>)
    ensures r.Some? ==> r.value < |s| && s[r.value] == ':' && ':' !in s[..r.value]
    ensures r.None? ==> ':' !in s
  {
    if s == [] then None
    else if s[0] == ':' then Some(0)
    else match IndexOfColon(s[1..])
      case Some(i) => Some(i + 1)
      case None => None
  }

  /**
   * One token of the loop body: the frame number is read from the token's start,
   * the byte position from just after its first ':'; a token without ':', or
   * whose numbers are missing or negative, ends the parse.
   */
  function Entry(token: string, offsetFormat: NumberFormat): (r: Option<Checkpoint>)
    ensures r.Some? ==> r.value.framenr >= 0 && r.value.bytepos >= 0
  {
    match IndexOfColon(token)
    case None => None
    case Some(c) =>
      var num1 := match ScanInt(token, 0, Decimal) case Some(n) => n.value case None => -1;
      var num2 := match ScanInt(token, c + 1, offsetFormat) case Some(n) => n.value case None => -1;
      if num1 < 0 || num2 < 0 then None else Some(Checkpoint(num1, num2))
  }

  /** The entries of the tokens, up to (not including) the first token that is not an entry. */
  function Entries(tokens: seq<string>, offsetFormat: NumberFormat): (r: seq<Checkpoint>)
    ensures |r| <= |tokens|
  {
    if tokens == [] then []
    else match Entry(tokens[0], offsetFormat)
      case None => []
      case Some(e) => [e] + Entries(tokens[1..], offsetFormat)
  }

  lemma EntriesCons(t: string, rest: seq<string>, fmt: NumberFormat)
    ensures Entries([t] + rest, fmt) == match Entry(t, fmt) case None => [] case Some(e) => [e] + Entries(rest, fmt)
  {
    assert ([t] + rest)[0] == t && ([t] + rest)[1..] == rest;
  }

  /**
   * Best effort, in input order: the result is the entries of a prefix of the
   * tokens, and the token after that prefix (if any) is the one that stopped it.
   */
  lemma {:induction false} EntriesAreLongestValidPrefix(tokens: seq<string>, fmt: NumberFormat)
    ensures forall i :: 0 <= i < |Entries(tokens, fmt)| ==> Entry(tokens[i], fmt) == Some(Entries(tokens, fmt)[i])
    ensures |Entries(tokens, fmt)| < |tokens| ==> Entry(tokens[|Entries(tokens, fmt)|], fmt).None?
  {
    if tokens != [] && Entry(tokens[0], fmt).Some? {
      EntriesAreLongestValidPrefix(tokens[1..], fmt);
    }
  }

  /** The text the tokens come from: the index file's contents when the descriptor names a file. */
  function DescriptorText(index: string, indexFile: Option<string>): (r: Result<string>)
    ensures r.Err? <==> '.' in index && indexFile.None?
    ensures r.Err? ==> r.msg == CannotOpenIndexFile
    ensures r.Ok? && '.' !in index ==> r.value == index
    ensures r.Ok? && '.' in index ==>
              && indexFile.Some? && '\0' !in r.value
              && |r.value| <= |indexFile.value| && r.value == indexFile.value[..|r.value|]
  {
    if '.' in index then
      match indexFile
      case None => Err(CannotOpenIndexFile)
      case Some(contents) => Ok(CStr(contents))
    else Ok(index)
  }

  /**
   * The checkpoints the parse leaves, or the error it throws: the empty descriptor
   * yields the synthetic pair (frame 0 at the header offset, frame 1 one frame
   * header and one frame later); otherwise the entries of the descriptor's tokens,
   * of which the first must be frame 0.  `offsetFormat` is how byte positions are
   * read: `%i` in `set_rawindex`, `%d` in the legacy parser.
   */
  function RawindexSpec(index: string, headerOffset: int, frameOffset: int, framesize: nat,
                        indexFile: Option<string>, offsetFormat: NumberFormat): (r: Result<seq<Checkpoint>>)
    ensures r.Ok? ==> |r.value| >= 1 && r.value[0].framenr == 0
    ensures r.Ok? && index != [] ==> forall i :: 0 <= i < |r.value| ==> r.value[i].framenr >= 0 && r.value[i].bytepos >= 0
    ensures r.Err? ==> r.msg in {CannotOpenIndexFile, FrameZeroMandatory}
  {
    if index == [] then Ok([Checkpoint(0, headerOffset), Checkpoint(1, headerOffset + frameOffset + framesize)])
    else match DescriptorText(index, indexFile)
      case Err(m) => Err(m)
      case Ok(text) =>
        var entries := Entries(Tokens(text), offsetFormat);
        EntriesAreValid(Tokens(text), offsetFormat);
        if entries == [] || entries[0].framenr != 0 then Err(FrameZeroMandatory) else Ok(entries)
  }

  lemma {:induction false} EntriesAreValid(tokens: seq<string>, fmt: NumberFormat)
    ensures forall i :: 0 <= i < |Entries(tokens, fmt)| ==> Entries(tokens, fmt)[i].framenr >= 0 && Entries(tokens, fmt)[i].bytepos >= 0
  {
    if tokens != [] && Entry(tokens[0], fmt).Some? {
      EntriesAreValid(tokens[1..], fmt);
    }
  }

  /**
   * A non-empty descriptor whose text can be read is accepted exactly when its
   * first token is a checkpoint for frame 0, and then every checkpoint is the
   * entry of the token at the same position: the input order is kept.
   */
  lemma DescriptorAcceptance(index: string, headerOffset: int, frameOffset: int, framesize: nat,
                             indexFile: Option<string>, fmt: NumberFormat)
    requires index != [] && DescriptorText(index, indexFile).Ok?
    ensures var tokens := Tokens(DescriptorText(index, indexFile).value);
            var r := RawindexSpec(index, headerOffset, frameOffset, framesize, indexFile, fmt);
            && (r.Ok? <==> tokens != [] && Entry(tokens[0], fmt).Some? && Entry(tokens[0], fmt).value.framenr == 0)
            && (r.Err? ==> r.msg == FrameZeroMandatory)
            && (r.Ok? ==> forall i :: 0 <= i < |r.value| ==> Entry(tokens[i], fmt) == Some(r.value[i]))
  {
    var tokens := Tokens(DescriptorText(index, indexFile).value);
    EntriesAreLongestValidPrefix(tokens, fmt);
  }

  /** A descriptor with a '.' names an index file; one that cannot be opened is an error. */
  lemma UnreadableIndexFile(index: string, headerOffset: int, frameOffset: int, framesize: nat, fmt: NumberFormat)
    requires '.' in index
    ensures RawindexSpec(index, headerOffset, frameOffset, framesize, None, fmt) == Err(CannotOpenIndexFile)
  {
  }

  /** A valid token moves its checkpoint from the entries still to come to the stored ones. */
  lemma EntriesShift(done: seq<Checkpoint>, t: string, rest: seq<string>, fmt: NumberFormat)
    requires Entry(t, fmt).Some?
    ensures done + Entries([t] + rest, fmt) == (done + [Entry(t, fmt).value]) + Entries(rest, fmt)
  {
    EntriesCons(t, rest, fmt);
    assert done + ([Entry(t, fmt).value] + Entries(rest, fmt)) == (done + [Entry(t, fmt).value]) + Entries(rest, fmt);
  }

  /** The `strtok` loop: one checkpoint per token, stopping at the first token that is not one. */
  method ParseEntries(buff: string, offsetFormat: NumberFormat) returns (rawindex: seq<Checkpoint>)
    ensures rawindex == Entries(Tokens(buff), offsetFormat)
  {
    rawindex := [];
    ghost var all := Tokens(buff);
    var token, p := NextToken(buff, 0);
    ghost var rest := if token.Some? then [token.value] + TokensFrom(buff, p) else [];
    while token.Some?
      invariant p <= |buff|
      invariant token.Some? ==> rest == [token.value] + TokensFrom(buff, p)
      invariant token.None? ==> rest == []
      invariant rawindex + Entries(rest, offsetFormat) == Entries(all, offsetFormat)
      decreases |rest|
    {
      var e := Entry(token.value, offsetFormat);
      EntriesCons(token.value, TokensFrom(buff, p), offsetFormat);
      if e.None? {
        assert rawindex == Entries(all, offsetFormat);
        break;
      }
      EntriesShift(rawindex, token.value, TokensFrom(buff, p), offsetFormat);
      rawindex := rawindex + [e.value];
      rest := TokensFrom(buff, p);
      token, p := NextToken(buff, p);
    }
  }

  /**
   * `set_rawindex` (src/utils.cpp): the empty descriptor yields the two synthetic
   * checkpoints; otherwise the `strtok` loop appends one checkpoint per valid token
   * and stops at the first invalid one; then frame 0 must come first.
   * `indexFile` is the index file's contents, `None` when it cannot be opened.
   */
  method SetRawindex(index: string, headerOffset: int, frameOffset: int, framesize: nat,
                     indexFile: Option<string>) returns (r: Result<seq<Checkpoint>>)
    requires '\0' !in index
    ensures r == RawindexSpec(index, headerOffset, frameOffset, framesize, indexFile, AutoBase)
  {
    if |index| == 0 {
      return Ok([Checkpoint(0, headerOffset), Checkpoint(1, headerOffset + frameOffset + framesize)]);
    }
    var text := DescriptorText(index, indexFile);
    if text.Err? {
      return Err(text.msg);
    }
    var rawindex := ParseEntries(text.value, AutoBase);
    if rawindex == [] || rawindex[0].framenr != 0 {
      return Err(FrameZeroMandatory);
    }
    return Ok(rawindex);
  }

  /** The legacy `strtok` loop: checkpoints are stored into the table in input order; `pri` counts them. */
  method StoreEntries(buff: string, rawindex: array<Checkpoint>) returns (pri: nat)
    requires |Entries(Tokens(buff), Decimal)| <= rawindex.Length
    modifies rawindex
    ensures pri <= rawindex.Length && rawindex[..pri] == Entries(Tokens(buff), Decimal)
  {
    ghost var all := Entries(Tokens(buff), Decimal);
    ghost var done: seq<Checkpoint> := [];
    pri := 0;
    var token, p := NextToken(buff, 0);
    ghost var rest := if token.Some? then [token.value] + TokensFrom(buff, p) else [];
    while token.Some?
      invariant p <= |buff| && pri == |done| <= rawindex.Length && rawindex[..pri] == done
      invariant token.Some? ==> rest == [token.value] + TokensFrom(buff, p)
      invariant token.None? ==> rest == []
      invariant done + Entries(rest, Decimal) == all
      decreases |rest|
    {
      var e := Entry(token.value, Decimal);
      EntriesCons(token.value, TokensFrom(buff, p), Decimal);
      if e.None? {
        break;
      }
      EntriesShift(done, token.value, TokensFrom(buff, p), Decimal);
      assert |done| + 1 <= |all|;
      Store(rawindex, pri, e.value);
      done := done + [e.value];
      pri := pri + 1;
      rest := TokensFrom(buff, p);
      token, p := NextToken(buff, p);
    }
  }

  /** `rawindex[pri] = ...`: the stored prefix grows by one checkpoint. */
  method Store(rawindex: array<Checkpoint>, pri: nat, x: Checkpoint)
    requires pri < rawindex.Length
    modifies rawindex
    ensures rawindex[..pri + 1] == old(rawindex[..pri]) + [x]
  {
    rawindex[pri] := x;
    assert rawindex[..pri + 1] == rawindex[..pri] + [x];
  }

  /**
   * The legacy parser (src/rawsource26.cpp): the same loop, reading both numbers
   * with `%d` and storing into a fixed table of checkpoints; the result is `rimax`,
   * the index of the last checkpoint stored.  The table is not bounds-checked
   * there, so its capacity is a precondition here.
   */
  method LegacyRawindex(index: string, headerOffset: int, headerLen: int, framesize: nat,
                        indexFile: Option<string>, rawindex: array<Checkpoint>) returns (r: Result<int>)
    requires '\0' !in index && rawindex.Length >= 2
    requires index != [] && DescriptorText(index, indexFile).Ok? ==>
             |Entries(Tokens(DescriptorText(index, indexFile).value), Decimal)| <= rawindex.Length
    modifies rawindex
    ensures var spec := RawindexSpec(index, headerOffset, headerLen, framesize, indexFile, Decimal);
            && (r.Ok? <==> spec.Ok?)
            && (r.Err? ==> r.msg == spec.msg)
            && (r.Ok? ==> 0 <= r.value < rawindex.Length && rawindex[..r.value + 1] == spec.value)
  {
    if index == [] {
      rawindex[0] := Checkpoint(0, headerOffset);
      rawindex[1] := Checkpoint(1, headerOffset + headerLen + framesize);
      assert rawindex[..2] == [rawindex[0], rawindex[1]];
      return Ok(1);
    }
    var text := DescriptorText(index, indexFile);
    if text.Err? {
      return Err(text.msg);
    }
    var pri := StoreEntries(text.value, rawindex);
    var rimax := pri as int - 1;
    if rimax < 0 || rawindex[0].framenr != 0 {
      return Err(FrameZeroMandatory);
    }
    return Ok(rimax);
  }
}
