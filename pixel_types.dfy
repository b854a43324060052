/**
 * The pixel-type registry of the RawSource constructor: a cascade of
 * case-insensitive name comparisons that fixes the colour space, the
 * plane or byte order (`mapping`) and the count of used slots (`mapcnt`),
 * and the switch that turns a YUV4MPEG2 colour code into a name.
 */
module PixelTypes {
  import opened Common

  /** AviSynth's plane identifiers (values as in AviSynth 2.6). */
  const PLANAR_Y: int := 1
  const PLANAR_U: int := 2
  const PLANAR_V: int := 4

  datatype ColorSpace = CS_BGR32 | CS_BGR24 | CS_YUY2 | CS_YV24 | CS_YV16 | CS_YV411 | CS_I420 | CS_YV12 | CS_Y8

  predicate IsPlanar(cs: ColorSpace)
  {
    cs in {CS_YV24, CS_YV16, CS_YV411, CS_I420, CS_YV12, CS_Y8}
  }

  /** Bits per pixel AviSynth reports for each colour space. */
  function BitsPerPixel(cs: ColorSpace): nat
  {
    match cs
    case CS_BGR32 => 32
    case CS_BGR24 => 24
    case CS_YUY2 => 16
    case CS_YV24 => 24
    case CS_YV16 => 16
    case CS_YV411 => 12
    case CS_I420 => 12
    case CS_YV12 => 12
    case CS_Y8 => 8
  }

  /**
   * What one branch of the cascade assigns. `mapping` holds exactly the slots the
   * branch writes (the NV formats write three slots but use two).
   */
  datatype PixelFormat = PixelFormat(cs: ColorSpace, mapping: seq<int>, mapcnt: nat)

  /** What each branch of the cascade assigns, by branch number (in source order); 12 repeats 11. */
  function Format(k: nat): (r: PixelFormat)
    requires k < 22
    ensures 1 <= r.mapcnt <= |r.mapping| <= 4
    ensures IsPlanar(r.cs) <==> k >= 10
  {
    match k
    case 0 => PixelFormat(CS_BGR32, [2, 1, 0, 3], 4)
    case 1 => PixelFormat(CS_BGR32, [0, 1, 2, 3], 4)
    case 2 => PixelFormat(CS_BGR32, [3, 2, 1, 0], 4)
    case 3 => PixelFormat(CS_BGR32, [1, 2, 3, 0], 4)
    case 4 => PixelFormat(CS_BGR24, [2, 1, 0], 3)
    case 5 => PixelFormat(CS_BGR24, [0, 1, 2], 3)
    case 6 => PixelFormat(CS_YUY2, [0, 1], 2)
    case 7 => PixelFormat(CS_YUY2, [1, 0], 2)
    case 8 => PixelFormat(CS_YUY2, [0, 3, 2, 1], 4)
    case 9 => PixelFormat(CS_YUY2, [1, 2, 3, 0], 4)
    case 10 => PixelFormat(CS_YV24, [PLANAR_Y, PLANAR_V, PLANAR_U], 3)
    case 11 => PixelFormat(CS_YV24, [PLANAR_Y, PLANAR_U, PLANAR_V], 3)
    case 12 => PixelFormat(CS_YV24, [PLANAR_Y, PLANAR_U, PLANAR_V], 3)
    case 13 => PixelFormat(CS_YV16, [PLANAR_Y, PLANAR_V, PLANAR_U], 3)
    case 14 => PixelFormat(CS_YV16, [PLANAR_Y, PLANAR_U, PLANAR_V], 3)
    case 15 => PixelFormat(CS_YV411, [PLANAR_Y, PLANAR_V, PLANAR_U], 3)
    case 16 => PixelFormat(CS_YV411, [PLANAR_Y, PLANAR_U, PLANAR_V], 3)
    case 17 => PixelFormat(CS_I420, [PLANAR_Y, PLANAR_U, PLANAR_V], 3)
    case 18 => PixelFormat(CS_YV12, [PLANAR_Y, PLANAR_V, PLANAR_U], 3)
    case 19 => PixelFormat(CS_Y8, [PLANAR_Y], 1)
    case 20 => PixelFormat(CS_I420, [PLANAR_Y, PLANAR_U, PLANAR_V], 2)
    case _ => PixelFormat(CS_YV12, [PLANAR_Y, PLANAR_V, PLANAR_U], 2)
  }

  const InvalidPixelType: string :=
    "Invalid pixel type. Supported: RGB, RGBA, BGR, BGRA, ARGB, ABGR, YUY2, YUYV, UYVY, YVYU, VYUY, YV16, I422, YV411, I411, YV12, I420, IYUV, NV12, NV21, Y8, GRAY"

  /** The lower-case form of every name some branch of the cascade tests for. */
  const SupportedKeys: seq<string> := [
    "rgba", "rgb32", "bgra", "bgr32", "argb", "abgr", "rgb", "bgr", "yuyv", "yuy2", "uyvy",
    "yvyu", "vyuy", "yv24", "i444", "yv16", "i422", "yv411", "y41b", "i411", "i420", "iyuv",
    "yv12", "y8", "gray", "nv12", "nv21"]

  /** ASCII tolower. */
  function Lower(c: char): char
  {
    if 'A' <= c <= 'Z' then (c as int + 32) as char else c
  }

  function LowerStr(s: string): (r: string)
    ensures |r| == |s| && forall k :: 0 <= k < |s| ==> r[k] == Lower(s[k])
  {
    if s == [] then [] else [Lower(s[0])] + LowerStr(s[1..])
  }

  /** `stricmp(a, b) == 0`: compares character by character after tolower. */
  predicate StrIEq(a: string, b: string)
  {
    if a == [] || b == [] then a == [] && b == []
    else Lower(a[0]) == Lower(b[0]) && StrIEq(a[1..], b[1..])
  }

  /** Two names compare equal without regard to case exactly when their lower-case forms are equal. */
  lemma {:induction false} StrIEqIsLowerEquality(a: string, b: string)
    ensures StrIEq(a, b) <==> LowerStr(a) == LowerStr(b)
  {
    if a != [] && b != [] {
      StrIEqIsLowerEquality(a[1..], b[1..]);
      assert LowerStr(a) == [Lower(a[0])] + LowerStr(a[1..]);
      assert LowerStr(b) == [Lower(b[0])] + LowerStr(b[1..]);
      if LowerStr(a) == LowerStr(b) {
        assert LowerStr(a)[1..] == LowerStr(a[1..]);
        assert LowerStr(b)[1..] == LowerStr(b[1..]);
      }
    }
  }

  /** The number of the branch that repeats the `I444` test. */
  const DuplicateI444: nat := 12

  /**
   * The `stricmp` cascade: the number of the first branch whose test holds.
   * `stricmp(name, "RGBA") == 0` holds exactly when the lower-case forms agree
   * (StrIEqIsLowerEquality), so each test is written on `key`, the lower-case name.
   */
  function Cascade(name: string): (r: Option<nat>)
    ensures r.None? <==> LowerStr(name) !in SupportedKeys
    ensures r.Some? ==> r.value < 22 && r.value != DuplicateI444
  {
    var key := LowerStr(name);
    UnmatchedKeyIsUnsupported(key);
    UnsupportedKeyIsUnmatched(key);
    CascadeKey(key)
  }

  function CascadeKey(key: string): (r: Option<nat>)
    ensures r.Some? ==> r.value < 22 && r.value != DuplicateI444
  {
    if key == "rgba" || key == "rgb32" then Some(0)
    else if key == "bgra" || key == "bgr32" then Some(1)
    else if key == "argb" then Some(2)
    else if key == "abgr" then Some(3)
    else if key == "rgb" then Some(4)
    else if key == "bgr" then Some(5)
    else if key == "yuyv" || key == "yuy2" then Some(6)
    else if key == "uyvy" then Some(7)
    else if key == "yvyu" then Some(8)
    else if key == "vyuy" then Some(9)
    else if key == "yv24" then Some(10)
    else if key == "i444" then Some(11)
    else if key == "i444" then Some(DuplicateI444)
    else if key == "yv16" then Some(13)
    else if key == "i422" then Some(14)
    else if key == "yv411" || key == "y41b" then Some(15)
    else if key == "i411" then Some(16)
    else if key == "i420" || key == "iyuv" then Some(17)
    else if key == "yv12" then Some(18)
    else if key == "y8" || key == "gray" then Some(19)
    else if key == "nv12" then Some(20)
    else if key == "nv21" then Some(21)
    else None
  }

  /** The format the cascade assigns, or the constructor's error. */
  function Lookup(name: string): (r: Result<PixelFormat>)
    ensures r.Err? <==> LowerStr(name) !in SupportedKeys
    ensures r.Err? ==> r.msg == InvalidPixelType
    ensures r.Ok? ==> 1 <= r.value.mapcnt <= |r.value.mapping| <= 4
  {
    match Cascade(name)
    case Some(k) => Ok(Format(k))
    case None => Err(InvalidPixelType)
  }

  lemma UnmatchedKeyIsUnsupported(key: string)
    ensures CascadeKey(key).None? ==> key !in SupportedKeys
  {
    if key in SupportedKeys {
      var i :| 0 <= i < |SupportedKeys| && SupportedKeys[i] == key;
      if i < 9 {
        assert CascadeKey(SupportedKeys[i]).Some?;
      } else if i < 18 {
        assert CascadeKey(SupportedKeys[i]).Some?;
      } else {
        assert CascadeKey(SupportedKeys[i]).Some?;
      }
    }
  }

  lemma UnsupportedKeyIsUnmatched(key: string)
    ensures key !in SupportedKeys ==> CascadeKey(key).None?
  {
  }

  /** An unknown name ends in "Invalid pixel type"; a name equal, up to case, to a supported one does not. */
  lemma UnknownNameIsRejected(name: string)
    ensures Lookup(name) == Err(InvalidPixelType) <==> LowerStr(name) !in SupportedKeys
  {
    UnmatchedKeyIsUnsupported(LowerStr(name));
    UnsupportedKeyIsUnmatched(LowerStr(name));
  }

  /** The lookup is case-insensitive: names that `stricmp` calls equal get the same answer. */
  lemma LookupIsCaseInsensitive(a: string, b: string)
    requires StrIEq(a, b)
    ensures Lookup(a) == Lookup(b)
  {
    StrIEqIsLowerEquality(a, b);
  }

  /** The second `I444` branch can never be taken: whatever it accepts, the first one accepted. */
  lemma DuplicateI444Unreachable(name: string)
    ensures Cascade(name) != Some(DuplicateI444)
  {
  }

  predicate StartsYV(s: string) { |s| >= 2 && Lower(s[0]) == 'y' && Lower(s[1]) == 'v' }
  predicate StartsI(s: string) { |s| >= 1 && Lower(s[0]) == 'i' }

  /**
   * What the layout code relies on: a packed format's used slots are a permutation
   * of the byte positions 0..mapcnt-1; a planar format's slots are distinct plane
   * identifiers starting with Y, and a two-slot (NV) format still names both chroma planes.
   */
  predicate WellFormed(f: PixelFormat)
  {
    && 1 <= f.mapcnt <= |f.mapping| <= 4
    && (forall i, j :: 0 <= i < j < |f.mapping| ==> f.mapping[i] != f.mapping[j])
    && (if IsPlanar(f.cs) then
          && f.mapping[0] == PLANAR_Y
          && (forall i :: 0 <= i < |f.mapping| ==> f.mapping[i] in {PLANAR_Y, PLANAR_U, PLANAR_V})
          && (f.mapcnt == 2 ==> |f.mapping| == 3)
        else
          && |f.mapping| == f.mapcnt
          && forall i :: 0 <= i < f.mapcnt ==> 0 <= f.mapping[i] < f.mapcnt)
  }

  /** The 32-bit RGB branches (0-3) assign well-formed formats. */
  lemma RgbaFormatWellFormed(k: nat)
    requires k < 4
    ensures WellFormed(Format(k))
  {
  }

  /** The 24-bit RGB and YUY2 branches (4-9) assign well-formed formats. */
  lemma PackedFormatWellFormed(k: nat)
    requires 4 <= k < 10
    ensures WellFormed(Format(k))
  {
  }

  /** The planar branches (10-21) assign well-formed formats. */
  lemma PlanarFormatWellFormed(k: nat)
    requires 10 <= k < 22
    ensures WellFormed(Format(k))
  {
  }

  lemma RegistryWellFormed(name: string)
    requires Lookup(name).Ok?
    ensures WellFormed(Lookup(name).value)
  {
    var k := Cascade(name).value;
    if k < 4 {
      RgbaFormatWellFormed(k);
    } else if k < 10 {
      PackedFormatWellFormed(k);
    } else {
      PlanarFormatWellFormed(k);
    }
  }

  lemma PlaneOrderOfYVKey(key: string)
    requires CascadeKey(key).Some? && IsPlanar(Format(CascadeKey(key).value).cs)
    requires |key| >= 2 && key[0] == 'y' && key[1] == 'v'
    ensures Format(CascadeKey(key).value).mapping == [PLANAR_Y, PLANAR_V, PLANAR_U]
  {
  }

  lemma PlaneOrderOfIKey(key: string)
    requires CascadeKey(key).Some? && IsPlanar(Format(CascadeKey(key).value).cs)
    requires |key| >= 1 && key[0] == 'i'
    ensures Format(CascadeKey(key).value).mapping == [PLANAR_Y, PLANAR_U, PLANAR_V]
  {
  }

  /** A planar `YV…` name orders the planes Y, V, U; an `I…` name (I444, I422, I411, I420, IYUV) orders them Y, U, V. */
  lemma PlaneOrderFollowsName(name: string)
    requires Lookup(name).Ok? && IsPlanar(Lookup(name).value.cs)
    ensures StartsYV(name) ==> Lookup(name).value.mapping == [PLANAR_Y, PLANAR_V, PLANAR_U]
    ensures StartsI(name) ==> Lookup(name).value.mapping == [PLANAR_Y, PLANAR_U, PLANAR_V]
  {
    var key := LowerStr(name);
    if StartsYV(name) {
      PlaneOrderOfYVKey(key);
    }
    if StartsI(name) {
      PlaneOrderOfIKey(key);
    }
  }

  const HeaderError: string := "YUV4MPEG2 header error."
  const HeaderUnsupported: string := "This file's YUV4MPEG2 HEADER is unsupported."

  /** The name each YUV4MPEG2 colour code stands for; 4444 stands for a name the registry lacks. */
  function HeaderCodeName(code: int): (r: Option<string>)
    ensures r.Some? <==> code in {4444, 444, 422, 411, 420, 8}
    ensures r.Some? ==> |r.value| == 4
  {
    if code == 4444 then Some("AYUV")
    else if code == 444 then Some("I444")
    else if code == 422 then Some("I422")
    else if code == 411 then Some("I411")
    else if code == 420 then Some("I420")
    else if code == 8 then Some("GRAY")
    else None
  }

  /**
   * The switch on ParseHeader's result, as written: `strncpy(pix_type, name, 4)`
   * replaces only the first four characters of the user's pixel type; -1 and -2
   * are the two header errors, and any other code (0: no header) keeps the name.
   */
  function ApplyHeaderCode(code: int, pixType: string): (r: Result<string>)
    requires HeaderCodeName(code).Some? ==> |pixType| >= 4
    ensures r.Err? <==> code in {-1, -2}
    ensures r.Ok? && HeaderCodeName(code).Some? ==>
              |r.value| == |pixType| && r.value[..4] == HeaderCodeName(code).value && r.value[4..] == pixType[4..]
    ensures r.Ok? && HeaderCodeName(code).None? ==> r.value == pixType
  {
    if code == -1 then Err(HeaderError)
    else if code == -2 then Err(HeaderUnsupported)
    else match HeaderCodeName(code)
      case Some(n) => Ok(n + pixType[4..])
      case None => Ok(pixType)
  }

  /** The header's own colour code decides the name: the whole name is replaced, as `parse_y4m`'s `strcpy` does. */
  function CanonicalHeaderName(code: int, pixType: string): (r: Result<string>)
    ensures r.Err? <==> code in {-1, -2}
    ensures r.Ok? && HeaderCodeName(code).Some? ==> r.value == HeaderCodeName(code).value
    ensures r.Ok? && HeaderCodeName(code).None? ==> r.value == pixType
  {
    if code == -1 then Err(HeaderError)
    else if code == -2 then Err(HeaderUnsupported)
    else match HeaderCodeName(code)
      case Some(n) => Ok(n)
      case None => Ok(pixType)
  }

  /** No supported key starts with "ay". */
  lemma NoKeyStartsAY(key: string)
    requires |key| >= 2 && key[0] == 'a' && key[1] == 'y'
    ensures CascadeKey(key).None?
  {
  }

  /** The lower-case form, spelled out character by character. */
  lemma LowerStrAt(s: string)
    ensures LowerStr(s) == seq(|s|, k requires 0 <= k < |s| => Lower(s[k]))
  {
  }

  /** A `444alpha` header always ends in "Invalid pixel type": the registry has no "AYUV" entry. */
  lemma AlphaHeaderIsRejected(pixType: string)
    requires |pixType| >= 4
    ensures ApplyHeaderCode(4444, pixType).Ok?
    ensures Lookup(ApplyHeaderCode(4444, pixType).value) == Err(InvalidPixelType)
    ensures Lookup(CanonicalHeaderName(4444, pixType).value) == Err(InvalidPixelType)
  {
    NoKeyStartsAY(LowerStr(ApplyHeaderCode(4444, pixType).value));
    NoKeyStartsAY(LowerStr("AYUV"));
  }

  /**
   * As written, a user pixel type longer than four characters keeps its tail:
   * "YV411" under a 4:2:0 header becomes "I4201", which the cascade rejects,
   * while replacing the whole name selects I420.
   */
  lemma HeaderCodeKeepsTail()
    ensures ApplyHeaderCode(420, "YV411") == Ok("I4201")
    ensures Lookup("I4201") == Err(InvalidPixelType)
    ensures CanonicalHeaderName(420, "YV411") == Ok("I420")
  {
    assert "YV411"[4..] == "1";
    assert HeaderCodeName(420) == Some("I420");
    assert "I420" + "1" == "I4201";
    I4201IsRejected();
  }

  lemma I4201IsRejected()
    ensures Lookup("I4201") == Err(InvalidPixelType)
  {
    KeyedLookup("I4201", "i4201");
  }

  lemma KeyedLookup(name: string, key: string)
    requires seq(|name|, k requires 0 <= k < |name| => Lower(name[k])) == key
    ensures Lookup(name) == match CascadeKey(key) case Some(k) => Ok(Format(k)) case None => Err(InvalidPixelType)
  {
    LowerStrAt(name);
  }
}
